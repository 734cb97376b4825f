/** An object's modifier stack and `delmods`, which clears from it every
    modifier of one type (or, for the type "ALL", every modifier), followed
    in each use by the creation of one fresh modifier of that type. */
module Modifiers {

  /** The type name `delmods` reads as "every type". */
  const AllTypes: string := "ALL"

  /** One modifier of an object; two modifiers are the same only when they
      are the same object, whatever their names and types. */
  class Modifier {
    const name: string
    const kind: string

    constructor(name: string, kind: string)
      ensures this.name == name && this.kind == kind
    {
      this.name := name;
      this.kind := kind;
    }
  }

  /** No modifier appears twice in the stack. */
  predicate Distinct(s: seq<Modifier>) {
    forall i, j :: 0 <= i < j < |s| ==> s[i] != s[j]
  }

  /** The modifiers of s of type t, in stack order. */
  function OfKind(s: seq<Modifier>, t: string): (r: seq<Modifier>)
    ensures |r| <= |s|
  {
    if s == [] then []
    else (if s[0].kind == t then [s[0]] else []) + OfKind(s[1..], t)
  }

  /** The modifiers of s of any type other than t, in stack order. */
  function Others(s: seq<Modifier>, t: string): (r: seq<Modifier>)
    ensures |r| <= |s|
  {
    if s == [] then []
    else (if s[0].kind != t then [s[0]] else []) + Others(s[1..], t)
  }

  /** The list `delmods` takes before removing anything: a copy of the whole
      stack for "ALL", otherwise the modifiers of the given type. */
  function Snapshot(s: seq<Modifier>, t: string): (r: seq<Modifier>)
    ensures |r| <= |s|
  {
    if t == AllTypes then s else OfKind(s, t)
  }

  /** What `delmods` leaves of the stack: nothing for "ALL", otherwise the
      modifiers of the other types. */
  function Kept(s: seq<Modifier>, t: string): (r: seq<Modifier>)
    ensures |r| <= |s|
  {
    if t == AllTypes then [] else Others(s, t)
  }

  /** The modifiers of s that are not in X, in stack order. */
  function Without(s: seq<Modifier>, X: set<Modifier>): seq<Modifier> {
    if s == [] then []
    else (if s[0] in X then [] else [s[0]]) + Without(s[1..], X)
  }

  /** s with its first occurrence of m taken out. */
  function RemoveFirst(s: seq<Modifier>, m: Modifier): seq<Modifier> {
    if s == [] then []
    else if s[0] == m then s[1..]
    else [s[0]] + RemoveFirst(s[1..], m)
  }

  function Reverse<T>(s: seq<T>): seq<T> {
    if s == [] then [] else Reverse(s[1..]) + [s[0]]
  }

  function Elems(s: seq<Modifier>): set<Modifier> {
    set m | m in s
  }

  /** The object that owns a modifier stack (`ob.modifiers`). */
  class ModObject {
    var modifiers: seq<Modifier>

    predicate Valid()
      reads this
    {
      Distinct(modifiers)
    }

    constructor()
      ensures modifiers == [] && Valid()
    {
      modifiers := [];
    }

    /** `modifiers.remove(m)`: takes m out of the stack; the other modifiers
        keep their order. */
    method Remove(m: Modifier)
      requires m in modifiers
      modifies this
      ensures modifiers == RemoveFirst(old(modifiers), m)
    {
      modifiers := RemoveFirst(modifiers, m);
    }

    /** `modifiers.new(name, type)`: a fresh modifier on top of the stack. */
    method New(name: string, kind: string) returns (m: Modifier)
      modifies this
      ensures fresh(m) && m.name == name && m.kind == kind
      ensures modifiers == old(modifiers) + [m]
    {
      m := new Modifier(name, kind);
      modifiers := modifiers + [m];
    }
  }

  /** `delmods(ob, modType)`: snapshots the modifiers to delete, then pops the
      snapshot from its end, removing each popped modifier from the stack.
      `removed` records the removals in the order they happen. */
  method DelMods(ob: ModObject, modType: string) returns (ghost removed: seq<Modifier>)
    requires ob.Valid()
    modifies ob
    ensures ob.Valid()
    ensures ob.modifiers == Kept(old(ob.modifiers), modType)
    ensures removed == Reverse(Snapshot(old(ob.modifiers), modType))
  {
    ghost var orig := ob.modifiers;
    var mods := Snapshot(ob.modifiers, modType);
    ghost var snap := mods;
    WithoutNothing(orig);
    assert Elems(snap[|snap|..]) == {};
    assert ob.modifiers == Without(orig, Elems(snap[|mods|..]));
    removed := [];
    while mods != []
      invariant mods == snap[..|mods|]
      invariant ob.modifiers == Without(orig, Elems(snap[|mods|..]))
      invariant removed == Reverse(snap[|mods|..])
      decreases |mods|
    {
      var n := |mods|;
      var m := mods[n - 1];
      mods := mods[..n - 1];
      assert m == snap[n - 1] && |mods| == n - 1;
      PopStep(orig, modType, snap, n);
      ob.Remove(m);
      assert ob.modifiers == Without(orig, Elems(snap[n - 1..]));
      removed := removed + [m];
    }
    assert snap[0..] == snap;
    DelModsResult(orig, modType);
    KeptDistinct(orig, modType);
  }

  /** One iteration of the loop of `delmods`: the popped modifier is still
      in the stack, and removing it extends what has been removed by one. */
  lemma PopStep(s: seq<Modifier>, t: string, snap: seq<Modifier>, n: nat)
    requires Distinct(s) && snap == Snapshot(s, t) && 1 <= n <= |snap|
    ensures snap[n - 1] in Without(s, Elems(snap[n..]))
    ensures RemoveFirst(Without(s, Elems(snap[n..])), snap[n - 1]) == Without(s, Elems(snap[n - 1..]))
    ensures Reverse(snap[n - 1..]) == Reverse(snap[n..]) + [snap[n - 1]]
  {
    SnapshotDistinct(s, t);
    SnapshotMembers(s, t, snap[n - 1]);
    RemoveStep(s, snap, n);
    ReverseStep(snap, n);
  }

  /** Removing snap[n - 1] from what is left after removing snap[n..]
      leaves what is left after removing snap[n - 1..]. */
  lemma RemoveStep(s: seq<Modifier>, snap: seq<Modifier>, n: nat)
    requires Distinct(s) && Distinct(snap) && 1 <= n <= |snap| && snap[n - 1] in s
    ensures snap[n - 1] in Without(s, Elems(snap[n..]))
    ensures RemoveFirst(Without(s, Elems(snap[n..])), snap[n - 1]) == Without(s, Elems(snap[n - 1..]))
  {
    var m := snap[n - 1];
    var done := Elems(snap[n..]);
    NotInSuffix(snap, n);
    WithoutMembers(s, done, m);
    RemoveFromWithout(s, done, m);
    assert snap[n - 1..] == [m] + snap[n..];
    assert Elems(snap[n - 1..]) == done + {m};
  }

  lemma ReverseStep<T>(snap: seq<T>, n: nat)
    requires 1 <= n <= |snap|
    ensures Reverse(snap[n - 1..]) == Reverse(snap[n..]) + [snap[n - 1]]
  {
    assert snap[n - 1..][1..] == snap[n..];
  }

  /** In a stack without repeats, the element at n - 1 is not among those
      from n on. */
  lemma NotInSuffix(snap: seq<Modifier>, n: nat)
    requires Distinct(snap) && 1 <= n <= |snap|
    ensures snap[n - 1] !in Elems(snap[n..])
  {
    forall x | x in snap[n..] ensures x != snap[n - 1] {
      var j :| 0 <= j < |snap[n..]| && snap[n..][j] == x;
      assert snap[n + j] == x;
    }
  }

  /** The pattern used for each modifier the script sets up: clear the stack
      of that type, then add one fresh modifier of it. */
  method ReplaceModifier(ob: ModObject, name: string, kind: string) returns (m: Modifier)
    requires ob.Valid()
    modifies ob
    ensures fresh(m) && m.name == name && m.kind == kind
    ensures ob.modifiers == Kept(old(ob.modifiers), kind) + [m]
    ensures ob.Valid()
  {
    ghost var removed := DelMods(ob, kind);
    ghost var before := ob.modifiers;
    m := ob.New(name, kind);
    assert m !in before;
    forall i, j | 0 <= i < j < |ob.modifiers| ensures ob.modifiers[i] != ob.modifiers[j] {
      if j == |before| {
        assert ob.modifiers[i] == before[i];
      }
    }
  }

  /** A modifier is in the snapshot of type t exactly when it is in the stack
      with type t. */
  lemma {:induction false} OfKindMembers(s: seq<Modifier>, t: string, m: Modifier)
    ensures m in OfKind(s, t) <==> m in s && m.kind == t
  {
    if s != [] {
      OfKindMembers(s[1..], t, m);
      assert s == [s[0]] + s[1..];
    }
  }

  lemma {:induction false} OthersMembers(s: seq<Modifier>, t: string, m: Modifier)
    ensures m in Others(s, t) <==> m in s && m.kind != t
  {
    if s != [] {
      OthersMembers(s[1..], t, m);
      assert s == [s[0]] + s[1..];
    }
  }

  /** A modifier survives `delmods(ob, t)` exactly when it was in the stack,
      t is not "ALL" and its own type is not t. */
  lemma KeptMembers(s: seq<Modifier>, t: string, m: Modifier)
    ensures m in Kept(s, t) <==> m in s && t != AllTypes && m.kind != t
  {
    if t != AllTypes {
      OthersMembers(s, t, m);
    }
  }

  /** No modifier of type t remains after `delmods(ob, t)`. */
  lemma KeptHasNoneOfKind(s: seq<Modifier>, t: string)
    ensures forall m :: m in Kept(s, t) ==> m.kind != t
    ensures OfKind(Kept(s, t), t) == []
  {
    forall m | m in Kept(s, t) ensures m.kind != t {
      KeptMembers(s, t, m);
    }
    NoneOfKind(Kept(s, t), t);
  }

  lemma {:induction false} NoneOfKind(s: seq<Modifier>, t: string)
    requires forall m :: m in s ==> m.kind != t
    ensures OfKind(s, t) == []
  {
    if s != [] {
      assert s[0] in s;
      assert forall m :: m in s[1..] ==> m in s;
      NoneOfKind(s[1..], t);
    }
  }

  /** Filtering a split stack filters each part: the survivors keep their
      relative order. */
  lemma {:induction false} OthersConcat(a: seq<Modifier>, b: seq<Modifier>, t: string)
    ensures Others(a + b, t) == Others(a, t) + Others(b, t)
  {
    if a != [] {
      var h := if a[0].kind != t then [a[0]] else [];
      assert (a + b)[0] == a[0] && (a + b)[1..] == a[1..] + b;
      assert Others(a + b, t) == h + Others(a[1..] + b, t);
      OthersConcat(a[1..], b, t);
      assert Others(a, t) == h + Others(a[1..], t);
      assert h + (Others(a[1..], t) + Others(b, t)) == (h + Others(a[1..], t)) + Others(b, t);
    } else {
      assert a + b == b;
    }
  }

  /** Two surviving modifiers keep their relative order. */
  lemma KeptKeepsOrder(s: seq<Modifier>, t: string, i: nat, j: nat)
    requires t != AllTypes && i < j < |s| && s[i].kind != t && s[j].kind != t
    ensures exists p, q :: 0 <= p < q < |Kept(s, t)| && Kept(s, t)[p] == s[i] && Kept(s, t)[q] == s[j]
  {
    var a, b := s[..j], s[j..];
    assert s == a + b;
    OthersConcat(a, b, t);
    assert a[i] == s[i];
    OthersMembers(a, t, s[i]);
    var p :| 0 <= p < |Others(a, t)| && Others(a, t)[p] == s[i];
    assert b[0] == s[j];
    assert Others(b, t) == [s[j]] + Others(b[1..], t);
    var q := |Others(a, t)|;
    assert Kept(s, t)[p] == s[i] && Kept(s, t)[q] == s[j];
  }

  /** A stack with no modifier of type t is left as it is, in particular a
      second `delmods(ob, t)` changes nothing. */
  lemma {:induction false} OthersUnchanged(s: seq<Modifier>, t: string)
    requires forall m :: m in s ==> m.kind != t
    ensures Others(s, t) == s
  {
    if s != [] {
      assert s[0] in s;
      assert forall m :: m in s[1..] ==> m in s;
      OthersUnchanged(s[1..], t);
    }
  }

  lemma KeptIdempotent(s: seq<Modifier>, t: string)
    ensures Kept(Kept(s, t), t) == Kept(s, t)
  {
    if t != AllTypes {
      KeptHasNoneOfKind(s, t);
      OthersUnchanged(Kept(s, t), t);
    }
  }

  /** Every modifier is either removed or kept: the loop runs once per
      snapshot element and the two parts add up to the whole stack. */
  lemma {:induction false} SnapshotAndKept(s: seq<Modifier>, t: string)
    ensures |Snapshot(s, t)| + |Kept(s, t)| == |s|
  {
    if t != AllTypes && s != [] {
      SnapshotAndKept(s[1..], t);
    }
  }

  /** After clearing type t and adding one fresh modifier of type t, the
      stack holds exactly one modifier of type t, and it is on top. */
  lemma ReplaceLeavesOne(s: seq<Modifier>, t: string, m: Modifier)
    requires m.kind == t
    ensures OfKind(Kept(s, t) + [m], t) == [m]
    ensures (Kept(s, t) + [m])[|Kept(s, t)|] == m
  {
    KeptHasNoneOfKind(s, t);
    OfKindConcat(Kept(s, t), [m], t);
    assert OfKind([m], t) == [m] + OfKind([], t);
  }

  lemma {:induction false} OfKindConcat(a: seq<Modifier>, b: seq<Modifier>, t: string)
    ensures OfKind(a + b, t) == OfKind(a, t) + OfKind(b, t)
  {
    if a != [] {
      var h := if a[0].kind == t then [a[0]] else [];
      assert (a + b)[0] == a[0] && (a + b)[1..] == a[1..] + b;
      assert OfKind(a + b, t) == h + OfKind(a[1..] + b, t);
      OfKindConcat(a[1..], b, t);
      assert OfKind(a, t) == h + OfKind(a[1..], t);
      assert h + (OfKind(a[1..], t) + OfKind(b, t)) == (h + OfKind(a[1..], t)) + OfKind(b, t);
    } else {
      assert a + b == b;
    }
  }

  lemma {:induction false} OfKindDistinct(s: seq<Modifier>, t: string)
    requires Distinct(s)
    ensures Distinct(OfKind(s, t))
  {
    if s != [] {
      DistinctTail(s);
      OfKindDistinct(s[1..], t);
      OfKindMembers(s[1..], t, s[0]);
      if s[0].kind == t {
        DistinctCons(s[0], OfKind(s[1..], t));
      }
    }
  }

  lemma {:induction false} OthersDistinct(s: seq<Modifier>, t: string)
    requires Distinct(s)
    ensures Distinct(Others(s, t))
  {
    if s != [] {
      DistinctTail(s);
      OthersDistinct(s[1..], t);
      OthersMembers(s[1..], t, s[0]);
      if s[0].kind != t {
        DistinctCons(s[0], Others(s[1..], t));
      }
    }
  }

  lemma SnapshotDistinct(s: seq<Modifier>, t: string)
    requires Distinct(s)
    ensures Distinct(Snapshot(s, t))
  {
    if t != AllTypes {
      OfKindDistinct(s, t);
    }
  }

  lemma KeptDistinct(s: seq<Modifier>, t: string)
    requires Distinct(s)
    ensures Distinct(Kept(s, t))
  {
    if t != AllTypes {
      OthersDistinct(s, t);
    }
  }

  /** In a stack without repeats the first modifier does not occur again,
      and the rest has no repeats either. */
  lemma DistinctTail(s: seq<Modifier>)
    requires Distinct(s) && s != []
    ensures s[0] !in s[1..] && Distinct(s[1..])
  {
    forall i, j | 0 <= i < j < |s[1..]| ensures s[1..][i] != s[1..][j] {
      assert s[1..][i] == s[i + 1] && s[1..][j] == s[j + 1];
    }
    forall k | 0 <= k < |s[1..]| ensures s[1..][k] != s[0] {
      assert s[1..][k] == s[k + 1];
    }
  }

  lemma DistinctCons(x: Modifier, s: seq<Modifier>)
    requires x !in s && Distinct(s)
    ensures Distinct([x] + s)
  {
    var r := [x] + s;
    forall i, j | 0 <= i < j < |r| ensures r[i] != r[j] {
      assert r[j] == s[j - 1];
      if i > 0 {
        assert r[i] == s[i - 1];
      }
    }
  }

  lemma {:induction false} WithoutNothing(s: seq<Modifier>)
    ensures Without(s, {}) == s
  {
    if s != [] {
      WithoutNothing(s[1..]);
      assert s == [s[0]] + s[1..];
    }
  }

  lemma SnapshotMembers(s: seq<Modifier>, t: string, m: Modifier)
    requires m in Snapshot(s, t)
    ensures m in s
  {
    if t != AllTypes {
      OfKindMembers(s, t, m);
    }
  }

  lemma {:induction false} WithoutMembers(s: seq<Modifier>, X: set<Modifier>, m: Modifier)
    ensures m in Without(s, X) <==> m in s && m !in X
  {
    if s != [] {
      WithoutMembers(s[1..], X, m);
      assert s == [s[0]] + s[1..];
    }
  }

  lemma {:induction false} WithoutAbsent(s: seq<Modifier>, X: set<Modifier>, m: Modifier)
    requires m !in s
    ensures Without(s, X + {m}) == Without(s, X)
  {
    if s != [] {
      assert s[0] in s;
      assert forall x :: x in s[1..] ==> x in s;
      WithoutAbsent(s[1..], X, m);
    }
  }

  /** Removing one more modifier of the stack from what is left of it. */
  lemma {:induction false} RemoveFromWithout(s: seq<Modifier>, X: set<Modifier>, m: Modifier)
    requires Distinct(s) && m in s && m !in X
    ensures RemoveFirst(Without(s, X), m) == Without(s, X + {m})
  {
    DistinctTail(s);
    if s[0] == m {
      WithoutAbsent(s[1..], X, m);
    } else {
      RemoveFromWithout(s[1..], X, m);
      var w := Without(s[1..], X);
      if s[0] !in X {
        assert Without(s, X) == [s[0]] + w;
        assert ([s[0]] + w)[0] == s[0] && ([s[0]] + w)[1..] == w;
        assert RemoveFirst([s[0]] + w, m) == [s[0]] + RemoveFirst(w, m);
        assert Without(s, X + {m}) == [s[0]] + Without(s[1..], X + {m});
      } else {
        assert Without(s, X) == [] + w == w;
        assert Without(s, X + {m}) == [] + Without(s[1..], X + {m}) == Without(s[1..], X + {m});
      }
    }
  }

  /** Taking out every element of the snapshot leaves what `Kept` says. */
  lemma DelModsResult(s: seq<Modifier>, t: string)
    ensures Without(s, Elems(Snapshot(s, t))) == Kept(s, t)
  {
    if t == AllTypes {
      WithoutCovered(s, Elems(s));
    } else {
      forall m | m in s ensures m in Elems(OfKind(s, t)) <==> m.kind == t {
        OfKindMembers(s, t, m);
      }
      WithoutOfKind(s, Elems(OfKind(s, t)), t);
    }
  }

  lemma {:induction false} WithoutCovered(s: seq<Modifier>, X: set<Modifier>)
    requires forall m :: m in s ==> m in X
    ensures Without(s, X) == []
  {
    if s != [] {
      assert s[0] in s;
      assert forall m :: m in s[1..] ==> m in s;
      WithoutCovered(s[1..], X);
    }
  }

  lemma {:induction false} WithoutOfKind(s: seq<Modifier>, X: set<Modifier>, t: string)
    requires forall m :: m in s ==> (m in X <==> m.kind == t)
    ensures Without(s, X) == Others(s, t)
  {
    if s != [] {
      assert s[0] in s;
      assert forall m :: m in s[1..] ==> m in s;
      WithoutOfKind(s[1..], X, t);
    }
  }
}
