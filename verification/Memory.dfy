/** The object graph that the reference counter and the cycle collector work on.

    Memory is a sequence of cells and an address is the index of a cell. The header of a
    cell is the one of src/heap/HeapAllocator.h:14-23 without the fields the collector never
    reads (crc, type_info); field_length is the length of `fields`. */
module Memory {
  /** An object address, or NULL. */
  type Ref = int
  const NULL: Ref := -1

  datatype State = Dead | Live | ProcessGc | WaitingForGc

  datatype Object = Object(count: nat, state: State, asyncRelease: bool, isCyclicType: bool, fields: seq<Ref>)
  {
    /** Registered with (or on its way to) the suspected list. */
    predicate Candidate() { isCyclicType && asyncRelease }
  }

  // ---------------------------------------------------------------- edges

  predicate Points(h: seq<Object>, o: Ref, x: Ref) {
    0 <= o < |h| && 0 <= x < |h| && x in h[o].fields
  }

  predicate IsRef(h: seq<Object>, x: Ref) { 0 <= x < |h| }

  /** The reference held by whoever holds `x`: none if `x` is NULL. */
  ghost function Reference(x: Ref): multiset<Ref> { if x == NULL then multiset{} else multiset{x} }

  ghost predicate WellFormed(h: seq<Object>) {
    forall o, i :: 0 <= o < |h| && 0 <= i < |h[o].fields| ==> h[o].fields[i] == NULL || IsRef(h, h[o].fields[i])
  }

  /** Number of field slots in cells of `C` with index below `n` that hold `x`. */
  ghost function SlotsUpTo(h: seq<Object>, C: set<Ref>, x: Ref, n: nat): nat
    requires n <= |h|
  {
    if n == 0 then 0
    else SlotsUpTo(h, C, x, n - 1) + (if n - 1 in C then multiset(h[n - 1].fields)[x] else 0)
  }

  /** Number of field slots in cells of `C` that hold `x`. */
  ghost function Slots(h: seq<Object>, C: set<Ref>, x: Ref): nat {
    SlotsUpTo(h, C, x, |h|)
  }

  lemma {:induction false} SlotsUpToFrame(h: seq<Object>, h': seq<Object>, C: set<Ref>, D: set<Ref>, x: Ref, n: nat)
    requires n <= |h| == |h'|
    requires forall o :: 0 <= o < n ==> (o in C <==> o in D)
    requires forall o :: 0 <= o < n && o in C ==> h[o].fields == h'[o].fields
    ensures SlotsUpTo(h, C, x, n) == SlotsUpTo(h', D, x, n)
  {
    if n > 0 { SlotsUpToFrame(h, h', C, D, x, n - 1); }
  }

  lemma SlotsFrame(h: seq<Object>, h': seq<Object>, C: set<Ref>, x: Ref)
    requires |h| == |h'|
    requires forall o :: o in C && 0 <= o < |h| ==> h[o].fields == h'[o].fields
    ensures Slots(h, C, x) == Slots(h', C, x)
  {
    SlotsUpToFrame(h, h', C, C, x, |h|);
  }

  lemma {:induction false} SlotsUpToSplit(h: seq<Object>, C: set<Ref>, D: set<Ref>, x: Ref, n: nat)
    requires n <= |h|
    requires C !! D
    ensures SlotsUpTo(h, C + D, x, n) == SlotsUpTo(h, C, x, n) + SlotsUpTo(h, D, x, n)
  {
    if n > 0 { SlotsUpToSplit(h, C, D, x, n - 1); }
  }

  lemma SlotsSplit(h: seq<Object>, C: set<Ref>, D: set<Ref>, x: Ref)
    requires D <= C
    ensures Slots(h, C, x) == Slots(h, C - D, x) + Slots(h, D, x)
  {
    SlotsUpToSplit(h, C - D, D, x, |h|);
    assert C - D + D == C;
  }

  lemma {:induction false} SlotsUpToSingle(h: seq<Object>, o: Ref, x: Ref, n: nat)
    requires n <= |h| && 0 <= o < |h|
    ensures SlotsUpTo(h, {o}, x, n) == if o < n then multiset(h[o].fields)[x] else 0
  {
    if n > 0 { SlotsUpToSingle(h, o, x, n - 1); }
  }

  lemma SlotsRemove(h: seq<Object>, C: set<Ref>, o: Ref, x: Ref)
    requires o in C && 0 <= o < |h|
    ensures Slots(h, C, x) == Slots(h, C - {o}, x) + multiset(h[o].fields)[x]
  {
    SlotsSplit(h, C, {o}, x);
    SlotsUpToSingle(h, o, x, |h|);
  }

  lemma {:induction false} SlotsUpToZero(h: seq<Object>, C: set<Ref>, x: Ref, n: nat)
    requires n <= |h| && IsRef(h, x)
    ensures SlotsUpTo(h, C, x, n) == 0 <==> forall o :: o in C && o < n ==> !Points(h, o, x)
  {
    if n > 0 {
      SlotsUpToZero(h, C, x, n - 1);
      assert x in multiset(h[n - 1].fields) <==> x in h[n - 1].fields;
      assert Points(h, n - 1, x) <==> x in h[n - 1].fields;
    }
  }

  lemma SlotsZero(h: seq<Object>, C: set<Ref>, x: Ref)
    requires IsRef(h, x)
    ensures Slots(h, C, x) == 0 <==> forall o :: o in C ==> !Points(h, o, x)
  {
    SlotsUpToZero(h, C, x, |h|);
  }

  // --------------------------------------------------------- reachability

  ghost predicate Closed(h: seq<Object>, T: set<Ref>) {
    forall o, x :: o in T && Points(h, o, x) ==> x in T
  }

  /** What the addresses in `A` reach: the intersection of all closed sets that contain them. */
  ghost function Reach(h: seq<Object>, A: set<Ref>): set<Ref> {
    set x | 0 <= x < |h| && InEveryClosed(h, A, x)
  }

  ghost predicate InEveryClosed(h: seq<Object>, A: set<Ref>, x: Ref) {
    forall T {:trigger Closed(h, T)} :: A <= T && Closed(h, T) ==> x in T
  }

  lemma ReachLeast(h: seq<Object>, A: set<Ref>, T: set<Ref>)
    requires A <= T && Closed(h, T)
    ensures Reach(h, A) <= T
  {
  }

  lemma ReachClosed(h: seq<Object>, A: set<Ref>)
    ensures Closed(h, Reach(h, A))
    ensures forall a :: a in A && IsRef(h, a) ==> a in Reach(h, A)
  {
    forall o, x | o in Reach(h, A) && Points(h, o, x)
      ensures x in Reach(h, A)
    {
      forall T | A <= T && Closed(h, T)
        ensures x in T
      {
        assert o in T;
      }
    }
  }

  /** Whatever is reached and is not a source is reached through a reached object. */
  lemma ReachPred(h: seq<Object>, A: set<Ref>, x: Ref)
    requires x in Reach(h, A) && x !in A
    ensures exists o :: o in Reach(h, A) && Points(h, o, x)
  {
    if forall o :: o in Reach(h, A) ==> !Points(h, o, x) {
      ReachClosed(h, A);
      var T := Reach(h, A) - {x} + A;
      forall o, y | o in T && Points(h, o, y) ensures y in T {
        assert o in Reach(h, A);
      }
      ReachLeast(h, A, T);
      assert false;
    }
  }

  lemma ReachMono(h: seq<Object>, A: set<Ref>, B: set<Ref>)
    requires A <= Reach(h, B)
    ensures Reach(h, A) <= Reach(h, B)
  {
    ReachClosed(h, B);
    ReachLeast(h, A, Reach(h, B));
  }

  /** Reachability only looks at the fields of what is reached. */
  lemma ReachFrame(h: seq<Object>, h': seq<Object>, A: set<Ref>)
    requires |h| == |h'|
    requires forall o :: o in Reach(h, A) ==> h[o].fields == h'[o].fields
    ensures Reach(h, A) == Reach(h', A)
  {
    var R, R' := Reach(h, A), Reach(h', A);
    ReachClosed(h, A);
    ReachClosed(h', A);
    var bad := set a | a in A && !IsRef(h, a);
    forall o, y | o in R + bad && Points(h', o, y) ensures y in R + bad {
      assert Points(h, o, y);
    }
    ReachLeast(h', A, R + bad);
    forall o, y | o in R * R' + bad && Points(h, o, y) ensures y in R * R' + bad {
      assert Points(h', o, y);
    }
    ReachLeast(h, A, R * R' + bad);
  }

  /** What a set reaches is what its members reach one by one. */
  lemma ReachUnion(h: seq<Object>, A: set<Ref>, x: Ref)
    requires x in Reach(h, A)
    ensures exists a :: a in A && x in Reach(h, {a})
  {
    var T := A + set y | 0 <= y < |h| && IsRef(h, y) && exists a :: a in A && y in Reach(h, {a});
    forall o, y | o in T && Points(h, o, y) ensures y in T {
      var a :| a in A && (o == a || o in Reach(h, {a}));
      ReachClosed(h, {a});
      assert y in Reach(h, {a});
    }
    ReachLeast(h, A, T);
    if x in A { ReachClosed(h, {x}); }
  }

  // Reachability is reachability along a path.

  ghost predicate IsPath(h: seq<Object>, p: seq<Ref>) {
    |p| > 0 && forall k :: 0 <= k < |p| - 1 ==> Points(h, p[k], p[k + 1])
  }

  lemma {:induction false} PathStaysInReach(h: seq<Object>, A: set<Ref>, p: seq<Ref>)
    requires IsPath(h, p) && p[0] in Reach(h, A)
    ensures p[|p| - 1] in Reach(h, A)
  {
    if |p| > 1 {
      var q := p[..|p| - 1];
      assert IsPath(h, q) by {
        forall k | 0 <= k < |q| - 1 ensures Points(h, q[k], q[k + 1]) {
          assert Points(h, p[k], p[k + 1]);
        }
      }
      PathStaysInReach(h, A, q);
      ReachClosed(h, A);
      assert Points(h, p[|p| - 2], p[|p| - 1]);
    }
  }

  lemma ReachIsPaths(h: seq<Object>, r: Ref, x: Ref)
    requires IsRef(h, r)
    ensures x in Reach(h, {r}) <==> exists p :: IsPath(h, p) && p[0] == r && p[|p| - 1] == x
  {
    ReachClosed(h, {r});
    forall p | IsPath(h, p) && p[0] == r && p[|p| - 1] == x ensures x in Reach(h, {r}) {
      PathStaysInReach(h, {r}, p);
    }
    var T := set y | 0 <= y < |h| && IsRef(h, y) && exists p :: IsPath(h, p) && p[0] == r && p[|p| - 1] == y;
    assert IsPath(h, [r]);
    assert [r][|[r]| - 1] == r;
    assert r in T;
    forall o, y | o in T && Points(h, o, y) ensures y in T {
      var p :| IsPath(h, p) && p[0] == r && p[|p| - 1] == o;
      var q := p + [y];
      assert IsPath(h, q) && q[0] == r && q[|q| - 1] == y;
    }
    ReachLeast(h, {r}, T);
  }

  // ------------------------------------------------------------ the books

  /** The reference counts are right: every cell outside `X` that is not dead has as many
      counts as there are slots in `C` and loose references in `ext` holding it, and nothing
      holds a dead cell. `C` are the cells whose fields are counted, `X` are cells already
      sealed off by the collector, `ext` are references that are not in a counted field. */
  ghost predicate Accounts(h: seq<Object>, C: set<Ref>, X: set<Ref>, ext: multiset<Ref>) {
    && WellFormed(h)
    && (forall o :: o in C ==> IsRef(h, o))
    && (forall x :: x in X ==> IsRef(h, x))
    && (forall x :: IsRef(h, x) && x !in X ==>
          && (h[x].state != Dead ==> h[x].count == Slots(h, C, x) + ext[x])
          && (h[x].state == Dead ==> Slots(h, C, x) == 0 && ext[x] == 0)
          && (x in C ==> h[x].state == Live)
          && (h[x].state != Dead && h[x].count > 0 ==> x in C))
    && (forall o, x :: o in C && o !in X && x in X ==> !Points(h, o, x))
  }

  /** Opening a cell with no references: its fields leave `C` and become loose references. */
  lemma OpenCell(h: seq<Object>, C: set<Ref>, X: set<Ref>, ext: multiset<Ref>, o: Ref)
    requires Accounts(h, C, X, ext)
    requires o in C && (o in X || h[o].count == 0)
    ensures Accounts(h, C - {o}, X, ext + multiset(h[o].fields))
  {
    forall x ensures Slots(h, C, x) == Slots(h, C - {o}, x) + multiset(h[o].fields)[x] {
      SlotsRemove(h, C, o, x);
    }
  }

  /** A loose reference to `f` is one its count knows about. */
  lemma LooseIsCounted(h: seq<Object>, C: set<Ref>, X: set<Ref>, ext: multiset<Ref>, f: Ref)
    requires Accounts(h, C, X, ext)
    requires IsRef(h, f) && f !in X && ext[f] > 0
    ensures h[f].count > 0 && f in C && h[f].state == Live
  {
  }

  lemma DropLoose(h: seq<Object>, C: set<Ref>, X: set<Ref>, ext: multiset<Ref>, f: Ref)
    requires Accounts(h, C, X, ext)
    requires IsRef(h, f) && f !in X && ext[f] > 0
    ensures h[f].count > 0
    ensures Accounts(h[f := h[f].(count := h[f].count - 1)], C, X, ext - multiset{f})
  {
    var h' := h[f := h[f].(count := h[f].count - 1)];
    forall x ensures Slots(h, C, x) == Slots(h', C, x) {
      SlotsFrame(h, h', C, x);
    }
    assert forall o, x :: Points(h', o, x) ==> Points(h, o, x);
  }

  /** A cell outside `C` with no references may change its fields and its state. */
  lemma RewriteCell(h: seq<Object>, C: set<Ref>, X: set<Ref>, ext: multiset<Ref>, o: Ref, ob: Object)
    requires Accounts(h, C, X, ext)
    requires IsRef(h, o) && o !in C && o !in X && h[o].count == 0 && h[o].state != Dead
    requires ob.count == 0
    requires forall i :: 0 <= i < |ob.fields| ==> ob.fields[i] == NULL || IsRef(h, ob.fields[i])
    ensures Accounts(h[o := ob], C, X, ext)
  {
    var h' := h[o := ob];
    forall x ensures Slots(h, C, x) == Slots(h', C, x) {
      SlotsFrame(h, h', C, x);
    }
    assert forall p, x :: p in C && Points(h', p, x) ==> Points(h, p, x);
  }

  // ------------------------------------------------------------ sequences

  ghost predicate NoDup(s: seq<Ref>) {
    forall i, j :: 0 <= i < j < |s| ==> s[i] != s[j]
  }

  ghost function Elems(s: seq<Ref>): set<Ref> { set x | x in s }

  lemma NonEmpty(s: set<Ref>)
    requires s != {}
    ensures exists x :: x in s
  {
    assert (forall x :: x !in s) ==> s == {};
  }

  // ------------------------------------------------------- the heap object

  class Heap {
    var objs: seq<Object>
    /** The cells whose lock flag is set. */
    var locked: set<Ref>
    /** The references that threads hold outside of object fields. */
    ghost var held: multiset<Ref>

    /** Zeroed memory: every cell is dead. */
    constructor (cells: nat)
      ensures |objs| == cells && locked == {} && held == multiset{}
      ensures forall x :: 0 <= x < cells ==> objs[x] == Object(0, Dead, false, false, [])
    {
      objs := seq(cells, _ => Object(0, Dead, false, false, []));
      locked := {};
      held := multiset{};
    }
  }
}
