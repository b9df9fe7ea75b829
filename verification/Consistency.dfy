/** The invariant between operations of the reference counter, and what each elementary
    change of memory does to it. */
module Consistency {
  import opened Memory
  import opened RefCount

  ghost function LiveSet(h: seq<Object>): set<Ref> {
    set x | 0 <= x < |h| && h[x].state == Live
  }

  ghost function WaitingSet(h: seq<Object>): set<Ref> {
    set x | 0 <= x < |h| && h[x].state == WaitingForGc
  }

  /** The candidates for collection: registered objects that are not dead. */
  ghost function CandidateSet(h: seq<Object>): set<Ref> {
    set x | 0 <= x < |h| && h[x].state != Dead && h[x].Candidate()
  }

  /** Live objects of a cyclic type that have not been registered. */
  ghost function PlainSet(h: seq<Object>): set<Ref> {
    set x | 0 <= x < |h| && h[x].state == Live && h[x].isCyclicType && !h[x].asyncRelease
  }

  /** No cycle runs through `N` alone: every nonempty part has a member that no member points to. */
  ghost predicate Acyclic(h: seq<Object>, N: set<Ref>) {
    forall B: set<Ref> :: B <= N && B != {} ==> exists b :: b in B && NoneFrom(h, B, b)
  }

  ghost predicate NoneFrom(h: seq<Object>, B: set<Ref>, x: Ref) {
    forall o :: o in B ==> !Points(h, o, x)
  }

  /** Flags follow the counts. */
  ghost predicate Flagged(h: seq<Object>) {
    forall x :: IsRef(h, x) && h[x].state != Dead ==>
      && (h[x].state == Live || h[x].state == WaitingForGc)
      && (h[x].state == Live ==> h[x].count > 0)
      && (h[x].asyncRelease ==> h[x].isCyclicType)
      && (h[x].count >= 2 && h[x].isCyclicType ==> h[x].asyncRelease)
  }

  /** `suspected` is the collector's list, `held` are the references of the threads. */
  ghost predicate Consistent(h: seq<Object>, suspected: set<Ref>, held: multiset<Ref>) {
    && Accounts(h, LiveSet(h), {}, held)
    && (forall x :: x in held ==> IsRef(h, x))
    && Flagged(h)
    && Forest(h, WaitingSet(h))
    && suspected == CandidateSet(h)
    && Acyclic(h, PlainSet(h))
  }

  // ------------------------------------------------------------- consequences

  /** Fields of live objects lead to live objects, and so does everything held. */
  lemma LiveClosed(h: seq<Object>, suspected: set<Ref>, held: multiset<Ref>)
    requires Consistent(h, suspected, held)
    ensures Closed(h, LiveSet(h))
    ensures forall x :: x in held ==> x in LiveSet(h)
    ensures forall x :: x in held ==> IsRef(h, x) && h[x].count >= held[x]
  {
    hide Forest, Acyclic, Flagged;
    forall o, x | o in LiveSet(h) && Points(h, o, x) ensures x in LiveSet(h) {
      SlotsZero(h, LiveSet(h), x);
    }
  }

  lemma CycleHasPredecessors(h: seq<Object>, cycle: seq<Ref>, b: Ref)
    requires cycle != [] && IsPath(h, cycle + [cycle[0]]) && b in cycle
    ensures !NoneFrom(h, Elems(cycle), b)
  {
    var p := cycle + [cycle[0]];
    var k :| 0 <= k < |cycle| && cycle[k] == b;
    var j := if k == 0 then |cycle| - 1 else k - 1;
    assert Points(h, p[j], p[j + 1]);
    assert p[j] == cycle[j] && p[j + 1] == b;
    assert cycle[j] in Elems(cycle);
  }

  /** No cycle runs through a forest: part of it in which every member is pointed to would hang below no root. */
  lemma ForestAcyclic(h: seq<Object>, W: set<Ref>, B: set<Ref>)
    requires Forest(h, W) && WellFormed(h) && B <= W
    requires forall b :: b in B ==> !NoneFrom(h, B, b)
    ensures B == {}
  {
    hide Reach, Forest, Closed, NoneFrom, WellFormed;
    PartClosed(h, W, B);
    ReachLeast(h, Candidates(h, W), W - B);
    ForestReached(h, W);
    forall b ensures b !in B { assert b in B ==> b in W; }
  }

  lemma ForestReached(h: seq<Object>, W: set<Ref>)
    requires Forest(h, W)
    ensures W <= Reach(h, Candidates(h, W))
  {
    hide Reach;
  }

  /** Nothing else in the forest leads into such a part, and no root belongs to it. */
  lemma PartClosed(h: seq<Object>, W: set<Ref>, B: set<Ref>)
    requires Forest(h, W) && WellFormed(h) && B <= W
    requires forall b :: b in B ==> !NoneFrom(h, B, b)
    ensures Closed(h, W - B) && Candidates(h, W) <= W - B
  {
    hide Reach, Forest, WellFormed;
    ForestClosed(h, W);
    forall b | b in B ensures b !in Candidates(h, W) {
      var o :| o in B && Points(h, o, b);
      FieldNoRoot(h, W, o, b);
    }
    forall o, x | o in W - B && Points(h, o, x) ensures x in W - B {
      if x in B {
        var p :| p in B && Points(h, p, x);
        OneOwner(h, W, o, p, x);
      }
    }
  }

  lemma FieldNoRoot(h: seq<Object>, W: set<Ref>, o: Ref, x: Ref)
    requires Forest(h, W) && o in W && Points(h, o, x)
    ensures !h[x].Candidate()
  {
    hide Reach;
    var i :| 0 <= i < |h[o].fields| && h[o].fields[i] == x;
  }

  lemma OneOwner(h: seq<Object>, W: set<Ref>, o: Ref, p: Ref, x: Ref)
    requires Forest(h, W) && o in W && p in W && Points(h, o, x) && Points(h, p, x)
    ensures o == p
  {
    hide Reach;
    var i :| 0 <= i < |h[o].fields| && h[o].fields[i] == x;
    var j :| 0 <= j < |h[p].fields| && h[p].fields[j] == x;
  }

  /** Live objects do not point to waiting ones, so a cycle with a waiting member would run through
      the waiting trees. */
  lemma CycleIsLive(h: seq<Object>, suspected: set<Ref>, held: multiset<Ref>, B: set<Ref>)
    requires Consistent(h, suspected, held)
    requires forall b :: b in B ==> !NoneFrom(h, B, b) && IsRef(h, b) && h[b].state != Dead
    ensures B <= LiveSet(h)
  {
    hide Consistent, Forest, Closed;
    LiveClosed(h, suspected, held);
    WaitingForest(h, suspected, held);
    var L, W := LiveSet(h), B * WaitingSet(h);
    forall b | b in W ensures !NoneFrom(h, W, b) {
      var o :| o in B && Points(h, o, b);
      if o in L { PointsWithin(h, L, o, b); }
      assert o in W;
    }
    ForestAcyclic(h, WaitingSet(h), W);
    forall b | b in B ensures b in L { assert b !in W; }
  }

  lemma PointsWithin(h: seq<Object>, T: set<Ref>, o: Ref, x: Ref)
    requires Closed(h, T) && o in T && Points(h, o, x)
    ensures x in T
  {
  }

  lemma WaitingForest(h: seq<Object>, suspected: set<Ref>, held: multiset<Ref>)
    requires Consistent(h, suspected, held)
    ensures Forest(h, WaitingSet(h)) && WellFormed(h)
    ensures forall x :: IsRef(h, x) && h[x].state != Dead ==> x in LiveSet(h) || x in WaitingSet(h)
  {
    hide Forest, Acyclic;
  }

  /** Every cycle of objects of cyclic types that are not dead contains a candidate. */
  lemma CycleHasCandidate(h: seq<Object>, suspected: set<Ref>, held: multiset<Ref>, cycle: seq<Ref>)
    requires Consistent(h, suspected, held)
    requires cycle != [] && IsPath(h, cycle + [cycle[0]])
    requires forall x :: x in cycle ==> IsRef(h, x) && h[x].state != Dead && h[x].isCyclicType
    ensures exists x :: x in cycle && x in suspected
  {
    hide Forest, Accounts, Flagged, IsPath, NoneFrom;
    var B := Elems(cycle);
    assert cycle[0] in B;
    forall b | b in B ensures !NoneFrom(h, B, b) {
      CycleHasPredecessors(h, cycle, b);
    }
    CycleIsLive(h, suspected, held, B);
    assert !(B <= PlainSet(h));
    var x :| x in B && x !in PlainSet(h);
    assert x in CandidateSet(h);
  }

  lemma AcyclicShrink(h: seq<Object>, h': seq<Object>, N: set<Ref>, N': set<Ref>)
    requires Acyclic(h, N) && N' <= N && |h| == |h'|
    requires forall o, x :: o in N' && x in N' && Points(h', o, x) ==> Points(h, o, x)
    ensures Acyclic(h', N')
  {
    forall B: set<Ref> | B <= N' && B != {} ensures exists b :: b in B && NoneFrom(h', B, b) {
      assert B <= N;
      var b :| b in B && NoneFrom(h, B, b);
      forall o | o in B ensures !Points(h', o, b) {
        assert o in N' && b in N';
      }
      assert NoneFrom(h', B, b);
    }
  }

  // ------------------------------------------------------------------ changes

  lemma IncrementAccounts(h: seq<Object>, C: set<Ref>, X: set<Ref>, ext: multiset<Ref>, x: Ref, ob: Object)
    requires Accounts(h, C, X, ext) && x in C && x !in X
    requires ob.count == h[x].count + 1 && ob.state == h[x].state && ob.fields == h[x].fields
    ensures Accounts(h[x := ob], C, X, ext + multiset{x})
  {
    var h' := h[x := ob];
    forall y ensures Slots(h', C, y) == Slots(h, C, y) { SlotsFrame(h, h', C, y); }
    assert forall o, y :: Points(h', o, y) <==> Points(h, o, y);
  }

  lemma IncrementKeeps(h: seq<Object>, suspected: set<Ref>, held: multiset<Ref>, x: Ref)
    requires Consistent(h, suspected, held)
    requires x in LiveSet(h)
    ensures var h' := h[x := Incremented(h[x])];
            Consistent(h', if h'[x].Candidate() then suspected + {x} else suspected, held + multiset{x})
  {
    hide Acyclic, Forest, Accounts;
    var h' := h[x := Incremented(h[x])];
    assert LiveSet(h') == LiveSet(h) && WaitingSet(h') == WaitingSet(h);
    IncrementAccounts(h, LiveSet(h), {}, held, x, Incremented(h[x]));
    AccountsWellFormed(h, LiveSet(h), {}, held);
    ForestFrame(h, h', WaitingSet(h));
    AcyclicShrink(h, h', PlainSet(h), PlainSet(h'));
    assert CandidateSet(h') == if h'[x].Candidate() then suspected + {x} else suspected;
  }

  /** The books after slot `i` of `p` has been overwritten with `x`. */
  function Written(h: seq<Object>, p: Ref, i: nat, x: Ref): seq<Object>
    requires IsRef(h, p) && i < |h[p].fields|
  {
    h[p := h[p].(fields := h[p].fields[i := x])]
  }

  /** A write moves one reference from the loose ones to the fields and one back. */
  lemma WriteSlots(h: seq<Object>, C: set<Ref>, p: Ref, i: nat, x: Ref, ext: multiset<Ref>, y: Ref)
    requires p in C && IsRef(h, p) && i < |h[p].fields| && (x == NULL || ext[x] > 0) && y != NULL
    ensures var ext' := ext - multiset{x} + multiset{h[p].fields[i]};
            Slots(Written(h, p, i, x), C, y) + ext'[y] == Slots(h, C, y) + ext[y]
  {
    var h', fields := Written(h, p, i, x), h[p].fields;
    SlotsRemove(h, C, p, y);
    SlotsRemove(h', C, p, y);
    SlotsFrame(h, h', C - {p}, y);
    assert multiset(fields[i := x]) == multiset(fields) - multiset{fields[i]} + multiset{x};
    assert fields[i] in multiset(fields);
  }

  lemma WriteOutside(h: seq<Object>, C: set<Ref>, X: set<Ref>, p: Ref, i: nat, x: Ref)
    requires IsRef(h, p) && p in C && p !in X && i < |h[p].fields| && x !in X
    requires forall o, y :: o in C && o !in X && y in X ==> !Points(h, o, y)
    ensures forall o, y :: o in C && o !in X && y in X ==> !Points(Written(h, p, i, x), o, y)
  {
    var h', fields := Written(h, p, i, x), h[p].fields[i := x];
    assert forall j :: 0 <= j < |fields| ==> fields[j] == x || fields[j] in h[p].fields;
    forall o, y | o in C && o !in X && y in X ensures !Points(h', o, y) {
      assert !Points(h, o, y);
    }
  }

  lemma WriteAccounts(h: seq<Object>, C: set<Ref>, X: set<Ref>, ext: multiset<Ref>, p: Ref, i: nat, x: Ref)
    requires Accounts(h, C, X, ext) && p in C && p !in X && i < |h[p].fields|
    requires x == NULL || (IsRef(h, x) && x !in X && ext[x] > 0)
    ensures Accounts(Written(h, p, i, x), C, X, ext - multiset{x} + multiset{h[p].fields[i]})
  {
    hide Slots, Points;
    var h', ext' := Written(h, p, i, x), ext - multiset{x} + multiset{h[p].fields[i]};
    forall y | IsRef(h, y) ensures Slots(h', C, y) + ext'[y] == Slots(h, C, y) + ext[y] {
      WriteSlots(h, C, p, i, x, ext, y);
    }
    WriteOutside(h, C, X, p, i, x);
  }

  /** A held reference moves into a field, the reference that was there is held instead. The
      thread holds the parent separately from the reference it moves in. */
  lemma WriteKeeps(h: seq<Object>, suspected: set<Ref>, held: multiset<Ref>, p: Ref, i: nat, x: Ref)
    requires Consistent(h, suspected, held)
    requires p in held && IsRef(h, p) && i < |h[p].fields|
    requires x == NULL || (x in held && (x == p ==> held[x] >= 2))
    ensures var o := h[p].fields[i];
            Consistent(Written(h, p, i, x), suspected, held - multiset{x} + Reference(o))
  {
    hide Acyclic, Forest, Accounts, WellFormed;
    LiveClosed(h, suspected, held);
    var h', o := Written(h, p, i, x), h[p].fields[i];
    assert LiveSet(h') == LiveSet(h) && WaitingSet(h') == WaitingSet(h)
        && CandidateSet(h') == CandidateSet(h) && PlainSet(h') == PlainSet(h);
    WriteHeld(h, LiveSet(h), {}, held, p, i, x);
    AccountsWellFormed(h, LiveSet(h), {}, held);
    ForestFrame(h, h', WaitingSet(h));
    WriteAcyclic(h, suspected, held, p, i, x);
  }

  lemma AccountsNull(h: seq<Object>, C: set<Ref>, X: set<Ref>, ext: multiset<Ref>, ext': multiset<Ref>)
    requires Accounts(h, C, X, ext)
    requires forall x :: IsRef(h, x) ==> ext[x] == ext'[x]
    ensures Accounts(h, C, X, ext')
  {
  }

  lemma WriteHeld(h: seq<Object>, C: set<Ref>, X: set<Ref>, held: multiset<Ref>, p: Ref, i: nat, x: Ref)
    requires Accounts(h, C, X, held) && p in C && p !in X && i < |h[p].fields|
    requires x == NULL || (IsRef(h, x) && x !in X && held[x] > 0)
    requires forall y :: y in held ==> IsRef(h, y)
    ensures var o := h[p].fields[i];
            var held' := held - multiset{x} + Reference(o);
            && Accounts(Written(h, p, i, x), C, X, held')
            && (forall y :: y in held' ==> IsRef(h, y))
  {
    WriteAccounts(h, C, X, held, p, i, x);
    var o := h[p].fields[i];
    AccountsNull(Written(h, p, i, x), C, X, held - multiset{x} + multiset{o},
                 held - multiset{x} + Reference(o));
  }

  /** An unregistered parent has one reference, the one its writer holds, so no path leads to it. */
  lemma WriteAcyclic(h: seq<Object>, suspected: set<Ref>, held: multiset<Ref>, p: Ref, i: nat, x: Ref)
    requires Consistent(h, suspected, held)
    requires p in held && IsRef(h, p) && p in LiveSet(h) && i < |h[p].fields|
    requires x == NULL || (x in held && (x == p ==> held[x] >= 2))
    ensures Acyclic(Written(h, p, i, x), PlainSet(h))
  {
    hide Forest;
    var h', N := Written(h, p, i, x), PlainSet(h);
    SlotsZero(h, LiveSet(h), p);
    forall B: set<Ref> | B <= N && B != {} ensures exists b :: b in B && NoneFrom(h', B, b) {
      if p in B {
        assert h[p].count == 1 && Slots(h, LiveSet(h), p) == 0;
        forall o | o in B ensures !Points(h, o, p) { assert o in LiveSet(h); }
        WrittenNoneFrom(h, p, i, x, B, p);
      } else {
        var b :| b in B && NoneFrom(h, B, b);
        SameEdges(h, h', B, b);
      }
    }
  }

  lemma SameEdges(h: seq<Object>, h': seq<Object>, B: set<Ref>, b: Ref)
    requires |h'| == |h| && NoneFrom(h, B, b) && forall o :: o in B && IsRef(h, o) ==> h'[o].fields == h[o].fields
    ensures NoneFrom(h', B, b)
  {
    forall o | o in B ensures !Points(h', o, b) { assert !Points(h, o, b); }
  }

  /** Writing something else makes nothing point to `b`. */
  lemma WrittenNoneFrom(h: seq<Object>, p: Ref, i: nat, x: Ref, B: set<Ref>, b: Ref)
    requires IsRef(h, p) && i < |h[p].fields| && x != b && NoneFrom(h, B, b)
    ensures NoneFrom(Written(h, p, i, x), B, b)
  {
    forall o | o in B ensures !Points(Written(h, p, i, x), o, b) {
      assert !Points(h, o, b);
    }
  }

  /** The parts of memory after a cascade, in terms of what was before. */
  lemma CascadeSets(h: seq<Object>, h': seq<Object>, C: set<Ref>, X: set<Ref>, ext: multiset<Ref>, order: seq<Ref>)
    requires Cascaded(h, h', C, X, ext, order)
    requires forall x :: x in order && IsRef(h, x) ==> h[x].state == Live
    ensures LiveSet(h') == LiveSet(h) - Elems(order)
    ensures WaitingSet(h') == WaitingSet(h) + WaitingOf(h', Elems(order)) && WaitingSet(h) !! Elems(order)
    ensures CandidateSet(h') == CandidateSet(h)
    ensures PlainSet(h') == PlainSet(h) - Elems(order)
    ensures forall o, x :: o !in order ==> (Points(h', o, x) <==> Points(h, o, x))
  {
    hide Forest, Accounts;
    forall x | IsRef(h, x) ensures x in order ==> Settled(h[x], h'[x]) {}
  }

  lemma CascadeForest(h: seq<Object>, h': seq<Object>, C: set<Ref>, X: set<Ref>, ext: multiset<Ref>, order: seq<Ref>,
                      W: set<Ref>)
    requires Cascaded(h, h', C, X, ext, order) && Forest(h, W) && W !! Elems(order) && WellFormed(h)
    ensures Forest(h', W + WaitingOf(h', Elems(order)))
  {
    hide Accounts, Forest, Grounded, Settled;
    assert forall o :: o in W ==> IsRef(h, o) by { ForestRefs(h, W); }
    forall o | o in W ensures o !in order { assert o !in Elems(order); }
    ForestFrame(h, h', W);
    ForestUnion(h', W, WaitingOf(h', Elems(order)));
  }

  lemma ForestRefs(h: seq<Object>, W: set<Ref>)
    requires Forest(h, W)
    ensures forall o :: o in W ==> IsRef(h, o)
  {
  }

  lemma DropParts(h: seq<Object>, h': seq<Object>, C: set<Ref>, X: set<Ref>, held: multiset<Ref>, x: Ref,
                  order: seq<Ref>)
    requires Dropped(h, h', C, X, held, x, order)
    requires (forall y :: y in C && y !in X && IsRef(h, y) ==> h[y].state == Live)
    ensures |h'| == |h| && IsRef(h, x) && x !in X && h[x].count > 0
    ensures Accounts(h', C - Elems(order), X, held - multiset{x})
    ensures Cascaded(h[x := h[x].(count := h[x].count - 1)], h', C, X, held - multiset{x}, order)
    ensures DropClosed(h[x := h[x].(count := h[x].count - 1)], C, X, held - multiset{x}, Elems(order))
    ensures forall y :: y in C && y !in X && y !in order ==> IsRef(h', y) && h'[y].count > 0
    ensures forall y :: y in order ==> IsRef(h, y) && h[y].state == Live && y in C && y !in X
    ensures forall y :: IsRef(h, y) && y !in order ==> h'[y] == h[y].(count := h'[y].count) && h'[y].count <= h[y].count
    ensures forall y :: y in order ==> Settled(h[y], h'[y])
  {
    hide Accounts, Forest, DropClosed;
  }

  lemma DropFlagged(h: seq<Object>, h': seq<Object>, held: multiset<Ref>, x: Ref, order: seq<Ref>)
    requires Dropped(h, h', LiveSet(h), {}, held, x, order) && Flagged(h)
    ensures |h'| == |h| && Flagged(h')
  {
    hide Dropped, Accounts, Forest;
    DropParts(h, h', LiveSet(h), {}, held, x, order);
    hide Cascaded, DropClosed;
  }

  lemma DropKeeps(h: seq<Object>, h': seq<Object>, suspected: set<Ref>, held: multiset<Ref>, x: Ref, order: seq<Ref>)
    requires Consistent(h, suspected, held) && Dropped(h, h', LiveSet(h), {}, held, x, order)
    ensures Consistent(h', suspected, held - multiset{x})
  {
    hide Dropped, Accounts, Forest, Cascaded, DropClosed, Flagged, Acyclic, Settled;
    var C := LiveSet(h);
    DropParts(h, h', C, {}, held, x, order);
    DropFlagged(h, h', held, x, order);
    var h1 := h[x := h[x].(count := h[x].count - 1)];
    assert LiveSet(h1) == C && WaitingSet(h1) == WaitingSet(h);
    assert CandidateSet(h1) == CandidateSet(h) && PlainSet(h1) == PlainSet(h);
    CascadeSets(h1, h', C, {}, held - multiset{x}, order);
    AccountsWellFormed(h, C, {}, held);
    assert WellFormed(h1);
    ForestFrame(h, h1, WaitingSet(h));
    CascadeForest(h1, h', C, {}, held - multiset{x}, order, WaitingSet(h));
    forall o, y | o in PlainSet(h') && Points(h', o, y) ensures Points(h, o, y) {
      assert o !in Elems(order);
    }
    AcyclicShrink(h, h', PlainSet(h), PlainSet(h'));
  }

  /** Dropping a reference leaves alone whatever the remaining references reach. */
  lemma DropSafe(h: seq<Object>, h': seq<Object>, suspected: set<Ref>, held: multiset<Ref>, x: Ref, order: seq<Ref>)
    requires Consistent(h, suspected, held) && Dropped(h, h', LiveSet(h), {}, held, x, order)
    ensures var kept := Reach(h, HeldSet(held - multiset{x}));
            forall y :: y in kept ==> y !in order && h'[y] == h[y].(count := h'[y].count) && h'[y].count > 0
  {
    hide Accounts, Forest, Flagged, Acyclic, Settled, Cascaded, DropClosed, Grounded, Dropped;
    var C, held' := LiveSet(h), held - multiset{x};
    var kept := Reach(h, HeldSet(held'));
    LiveClosed(h, suspected, held);
    ReachLeast(h, HeldSet(held'), C);
    DropParts(h, h', C, {}, held, x, order);
    ZeroedUnreached(h, h', C, held, x, order);
  }

  ghost function HeldSet(held: multiset<Ref>): set<Ref> { set x | x in held }

  lemma ZeroedUnreached(h: seq<Object>, h': seq<Object>, C: set<Ref>, held: multiset<Ref>, x: Ref, order: seq<Ref>)
    requires Dropped(h, h', C, {}, held, x, order)
    requires Closed(h, C) && HeldSet(held) <= C
    ensures Reach(h, HeldSet(held - multiset{x})) !! Elems(order)
  {
    hide Accounts, Forest, Settled;
    var A := HeldSet(held - multiset{x});
    var kept := Reach(h, A);
    var h1 := h[x := h[x].(count := h[x].count - 1)];
    ReachClosed(h, A);
    ReachLeast(h, A, C);
    assert forall o, y :: Points(h1, o, y) <==> Points(h, o, y);
    forall y | y in C && (held - multiset{x})[y] == 0 && (forall o :: o in C && Points(h1, o, y) ==> o in C - kept)
      ensures y in C - kept
    {
      if y in kept {
        ReachPred(h, A, y);
      }
    }
    assert DropClosed(h1, C, {}, held - multiset{x}, C - kept);
    GroundedIsLeast(h1, C, {}, held - multiset{x}, order, C - kept);
  }

  /** A dead cell becomes a fresh object with one holder (src/heap/HeapAllocator.cpp:149-158). */
  function Fresh(fieldLength: nat, isCyclicType: bool): Object {
    Object(1, Live, false, isCyclicType, seq(fieldLength, _ => NULL))
  }

  lemma AllocAccounts(h: seq<Object>, C: set<Ref>, X: set<Ref>, ext: multiset<Ref>, x: Ref, n: nat, cyclic: bool)
    requires Accounts(h, C, X, ext) && IsRef(h, x) && x !in X && h[x].state == Dead
    ensures Accounts(h[x := Fresh(n, cyclic)], C + {x}, X, ext + multiset{x})
  {
    var h', ext' := h[x := Fresh(n, cyclic)], ext + multiset{x};
    assert x !in C;
    forall o | o in X ensures !Points(h', x, o) {}
    forall y | IsRef(h, y) ensures Slots(h', C + {x}, y) == Slots(h, C, y) {
      SlotsRemove(h', C + {x}, x, y);
      assert C + {x} - {x} == C;
      SlotsFrame(h, h', C, y);
    }
    forall o, y | o in C && Points(h', o, y) ensures Points(h, o, y) {}
  }

  lemma AllocKeeps(h: seq<Object>, suspected: set<Ref>, held: multiset<Ref>, x: Ref, n: nat, cyclic: bool)
    requires Consistent(h, suspected, held) && IsRef(h, x) && h[x].state == Dead
    ensures Consistent(h[x := Fresh(n, cyclic)], suspected, held + multiset{x})
  {
    hide Accounts, Forest, Acyclic;
    var h' := h[x := Fresh(n, cyclic)];
    AllocAccounts(h, LiveSet(h), {}, held, x, n, cyclic);
    assert LiveSet(h') == LiveSet(h) + {x} && WaitingSet(h') == WaitingSet(h) && CandidateSet(h') == CandidateSet(h);
    AccountsWellFormed(h, LiveSet(h), {}, held);
    ForestFrame(h, h', WaitingSet(h));
    DeadUnreferenced(h, suspected, held, x);
    AllocAcyclic(h, x, n, cyclic);
  }

  lemma DeadUnreferenced(h: seq<Object>, suspected: set<Ref>, held: multiset<Ref>, x: Ref)
    requires Consistent(h, suspected, held) && IsRef(h, x) && h[x].state == Dead
    ensures forall o :: o in LiveSet(h) ==> !Points(h, o, x)
  {
    SlotsZero(h, LiveSet(h), x);
  }

  lemma AllocAcyclic(h: seq<Object>, x: Ref, n: nat, cyclic: bool)
    requires Acyclic(h, PlainSet(h)) && IsRef(h, x) && (forall o :: o in LiveSet(h) ==> !Points(h, o, x))
    ensures Acyclic(h[x := Fresh(n, cyclic)], PlainSet(h[x := Fresh(n, cyclic)]))
  {
    var h' := h[x := Fresh(n, cyclic)];
    forall B: set<Ref> | B <= PlainSet(h') && B != {} ensures exists b :: b in B && NoneFrom(h', B, b) {
      if x in B {
        forall o | o in B - {x} ensures !Points(h, o, x) { assert o in LiveSet(h); }
        FreshNoneFrom(h, x, n, cyclic, B, x);
      } else {
        assert B <= PlainSet(h);
        var b :| b in B && NoneFrom(h, B, b);
        SameEdges(h, h', B, b);
      }
    }
  }

  /** A fresh object points to nothing. */
  lemma FreshNoneFrom(h: seq<Object>, x: Ref, n: nat, cyclic: bool, B: set<Ref>, b: Ref)
    requires IsRef(h, x) && NoneFrom(h, B - {x}, b)
    ensures NoneFrom(h[x := Fresh(n, cyclic)], B, b)
  {
    forall o | o in B ensures !Points(h[x := Fresh(n, cyclic)], o, b) {
      if o != x { assert o in B - {x} && !Points(h, o, b); }
    }
  }
}
