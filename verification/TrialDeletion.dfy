/** What one collection is entitled to release, as a function of memory.

    The collector decides from the fields and the counts alone (src/gc/GC.cpp:75-207). This
    module says which objects it must find, and proves that they are exactly the ones nothing
    outside can reach. */
module TrialDeletion {
  import opened Memory
  import opened RefCount
  import opened Consistency

  /** The root reaches itself in one or more steps. */
  ghost predicate OnCycle(h: seq<Object>, r: Ref) {
    exists o :: o in Reach(h, {r}) && Points(h, o, r)
  }

  /** Members of `S` with more references than those from within `S`. */
  ghost function External(h: seq<Object>, S: set<Ref>): set<Ref> {
    set x | x in S && IsRef(h, x) && h[x].count > Slots(h, S, x)
  }

  /** What `r` reaches, less everything reached from an object with an outside reference. */
  ghost function WhiteSet(h: seq<Object>, r: Ref): set<Ref> {
    Reach(h, {r}) - Reach(h, External(h, Reach(h, {r})))
  }

  ghost predicate AllWaiting(h: seq<Object>, S: set<Ref>) {
    forall x :: x in S && IsRef(h, x) ==> h[x].state == WaitingForGc
  }

  /** What processing the root `r` releases. */
  ghost function Verdict(h: seq<Object>, r: Ref): set<Ref> {
    if OnCycle(h, r) then WhiteSet(h, r)
    else if AllWaiting(h, Reach(h, {r})) then Reach(h, {r})
    else {}
  }

  /** What a collection that starts with these roots releases. */
  ghost function Condemned(h: seq<Object>, roots: set<Ref>): set<Ref> {
    set x | 0 <= x < |h| && IsCondemned(h, roots, x)
  }

  ghost predicate IsCondemned(h: seq<Object>, roots: set<Ref>, x: Ref) {
    exists r :: r in roots && x in Verdict(h, r)
  }

  // ------------------------------------------------------- sealed sets

  /** No thread holds a member of `W` and only members point to members. */
  ghost predicate Sealed(h: seq<Object>, C: set<Ref>, held: multiset<Ref>, W: set<Ref>) {
    && (forall x :: x in W ==> held[x] == 0)
    && (forall o, x :: o in C && x in W && Points(h, o, x) ==> o in W)
  }

  lemma SlotsMono(h: seq<Object>, C: set<Ref>, D: set<Ref>, x: Ref)
    requires D <= C
    ensures Slots(h, D, x) <= Slots(h, C, x)
  {
    SlotsSplit(h, C, D, x);
  }

  /** If all counted references to `x` come from `D`, they can be counted in any set between. */
  lemma SlotsWithin(h: seq<Object>, C: set<Ref>, D: set<Ref>, x: Ref)
    requires D <= C && IsRef(h, x)
    requires forall o :: o in C && Points(h, o, x) ==> o in D
    ensures Slots(h, C, x) == Slots(h, D, x)
  {
    SlotsSplit(h, C, D, x);
    SlotsZero(h, C - D, x);
  }

  lemma ReachLive(h: seq<Object>, suspected: set<Ref>, held: multiset<Ref>, r: Ref)
    requires Consistent(h, suspected, held) && r in LiveSet(h)
    ensures Reach(h, {r}) <= LiveSet(h) && r in Reach(h, {r}) && Closed(h, Reach(h, {r}))
  {
    hide Consistent;
    LiveClosed(h, suspected, held);
    ReachLeast(h, {r}, LiveSet(h));
    ReachClosed(h, {r});
  }

  /** The count of a live object. */
  lemma LiveCount(h: seq<Object>, suspected: set<Ref>, held: multiset<Ref>, x: Ref)
    requires Consistent(h, suspected, held) && x in LiveSet(h)
    ensures h[x].count == Slots(h, LiveSet(h), x) + held[x]
  {
    hide Forest, Acyclic, Flagged;
  }

  /** The white objects are sealed off. */
  lemma WhiteSealed(h: seq<Object>, suspected: set<Ref>, held: multiset<Ref>, r: Ref)
    requires Consistent(h, suspected, held) && r in LiveSet(h)
    ensures Sealed(h, LiveSet(h), held, WhiteSet(h, r))
    ensures WhiteSet(h, r) <= LiveSet(h)
  {
    hide Consistent;
    var C, S := LiveSet(h), Reach(h, {r});
    var E := External(h, S);
    ReachLive(h, suspected, held, r);
    ReachClosed(h, E);
    forall x | x in WhiteSet(h, r)
      ensures held[x] == 0 && forall o :: o in C && Points(h, o, x) ==> o in WhiteSet(h, r)
    {
      assert x !in E;
      LiveCount(h, suspected, held, x);
      SlotsSplit(h, C, S, x);
      SlotsZero(h, C - S, x);
      forall o | o in C && Points(h, o, x) ensures o in WhiteSet(h, r) {
        assert o !in C - S;
      }
    }
  }

  /** Nothing that could be freed from this root is missed. */
  lemma WhiteIsLargest(h: seq<Object>, suspected: set<Ref>, held: multiset<Ref>, r: Ref, W: set<Ref>)
    requires Consistent(h, suspected, held) && r in LiveSet(h)
    requires W <= Reach(h, {r}) && Sealed(h, LiveSet(h), held, W)
    ensures W <= WhiteSet(h, r)
  {
    hide Consistent;
    var C, S := LiveSet(h), Reach(h, {r});
    var E := External(h, S);
    ReachLive(h, suspected, held, r);
    forall x | x in W ensures x !in E {
      LiveCount(h, suspected, held, x);
      SlotsWithin(h, C, S, x);
    }
    forall o, x | o in S - W && Points(h, o, x) ensures x in S - W {}
    ReachLeast(h, E, S - W);
  }

  /** What threads can reach is never condemned through a cycle. */
  lemma SealedUnreached(h: seq<Object>, suspected: set<Ref>, held: multiset<Ref>, W: set<Ref>)
    requires Consistent(h, suspected, held) && Sealed(h, LiveSet(h), held, W)
    ensures W !! Reach(h, HeldSet(held))
  {
    hide Consistent;
    LiveClosed(h, suspected, held);
    var T := LiveSet(h) - W;
    forall o, x | o in T && Points(h, o, x) ensures x in T {}
    ReachLeast(h, HeldSet(held), T);
  }

  // ------------------------------------------------------- waiting trees

  /** A candidate that waits is the root of a tree of waiting objects and is not on a cycle. */
  lemma WaitingVerdict(h: seq<Object>, r: Ref)
    requires WellFormed(h) && Forest(h, WaitingSet(h)) && r in WaitingSet(h) && h[r].Candidate()
    ensures Verdict(h, r) == Reach(h, {r}) && r in Verdict(h, r) && Reach(h, {r}) <= WaitingSet(h)
  {
    var W := WaitingSet(h);
    ForestClosed(h, W);
    ReachLeast(h, {r}, W);
    ReachClosed(h, {r});
    forall o | o in Reach(h, {r}) ensures !Points(h, o, r) {
      assert o in W;
    }
  }

  /** One collection releases everything that waits. */
  lemma WaitingCondemned(h: seq<Object>, suspected: set<Ref>, held: multiset<Ref>)
    requires Consistent(h, suspected, held)
    ensures WaitingSet(h) <= Condemned(h, suspected)
  {
    hide Acyclic, Flagged;
    var W := WaitingSet(h);
    forall x | x in W ensures x in Condemned(h, suspected) {
      ReachUnion(h, Candidates(h, W), x);
      var r :| r in Candidates(h, W) && x in Reach(h, {r});
      WaitingVerdict(h, r);
      assert r in suspected && x in Verdict(h, r);
      assert IsCondemned(h, suspected, x);
    }
  }

  // ------------------------------------------------------------ progress

  /** Live objects no thread can reach. */
  ghost function Garbage(h: seq<Object>, held: multiset<Ref>): set<Ref> {
    LiveSet(h) - Reach(h, HeldSet(held))
  }

  /** The members of `G` that reach `x`. */
  ghost function Back(h: seq<Object>, G: set<Ref>, x: Ref): set<Ref> {
    set o | o in G && x in Reach(h, {o})
  }

  /** A member with the fewest members behind it. */
  lemma {:induction false} MinimalBack(h: seq<Object>, G: set<Ref>, H: set<Ref>) returns (g: Ref)
    requires H != {}
    ensures g in H && forall x :: x in H ==> |Back(h, G, g)| <= |Back(h, G, x)|
    decreases |H|
  {
    NonEmpty(H);
    var x :| x in H;
    if H - {x} == {} {
      assert forall y :: y in H ==> y == x || y in H - {x};
      g := x;
    } else {
      g := MinimalBack(h, G, H - {x});
      if |Back(h, G, x)| < |Back(h, G, g)| { g := x; }
    }
  }

  lemma SmallerSetIsEqual(A: set<Ref>, B: set<Ref>)
    requires A <= B && |B| <= |A|
    ensures A == B
  {
    assert A + (B - A) == B;
    assert |B - A| == 0;
    assert B - A == {};
    assert forall x :: x in B ==> x in A || x in B - A;
  }

  /** Every piece of garbage is referenced by garbage only, and by at least one piece. */
  lemma GarbageHasPredecessor(h: seq<Object>, suspected: set<Ref>, held: multiset<Ref>, g: Ref)
    requires Consistent(h, suspected, held) && g in Garbage(h, held)
    ensures exists o :: o in Garbage(h, held) && Points(h, o, g)
    ensures forall o :: o in LiveSet(h) && Points(h, o, g) ==> o in Garbage(h, held)
    ensures held[g] == 0
  {
    hide Consistent;
    ReachClosed(h, HeldSet(held));
    LiveClosed(h, suspected, held);
    LiveCount(h, suspected, held, g);
    LivePositive(h, suspected, held, g);
    SlotsZero(h, LiveSet(h), g);
  }

  lemma LivePositive(h: seq<Object>, suspected: set<Ref>, held: multiset<Ref>, x: Ref)
    requires Consistent(h, suspected, held) && x in LiveSet(h)
    ensures h[x].count > 0
  {
    hide Forest, Acyclic, Accounts;
  }

  /** A backward-minimal component of the garbage: strongly connected, and only its own members
      point to its members, at least one to each. */
  lemma MinimalComponent(h: seq<Object>, suspected: set<Ref>, held: multiset<Ref>) returns (g: Ref, B: set<Ref>)
    requires Consistent(h, suspected, held) && Garbage(h, held) != {}
    ensures g in B && B <= Garbage(h, held)
    ensures forall o, b :: o in LiveSet(h) && b in B && Points(h, o, b) ==> o in B
    ensures forall b :: b in B ==> !NoneFrom(h, B, b)
    ensures forall a, b :: a in B && b in B ==> b in Reach(h, {a})
  {
    hide Consistent, Reach, NoneFrom, Garbage;
    var G := Garbage(h, held);
    g := MinimalBack(h, G, G);
    B := Back(h, G, g);
    GarbageReaches(h, held, g);
    forall o, b | o in LiveSet(h) && b in B && Points(h, o, b) ensures o in B {
      GarbageHasPredecessor(h, suspected, held, b);
      ReachStep(h, o, b, g);
    }
    forall b | b in B ensures !NoneFrom(h, B, b) {
      GarbageHasPredecessor(h, suspected, held, b);
      GarbageReferenced(h, held, G, B, b);
    }
    forall a | a in B ensures a in Reach(h, {g}) {
      MinimalIsBehind(h, G, g, a);
    }
    forall a, b | a in B && b in B ensures b in Reach(h, {a}) {
      ReachTrans(h, a, g, b);
    }
  }

  lemma GarbageReaches(h: seq<Object>, held: multiset<Ref>, g: Ref)
    requires g in Garbage(h, held)
    ensures g in Reach(h, {g})
  {
    ReachClosed(h, {g});
  }

  lemma GarbageReferenced(h: seq<Object>, held: multiset<Ref>, G: set<Ref>, B: set<Ref>, b: Ref)
    requires exists o :: o in G && Points(h, o, b)
    requires G == Garbage(h, held) && b in B
    requires forall o, b :: o in LiveSet(h) && b in B && Points(h, o, b) ==> o in B
    ensures !NoneFrom(h, B, b)
  {
    hide Reach;
  }

  lemma MinimalIsBehind(h: seq<Object>, G: set<Ref>, g: Ref, a: Ref)
    requires g in G && g in Reach(h, {g}) && a in Back(h, G, g)
    requires forall x :: x in G ==> |Back(h, G, g)| <= |Back(h, G, x)|
    ensures a in Reach(h, {g})
  {
    hide Reach;
    forall o | o in Back(h, G, a) ensures o in Back(h, G, g) {
      ReachTrans(h, o, a, g);
    }
    SmallerSetIsEqual(Back(h, G, a), Back(h, G, g));
    assert g in Back(h, G, a);
  }

  lemma ReachTrans(h: seq<Object>, a: Ref, b: Ref, c: Ref)
    requires b in Reach(h, {a}) && c in Reach(h, {b})
    ensures c in Reach(h, {a})
  {
    ReachMono(h, {b}, {a});
  }

  lemma ReachStep(h: seq<Object>, o: Ref, b: Ref, c: Ref)
    requires Points(h, o, b) && c in Reach(h, {b})
    ensures c in Reach(h, {o})
  {
    ReachClosed(h, {o});
    ReachTrans(h, o, b, c);
  }

  /** With every cycle made of cyclic types: if some live object cannot be reached by any
      thread, a collection condemns something. */
  lemma Progress(h: seq<Object>, suspected: set<Ref>, held: multiset<Ref>)
    requires Consistent(h, suspected, held)
    requires forall x :: x in LiveSet(h) && OnCycle(h, x) ==> h[x].isCyclicType
    requires Garbage(h, held) != {}
    ensures Condemned(h, suspected) * LiveSet(h) != {}
  {
    hide Consistent, Reach, NoneFrom, OnCycle, WhiteSet;
    var g, B := MinimalComponent(h, suspected, held);
    forall b | b in B ensures OnCycle(h, b) {
      ComponentCycle(h, B, b);
    }
    var r := CandidateAmong(h, suspected, held, B);
    ReachLive(h, suspected, held, r);
    assert B <= Reach(h, {r});
    forall x | x in B ensures held[x] == 0 { GarbageHasPredecessor(h, suspected, held, x); }
    WhiteIsLargest(h, suspected, held, r, B);
    assert r in Verdict(h, r);
    assert IsCondemned(h, suspected, r);
  }

  lemma ComponentCycle(h: seq<Object>, B: set<Ref>, b: Ref)
    requires b in B && !NoneFrom(h, B, b) && (forall a :: a in B ==> a in Reach(h, {b}))
    ensures OnCycle(h, b)
  {
    hide Reach;
  }

  lemma CandidateAmong(h: seq<Object>, suspected: set<Ref>, held: multiset<Ref>, B: set<Ref>) returns (r: Ref)
    requires Consistent(h, suspected, held)
    requires B <= LiveSet(h) && B != {} && (forall b :: b in B ==> h[b].isCyclicType)
    requires forall b :: b in B ==> !NoneFrom(h, B, b)
    ensures r in B && r in suspected
  {
    hide Forest, Accounts, Flagged, NoneFrom;
    assert !(B <= PlainSet(h));
    r :| r in B && r !in PlainSet(h);
    assert r in CandidateSet(h);
  }
}
