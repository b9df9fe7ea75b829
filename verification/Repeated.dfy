/** Calling the collector again and again, as the loop at src/CatLa.cpp:298-311 does. */
module Repeated {
  import opened Memory
  import opened RefCount
  import opened Consistency
  import opened TrialDeletion
  import opened Collector

  /** Every cycle among live objects is made of cyclic types. */
  ghost predicate CyclesTyped(h: seq<Object>) {
    forall x :: x in LiveSet(h) && OnCycle(h, x) ==> h[x].isCyclicType
  }

  /** What a collection promises about what the threads reach. */
  ghost predicate Kept(h: seq<Object>, h': seq<Object>, held: multiset<Ref>) {
    |h'| == |h| && forall x :: x in Reach(h, HeldSet(held)) ==>
          h'[x].state == Live && h'[x] == h[x].(count := h'[x].count)
  }

  lemma LiveShrinks(h: seq<Object>, h': seq<Object>, X: set<Ref>, Z: set<Ref>)
    requires Collected(h, h', X, Z)
    ensures LiveSet(h') <= LiveSet(h) - X
    ensures forall x :: x in LiveSet(h') ==> h'[x].fields == h[x].fields && h'[x].isCyclicType == h[x].isCyclicType
  {
  }

  lemma CycleSurvives(h: seq<Object>, h': seq<Object>, suspected': set<Ref>, held: multiset<Ref>, X: set<Ref>,
                      Z: set<Ref>, x: Ref)
    requires Collected(h, h', X, Z) && Consistent(h', suspected', held) && x in LiveSet(h') && OnCycle(h', x)
    ensures OnCycle(h, x)
  {
    hide Collected, Consistent;
    LiveShrinks(h, h', X, Z);
    ReachLive(h', suspected', held, x);
    CollectedLength(h, h', X, Z);
    ReachFrame(h', h, {x});
    var o :| o in Reach(h', {x}) && Points(h', o, x);
    assert Points(h, o, x);
  }

  lemma CollectedLength(h: seq<Object>, h': seq<Object>, X: set<Ref>, Z: set<Ref>)
    requires Collected(h, h', X, Z)
    ensures |h| == |h'|
  {
  }

  lemma TypedSurvives(h: seq<Object>, h': seq<Object>, suspected': set<Ref>, held: multiset<Ref>, X: set<Ref>,
                      Z: set<Ref>)
    requires CyclesTyped(h) && Collected(h, h', X, Z) && Consistent(h', suspected', held)
    ensures CyclesTyped(h')
  {
    hide Collected, Consistent, OnCycle;
    LiveShrinks(h, h', X, Z);
    forall x | x in LiveSet(h') && OnCycle(h', x) ensures h'[x].isCyclicType {
      CycleSurvives(h, h', suspected', held, X, Z, x);
    }
  }

  /** While there is garbage, a collection leaves fewer live objects. */
  lemma GarbageShrinks(h: seq<Object>, h': seq<Object>, suspected: set<Ref>, held: multiset<Ref>, Z: set<Ref>)
    requires Consistent(h, suspected, held) && CyclesTyped(h) && Collected(h, h', Condemned(h, suspected), Z)
    requires Garbage(h, held) != {}
    ensures |LiveSet(h')| < |LiveSet(h)|
  {
    hide Collected, Consistent, Condemned, LiveSet, Garbage, OnCycle;
    var X := Condemned(h, suspected);
    Progress(h, suspected, held);
    NonEmpty(X * LiveSet(h));
    var x :| x in X * LiveSet(h);
    LiveShrinks(h, h', X, Z);
    Cardinality(LiveSet(h'), LiveSet(h), x);
  }

  lemma {:induction false} Cardinality(A: set<Ref>, B: set<Ref>, x: Ref)
    requires A <= B && x in B && x !in A
    ensures |A| < |B|
    decreases |A|
  {
    if A == {} {
      assert |B - {x}| == |B| - 1;
    } else {
      NonEmpty(A);
      var y :| y in A;
      Cardinality(A - {y}, B - {y}, x);
    }
  }

  /** Without garbage, a collection clears what waits and creates none of either. */
  lemma CleanStaysClean(h: seq<Object>, h': seq<Object>, suspected: set<Ref>, held: multiset<Ref>, Z: set<Ref>)
    requires Consistent(h, suspected, held) && Collected(h, h', Condemned(h, suspected), Z) && Kept(h, h', held)
    requires Garbage(h, held) == {}
    ensures Garbage(h', held) == {} && WaitingSet(h') == {}
  {
    hide Consistent, Condemned, Reach;
    var X, K := Condemned(h, suspected), Reach(h, HeldSet(held));
    WaitingCondemned(h, suspected, held);
    ReachAll(h, h', held);
    forall x | x in LiveSet(h) ensures x in K { assert x in LiveSet(h) - K <==> x in Garbage(h, held); }
    LiveShrinks(h, h', X, Z);
    forall x | x in LiveSet(h') ensures x in Reach(h', HeldSet(held)) {}
    assert forall x :: x in Garbage(h', held) <==> x in {};
    forall x ensures x in WaitingSet(h') <==> x in {} {
      if IsRef(h, x) && h'[x].state == WaitingForGc {
        assert x !in K;
        assert x !in LiveSet(h) && x !in Z;
      }
    }
  }

  lemma ReachAll(h: seq<Object>, h': seq<Object>, held: multiset<Ref>)
    requires Kept(h, h', held)
    ensures Reach(h', HeldSet(held)) == Reach(h, HeldSet(held))
  {
    ReachFrame(h, h', HeldSet(held));
  }

  /** With no thread running, collecting more often than there are live objects leaves only
      objects that some thread can reach. */
  method CollectRepeatedly(heap: Heap, collector: CycleCollector, times: nat)
    requires Consistent(heap.objs, collector.suspected, heap.held) && heap.locked == {}
    requires CyclesTyped(heap.objs)
    modifies heap`objs, heap`locked, collector
    ensures Consistent(heap.objs, collector.suspected, heap.held) && heap.locked == {}
    ensures times > |LiveSet(old(heap.objs))| ==>
              forall x :: IsRef(heap.objs, x) && heap.objs[x].state != Dead ==>
                    x in Reach(heap.objs, HeldSet(heap.held))
  {
    hide Consistent, CyclesTyped, Garbage, LiveSet, WaitingSet, Reach, Collected;
    ghost var n := |LiveSet(heap.objs)|;
    var k := 0;
    while k < times
      invariant k <= times
      invariant Consistent(heap.objs, collector.suspected, heap.held) && heap.locked == {} && CyclesTyped(heap.objs)
      invariant Garbage(heap.objs, heap.held) != {} ==> |LiveSet(heap.objs)| + k <= n
      invariant Garbage(heap.objs, heap.held) == {} ==> k <= n || WaitingSet(heap.objs) == {}
    {
      ghost var h, suspected := heap.objs, collector.suspected;
      ghost var Z := GcCollect(heap, collector);
      TypedSurvives(h, heap.objs, collector.suspected, heap.held, Condemned(h, suspected), Z);
      if Garbage(h, heap.held) != {} {
        GarbageShrinks(h, heap.objs, suspected, heap.held, Z);
      } else {
        CollectedLength(h, heap.objs, Condemned(h, suspected), Z);
        CleanStaysClean(h, heap.objs, suspected, heap.held, Z);
      }
      k := k + 1;
    }
    if times > n {
      AllReached(heap.objs, collector.suspected, heap.held);
    }
  }

  lemma AllReached(h: seq<Object>, suspected: set<Ref>, held: multiset<Ref>)
    requires Consistent(h, suspected, held) && Garbage(h, held) == {} && WaitingSet(h) == {}
    ensures forall x :: IsRef(h, x) && h[x].state != Dead ==> x in Reach(h, HeldSet(held))
  {
    hide Accounts, Forest, Acyclic, Reach;
    forall x | IsRef(h, x) && h[x].state != Dead ensures x in Reach(h, HeldSet(held)) {
      assert x !in WaitingSet(h) && x !in Garbage(h, held);
      assert x in LiveSet(h);
    }
  }
}
