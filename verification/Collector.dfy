/** The cycle collector: src/gc/GC.cpp.

    One method per phase of `gc_collect`; `GcCollect` is the whole of it. No other thread runs
    while these methods do; the module Protocol treats interleavings. */
module Collector {
  import opened Memory
  import opened RefCount
  import opened Consistency
  import opened TrialDeletion

  datatype Color = Red | Gray | White | Black

  // ---------------------------------------------------- tracing a graph

  /** A traversal from `root`: `done` are the visited objects, `todo` the known ones still to be
      visited. Of the last visited object `o`, only the first `n` fields have been looked at. */
  ghost predicate Tracing(h: seq<Object>, root: Ref, seen: set<Ref>, done: seq<Ref>, todo: seq<Ref>, o: Ref, n: nat) {
    && NoDup(done + todo)
    && seen == Elems(done + todo) && root in seen
    && seen <= Reach(h, {root})
    && (forall p :: p in done ==> IsRef(h, p))
    && (forall p, i :: p in done && 0 <= i < |h[p].fields| && (p == o ==> i < n) && h[p].fields[i] != NULL ==>
          h[p].fields[i] in seen)
  }

  lemma TracingStart(h: seq<Object>, root: Ref)
    requires IsRef(h, root)
    ensures Tracing(h, root, {root}, [], [root], NULL, 0)
  {
    ReachClosed(h, {root});
  }

  lemma TracingVisit(h: seq<Object>, root: Ref, seen: set<Ref>, done: seq<Ref>, todo: seq<Ref>, o: Ref)
    requires Tracing(h, root, seen, done, todo + [o], NULL, 0)
    ensures IsRef(h, o) && o !in done && o in Reach(h, {root})
    ensures Tracing(h, root, seen, done + [o], todo, o, 0)
  {
    var before, after := done + (todo + [o]), done + [o] + todo;
    assert before[|before| - 1] == o;
    assert o in before && o in seen;
    var k := |done|;
    assert forall i :: 0 <= i < k ==> after[i] == before[i];
    assert forall i :: k < i < |after| ==> after[i] == before[i - 1];
    assert forall x :: x in after <==> x in before;
    forall i | 0 <= i < k ensures done[i] != o { assert before[i] == done[i]; }
  }

  /** The field looked at is null or known already. */
  lemma TracingKnown(h: seq<Object>, root: Ref, seen: set<Ref>, done: seq<Ref>, todo: seq<Ref>, o: Ref, n: nat)
    requires Tracing(h, root, seen, done, todo, o, n)
    requires IsRef(h, o) && n < |h[o].fields| && (h[o].fields[n] == NULL || h[o].fields[n] in seen)
    ensures Tracing(h, root, seen, done, todo, o, n + 1)
  {
    hide Reach;
  }

  /** The field looked at is new. */
  lemma TracingNew(h: seq<Object>, root: Ref, seen: set<Ref>, done: seq<Ref>, todo: seq<Ref>, o: Ref, n: nat)
    requires Tracing(h, root, seen, done, todo, o, n) && WellFormed(h)
    requires IsRef(h, o) && n < |h[o].fields| && h[o].fields[n] != NULL && h[o].fields[n] !in seen && o in done
    ensures Tracing(h, root, seen + {h[o].fields[n]}, done, todo + [h[o].fields[n]], o, n + 1)
  {
    hide Reach;
    var f := h[o].fields[n];
    assert Points(h, o, f);
    ReachClosed(h, {root});
    var before, after := done + todo, done + (todo + [f]);
    assert after == before + [f];
    assert o in seen by { assert o in before; }
    assert f !in before;
  }

  lemma TracingNext(h: seq<Object>, root: Ref, seen: set<Ref>, done: seq<Ref>, todo: seq<Ref>, o: Ref)
    requires IsRef(h, o) && Tracing(h, root, seen, done, todo, o, |h[o].fields|)
    ensures Tracing(h, root, seen, done, todo, NULL, 0)
  {
    hide Reach;
  }

  lemma TracingEnd(h: seq<Object>, root: Ref, seen: set<Ref>, done: seq<Ref>)
    requires Tracing(h, root, seen, done, [], NULL, 0)
    ensures NoDup(done) && Elems(done) == Reach(h, {root}) == seen
  {
    assert done + [] == done;
    forall o, x | o in seen && Points(h, o, x) ensures x in seen {
      var i :| 0 <= i < |h[o].fields| && h[o].fields[i] == x;
    }
    ReachLeast(h, {root}, seen);
  }

  // ---------------------------------------------------------- lock phase

  ghost predicate PointedFrom(h: seq<Object>, done: seq<Ref>, root: Ref, o: Ref, n: nat) {
    exists p, i :: p in done && IsRef(h, p) && 0 <= i < |h[p].fields| && (p == o ==> i < n) && h[p].fields[i] == root
  }

  lemma PointedIsOnCycle(h: seq<Object>, root: Ref, done: seq<Ref>)
    requires IsRef(h, root) && Elems(done) == Reach(h, {root})
    ensures PointedFrom(h, done, root, NULL, 0) <==> OnCycle(h, root)
  {
    hide Reach;
    if OnCycle(h, root) {
      var p :| p in Reach(h, {root}) && Points(h, p, root);
      assert p in Elems(done);
      var i :| 0 <= i < |h[p].fields| && h[p].fields[i] == root;
      assert PointedFrom(h, done, root, NULL, 0);
    }
    if PointedFrom(h, done, root, NULL, 0) {
      var p, i :| p in done && IsRef(h, p) && 0 <= i < |h[p].fields| && h[p].fields[i] == root;
      assert p in Elems(done) && Points(h, p, root);
    }
  }

  /** Mark red (src/gc/GC.cpp:39-72): every object the root reaches is locked, once each. */
  method LockPhase(heap: Heap, root: Ref) returns (colors: map<Ref, Color>, cycleObjects: seq<Ref>, isCyclicRoot: bool)
    requires WellFormed(heap.objs) && IsRef(heap.objs, root)
    requires heap.locked !! Reach(heap.objs, {root})
    modifies heap`locked
    ensures NoDup(cycleObjects) && Elems(cycleObjects) == Reach(heap.objs, {root})
    ensures colors.Keys == Reach(heap.objs, {root}) && forall x :: x in colors ==> colors[x] == Red
    ensures heap.locked == old(heap.locked) + Reach(heap.objs, {root})
    ensures isCyclicRoot <==> OnCycle(heap.objs, root)
  {
    hide Reach, Tracing, WellFormed, OnCycle, NoDup;
    ghost var h := heap.objs;
    colors, cycleObjects, isCyclicRoot := map[root := Red], [], false;
    var checkObjects: seq<Ref> := [];
    var currentObject := root;
    TracingStart(h, root);
    assert colors.Keys == {root} && checkObjects + [currentObject] == [root];
    while true
      invariant Tracing(h, root, colors.Keys, cycleObjects, checkObjects + [currentObject], NULL, 0)
      invariant forall x :: x in colors ==> colors[x] == Red
      invariant heap.locked == old(heap.locked) + Elems(cycleObjects)
      invariant isCyclicRoot <==> PointedFrom(h, cycleObjects, root, NULL, 0)
      decreases Reach(h, {root}) - Elems(cycleObjects)
    {
      TracingVisit(h, root, colors.Keys, cycleObjects, checkObjects, currentObject);
      ghost var before := cycleObjects;
      Lock(heap, currentObject);
      cycleObjects := cycleObjects + [currentObject];
      assert Elems(cycleObjects) == Elems(before) + {currentObject};
      PointedVisit(h, before, root, currentObject);
      var i := 0;
      while i < |heap.objs[currentObject].fields|
        invariant 0 <= i <= |h[currentObject].fields|
        invariant heap.locked == old(heap.locked) + Elems(cycleObjects)
        invariant Tracing(h, root, colors.Keys, cycleObjects, checkObjects, currentObject, i)
        invariant forall x :: x in colors ==> colors[x] == Red
        invariant isCyclicRoot <==> PointedFrom(h, cycleObjects, root, currentObject, i)
      {
        var f := heap.objs[currentObject].fields[i];
        PointedNext(h, cycleObjects, root, currentObject, i);
        TracingRoot(h, root, colors.Keys, cycleObjects, checkObjects, currentObject, i);
        if f != NULL {
          if f !in colors {
            TracingNew(h, root, colors.Keys, cycleObjects, checkObjects, currentObject, i);
            assert colors[f := Red].Keys == colors.Keys + {f};
            colors := colors[f := Red];
            checkObjects := checkObjects + [f];
          } else {
            TracingKnown(h, root, colors.Keys, cycleObjects, checkObjects, currentObject, i);
            if f == root {
              isCyclicRoot := true;
            }
          }
        } else {
          TracingKnown(h, root, colors.Keys, cycleObjects, checkObjects, currentObject, i);
        }
        i := i + 1;
      }
      TracingNext(h, root, colors.Keys, cycleObjects, checkObjects, currentObject);
      PointedDone(h, cycleObjects, root, currentObject);
      if checkObjects == [] {
        break;
      }
      currentObject := checkObjects[|checkObjects| - 1];
      assert checkObjects == checkObjects[..|checkObjects| - 1] + [currentObject];
      checkObjects := checkObjects[..|checkObjects| - 1];
    }
    TracingEnd(h, root, colors.Keys, cycleObjects);
    PointedIsOnCycle(h, root, cycleObjects);
  }

  lemma TracingRoot(h: seq<Object>, root: Ref, seen: set<Ref>, done: seq<Ref>, todo: seq<Ref>, o: Ref, n: nat)
    requires Tracing(h, root, seen, done, todo, o, n)
    ensures root in seen
  {
  }

  lemma PointedVisit(h: seq<Object>, done: seq<Ref>, root: Ref, o: Ref)
    requires o !in done
    ensures PointedFrom(h, done + [o], root, o, 0) <==> PointedFrom(h, done, root, NULL, 0)
  {
    if PointedFrom(h, done, root, NULL, 0) {
      var p, i :| p in done && IsRef(h, p) && 0 <= i < |h[p].fields| && h[p].fields[i] == root;
      assert p in done + [o];
      assert PointedFrom(h, done + [o], root, o, 0);
    }
  }

  lemma PointedNext(h: seq<Object>, done: seq<Ref>, root: Ref, o: Ref, n: nat)
    requires o in done && IsRef(h, o) && n < |h[o].fields|
    ensures PointedFrom(h, done, root, o, n + 1) <==> PointedFrom(h, done, root, o, n) || h[o].fields[n] == root
  {
    if PointedFrom(h, done, root, o, n) {
      var p, i :| p in done && IsRef(h, p) && 0 <= i < |h[p].fields| && (p == o ==> i < n) && h[p].fields[i] == root;
      assert PointedFrom(h, done, root, o, n + 1);
    }
    if h[o].fields[n] == root {
      assert PointedFrom(h, done, root, o, n + 1);
    }
  }

  lemma PointedDone(h: seq<Object>, done: seq<Ref>, root: Ref, o: Ref)
    requires IsRef(h, o)
    ensures PointedFrom(h, done, root, o, |h[o].fields|) <==> PointedFrom(h, done, root, NULL, 0)
  {
  }

  /** `object_lock` (src/heap/HeapAllocator.h:25-29). Alone, a thread would spin forever on a
      flag that is set. */
  method Lock(heap: Heap, x: Ref)
    requires x !in heap.locked
    modifies heap`locked
    ensures heap.locked == old(heap.locked) + {x}
  {
    heap.locked := heap.locked + {x};
  }

  /** `object_unlock` on every listed object (src/gc/GC.cpp:168-170 and 172-174). */
  method UnlockAll(heap: Heap, list: seq<Ref>)
    modifies heap`locked
    ensures heap.locked == old(heap.locked) - Elems(list)
  {
    for k := 0 to |list|
      invariant heap.locked == old(heap.locked) - Elems(list[..k])
    {
      heap.locked := heap.locked - {list[k]};
      assert list[..k + 1] == list[..k] + [list[k]];
      assert Elems(list[..k + 1]) == Elems(list[..k]) + {list[k]};
    }
    assert list[..|list|] == list;
  }

  // ---------------------------------------------------------- gray phase

  /** `counts` holds, for every known object, its references less those in fields of `P` and in
      the first `n` fields of `o`. */
  ghost predicate Tally(h: seq<Object>, counts: map<Ref, nat>, P: set<Ref>, o: Ref, n: nat) {
    && IsRef(h, o) && n <= |h[o].fields| && o !in P
    && forall x :: x in counts ==>
         IsRef(h, x) && counts[x] + Slots(h, P, x) + multiset(h[o].fields[..n])[x] == h[x].count
  }

  lemma NextPrefix(fields: seq<Ref>, n: nat)
    requires n < |fields|
    ensures multiset(fields[..n + 1]) == multiset(fields[..n]) + multiset{fields[n]}
  {
    assert fields[..n + 1] == fields[..n] + [fields[n]];
  }

  lemma PrefixBound(fields: seq<Ref>, n: nat, x: Ref)
    requires n <= |fields|
    ensures multiset(fields[..n])[x] <= multiset(fields)[x]
  {
    assert fields == fields[..n] + fields[n..];
  }

  /** A known field has a positive entry left to subtract from. */
  lemma TallyKnown(h: seq<Object>, counts: map<Ref, nat>, S: set<Ref>, P: set<Ref>, o: Ref, n: nat)
    requires Tally(h, counts, P, o, n) && n < |h[o].fields|
    requires P + {o} <= S && (forall x :: x in S && IsRef(h, x) ==> Slots(h, S, x) <= h[x].count)
    requires counts.Keys <= S && h[o].fields[n] in counts
    ensures var f := h[o].fields[n]; counts[f] > 0 && Tally(h, counts[f := counts[f] - 1], P, o, n + 1)
  {
    var f := h[o].fields[n];
    NextPrefix(h[o].fields, n);
    PrefixBound(h[o].fields, n + 1, f);
    SlotsRemove(h, P + {o}, o, f);
    assert P + {o} - {o} == P;
    SlotsMono(h, S, P + {o}, f);
  }

  lemma TallyNull(h: seq<Object>, counts: map<Ref, nat>, P: set<Ref>, o: Ref, n: nat)
    requires Tally(h, counts, P, o, n) && n < |h[o].fields| && h[o].fields[n] == NULL
    ensures Tally(h, counts, P, o, n + 1)
  {
    NextPrefix(h[o].fields, n);
  }

  /** A new field has no references subtracted yet, so one is left to subtract. */
  lemma TallyNew(h: seq<Object>, counts: map<Ref, nat>, root: Ref, S: set<Ref>, done: seq<Ref>, todo: seq<Ref>,
                 P: set<Ref>, o: Ref, n: nat)
    requires Tally(h, counts, P, o, n) && n < |h[o].fields| && IsRef(h, h[o].fields[n])
    requires Tracing(h, root, counts.Keys, done, todo, o, n) && P + {o} == Elems(done) && P + {o} <= S
    requires forall x :: x in S && IsRef(h, x) ==> Slots(h, S, x) <= h[x].count
    requires h[o].fields[n] !in counts && h[o].fields[n] in S
    ensures var f := h[o].fields[n]; h[f].count > 0 && Tally(h, counts[f := h[f].count - 1], P, o, n + 1)
  {
    hide Reach;
    var f := h[o].fields[n];
    NextPrefix(h[o].fields, n);
    PrefixBound(h[o].fields, n + 1, f);
    SlotsRemove(h, P + {o}, o, f);
    assert P + {o} - {o} == P;
    SlotsMono(h, S, P + {o}, f);
    assert f !in h[o].fields[..n];
    forall p | p in P ensures !Points(h, p, f) {
      assert p in done;
    }
    SlotsZero(h, P, f);
  }

  lemma TallyVisit(h: seq<Object>, counts: map<Ref, nat>, P: set<Ref>, o: Ref)
    requires IsRef(h, o) && o !in P
    requires forall x :: x in counts ==> IsRef(h, x) && counts[x] + Slots(h, P, x) == h[x].count
    ensures Tally(h, counts, P, o, 0)
  {
    assert h[o].fields[..0] == [];
  }

  lemma TallyDone(h: seq<Object>, counts: map<Ref, nat>, P: set<Ref>, o: Ref)
    requires IsRef(h, o) && Tally(h, counts, P, o, |h[o].fields|)
    ensures forall x :: x in counts ==> IsRef(h, x) && counts[x] + Slots(h, P + {o}, x) == h[x].count
  {
    assert h[o].fields[..|h[o].fields|] == h[o].fields;
    forall x | x in counts ensures counts[x] + Slots(h, P + {o}, x) == h[x].count {
      SlotsRemove(h, P + {o}, o, x);
      assert P + {o} - {o} == P;
    }
  }

  lemma ReachField(h: seq<Object>, root: Ref, o: Ref, n: nat)
    requires WellFormed(h) && o in Reach(h, {root}) && n < |h[o].fields| && h[o].fields[n] != NULL
    ensures IsRef(h, h[o].fields[n]) && h[o].fields[n] in Reach(h, {root})
  {
    ReachClosed(h, {root});
    assert Points(h, o, h[o].fields[n]);
  }

  /** Mark gray (src/gc/GC.cpp:75-111): internal references are subtracted. */
  method GrayPhase(heap: Heap, root: Ref, colors0: map<Ref, Color>)
    returns (colors: map<Ref, Color>, counts: map<Ref, nat>)
    requires WellFormed(heap.objs) && IsRef(heap.objs, root)
    requires colors0.Keys == Reach(heap.objs, {root}) && forall x :: x in colors0 ==> colors0[x] == Red
    requires forall x :: x in Reach(heap.objs, {root}) ==>
          Slots(heap.objs, Reach(heap.objs, {root}), x) <= heap.objs[x].count
    ensures colors.Keys == Reach(heap.objs, {root}) && forall x :: x in colors ==> colors[x] == Gray
    ensures counts.Keys == Reach(heap.objs, {root})
    ensures forall x :: x in counts ==>
          IsRef(heap.objs, x) && counts[x] == heap.objs[x].count - Slots(heap.objs, Reach(heap.objs, {root}), x)
  {
    hide Reach, Tracing, WellFormed, Tally, NoDup, Slots, GrayAreCounted;
    ghost var h := heap.objs;
    ghost var S := Reach(h, {root});
    RootReached(h, root);
    var checkObjects: seq<Ref> := [];
    ghost var done: seq<Ref> := [];
    counts := map[root := heap.objs[root].count];
    colors := colors0[root := Gray];
    var currentObject := root;
    TracingStart(h, root);
    GrayStart(colors0, root, heap.objs[root].count, S);
    assert counts.Keys == {root} && checkObjects + [currentObject] == [root];
    SlotsEmpty(h, root);
    assert Elems(done) == {};
    while true
      invariant Tracing(h, root, counts.Keys, done, checkObjects + [currentObject], NULL, 0)
      invariant GrayAreCounted(colors, counts, S)
      invariant forall x :: x in counts ==> IsRef(h, x) && counts[x] + Slots(h, Elems(done), x) == h[x].count
      decreases S - Elems(done)
    {
      TracingVisit(h, root, counts.Keys, done, checkObjects, currentObject);
      ghost var P := Elems(done);
      TallyVisit(h, counts, P, currentObject);
      TracingSeen(h, root, counts.Keys, done + [currentObject], checkObjects, currentObject, 0);
      done := done + [currentObject];
      assert Elems(done) == P + {currentObject};
      var i := 0;
      while i < |heap.objs[currentObject].fields|
        invariant 0 <= i <= |h[currentObject].fields|
        invariant Tracing(h, root, counts.Keys, done, checkObjects, currentObject, i)
        invariant GrayAreCounted(colors, counts, S)
        invariant Tally(h, counts, P, currentObject, i)
      {
        var f := heap.objs[currentObject].fields[i];
        TracingSeen(h, root, counts.Keys, done, checkObjects, currentObject, i);
        if f != NULL {
          ReachField(h, root, currentObject, i);
          GrayFacts(colors, counts, S, f);
          if colors[f] == Gray {
            TallyKnown(h, counts, S, P, currentObject, i);
            TracingKnown(h, root, counts.Keys, done, checkObjects, currentObject, i);
            var previous := counts[f];
            assert counts[f := previous - 1].Keys == counts.Keys;
            GrayCount(colors, counts, S, f, previous - 1);
            if previous > 0 {
              counts := counts[f := previous - 1];
            }
          } else {
            TallyNew(h, counts, root, S, done, checkObjects, P, currentObject, i);
            TracingNew(h, root, counts.Keys, done, checkObjects, currentObject, i);
            GrayCount(colors, counts, S, f, heap.objs[f].count - 1);
            colors := colors[f := Gray];
            checkObjects := checkObjects + [f];
            assert counts[f := heap.objs[f].count - 1].Keys == counts.Keys + {f};
            counts := counts[f := heap.objs[f].count - 1];
          }
        } else {
          TallyNull(h, counts, P, currentObject, i);
          TracingKnown(h, root, counts.Keys, done, checkObjects, currentObject, i);
        }
        i := i + 1;
      }
      TracingNext(h, root, counts.Keys, done, checkObjects, currentObject);
      TallyDone(h, counts, P, currentObject);
      if checkObjects == [] {
        break;
      }
      currentObject := checkObjects[|checkObjects| - 1];
      assert checkObjects == checkObjects[..|checkObjects| - 1] + [currentObject];
      checkObjects := checkObjects[..|checkObjects| - 1];
    }
    TracingEnd(h, root, counts.Keys, done);
    GrayEnd(colors, counts, S);
  }

  ghost predicate GrayAreCounted(colors: map<Ref, Color>, counts: map<Ref, nat>, S: set<Ref>) {
    colors.Keys == S && counts.Keys <= S && forall x :: x in colors ==> colors[x] == if x in counts then Gray else Red
  }

  lemma GrayStart(colors: map<Ref, Color>, root: Ref, c: nat, S: set<Ref>)
    requires colors.Keys == S && root in S && forall x :: x in colors ==> colors[x] == Red
    ensures GrayAreCounted(colors[root := Gray], map[root := c], S)
  {
  }

  lemma GrayFacts(colors: map<Ref, Color>, counts: map<Ref, nat>, S: set<Ref>, f: Ref)
    requires GrayAreCounted(colors, counts, S) && f in S
    ensures f in colors && counts.Keys <= S && (colors[f] == Gray <==> f in counts)
  {
  }

  lemma GrayCount(colors: map<Ref, Color>, counts: map<Ref, nat>, S: set<Ref>, f: Ref, c: nat)
    requires GrayAreCounted(colors, counts, S) && f in S
    ensures GrayAreCounted(if f in counts then colors else colors[f := Gray], counts[f := c], S)
  {
  }

  lemma GrayEnd(colors: map<Ref, Color>, counts: map<Ref, nat>, S: set<Ref>)
    requires GrayAreCounted(colors, counts, S) && counts.Keys == S
    ensures colors.Keys == S && forall x :: x in colors ==> colors[x] == Gray
  {
  }

  lemma RootReached(h: seq<Object>, root: Ref)
    requires IsRef(h, root)
    ensures root in Reach(h, {root})
  {
    ReachClosed(h, {root});
  }

  lemma SlotsEmpty(h: seq<Object>, x: Ref)
    requires IsRef(h, x)
    ensures Slots(h, {}, x) == 0
  {
    SlotsZero(h, {}, x);
  }

  lemma TracingSeen(h: seq<Object>, root: Ref, seen: set<Ref>, done: seq<Ref>, todo: seq<Ref>, o: Ref, n: nat)
    requires Tracing(h, root, seen, done, todo, o, n)
    ensures seen <= Reach(h, {root}) && Elems(done) <= seen
  {
    hide Reach;
    forall x | x in done ensures x in seen { assert x in done + todo; }
  }

  // ----------------------------------------------------- white or black

  /** The first `n` fields of `x` have been painted as the color of `x` asks for. */
  ghost predicate Covered(h: seq<Object>, colors: map<Ref, Color>, x: Ref, n: nat) {
    && IsRef(h, x) && x in colors
    && forall i :: 0 <= i < n && i < |h[x].fields| && h[x].fields[i] != NULL ==>
         && h[x].fields[i] in colors
         && (colors[x] == White ==> colors[h[x].fields[i]] != Gray)
         && (colors[x] == Black ==> colors[h[x].fields[i]] == Black)
  }

  /** Painting in progress. `outside` holds the references of each object from outside the
      traced set, as the gray phase left them; `counts` may exceed it, for black objects only. */
  ghost predicate Painting(h: seq<Object>, root: Ref, outside: map<Ref, nat>, colors: map<Ref, Color>,
                           counts: map<Ref, nat>, todo: seq<Ref>, o: Ref, n: nat) {
    && colors.Keys == counts.Keys == outside.Keys == Reach(h, {root})
    && root in colors && colors[root] != Gray
    && (forall x :: x in colors ==> colors[x] != Red)
    && (forall x :: x in colors && colors[x] == Gray ==> counts[x] == outside[x])
    && (forall x :: x in colors && colors[x] == White ==> counts[x] == outside[x] == 0)
    && (forall x :: x in colors && colors[x] == Black ==> x in Reach(h, Outer(outside)))
    && (forall x :: x in todo ==> x in colors && colors[x] != Gray)
    && (forall x :: x in colors && colors[x] != Gray && x !in todo && x != o ==>
          IsRef(h, x) && Covered(h, colors, x, |h[x].fields|))
    && (o != NULL ==> o in colors && colors[o] != Gray && Covered(h, colors, o, n))
  }

  ghost function Outer(outside: map<Ref, nat>): set<Ref> { set x | x in outside && outside[x] > 0 }

  ghost function Painted(colors: map<Ref, Color>, c: Color): set<Ref> { set x | x in colors && colors[x] == c }

  /** How many pushes are left: two for a gray object, one for a white one. */
  ghost function PushesLeft(colors: map<Ref, Color>): nat {
    2 * |Painted(colors, Gray)| + |Painted(colors, White)|
  }

  lemma PushGray(colors: map<Ref, Color>, f: Ref, c: Color)
    requires f in colors && colors[f] == Gray && (c == White || c == Black)
    ensures PushesLeft(colors[f := c]) < PushesLeft(colors)
  {
    assert Painted(colors[f := c], Gray) == Painted(colors, Gray) - {f};
    if c == White {
      assert Painted(colors[f := c], White) == Painted(colors, White) + {f};
    } else {
      assert Painted(colors[f := c], White) == Painted(colors, White);
    }
  }

  lemma PushWhite(colors: map<Ref, Color>, f: Ref)
    requires f in colors && colors[f] == White
    ensures PushesLeft(colors[f := Black]) < PushesLeft(colors)
  {
    assert Painted(colors[f := Black], Gray) == Painted(colors, Gray);
    assert Painted(colors[f := Black], White) == Painted(colors, White) - {f};
  }

  /** The next field needs no paint. */
  lemma PaintSkip(h: seq<Object>, root: Ref, outside: map<Ref, nat>, colors: map<Ref, Color>, counts: map<Ref, nat>,
                  todo: seq<Ref>, o: Ref, n: nat)
    requires Painting(h, root, outside, colors, counts, todo, o, n) && IsRef(h, o) && n < |h[o].fields|
    requires var f := h[o].fields[n];
             f == NULL || (f in colors && colors[f] != Gray && (colors[o] == Black ==> colors[f] == Black))
    ensures Painting(h, root, outside, colors, counts, todo, o, n + 1)
  {
    hide Reach, Outer;
  }

  /** A count changes that no longer matters. */
  lemma PaintCount(h: seq<Object>, root: Ref, outside: map<Ref, nat>, colors: map<Ref, Color>, counts: map<Ref, nat>,
                   todo: seq<Ref>, o: Ref, n: nat, f: Ref, c: nat)
    requires Painting(h, root, outside, colors, counts, todo, o, n) && f in colors && colors[f] == Black
    ensures Painting(h, root, outside, colors, counts[f := c], todo, o, n)
  {
    hide Reach, Outer;
    assert counts[f := c].Keys == counts.Keys;
  }

  lemma PaintWhite(h: seq<Object>, root: Ref, outside: map<Ref, nat>, colors: map<Ref, Color>, counts: map<Ref, nat>,
                   todo: seq<Ref>, o: Ref, n: nat, f: Ref)
    requires Painting(h, root, outside, colors, counts, todo, o, n)
    requires f in colors && colors[f] == Gray && counts[f] == 0
    ensures Painting(h, root, outside, colors[f := White], counts, todo + [f], o, n)
  {
    hide Reach, Outer;
    assert colors[f := White].Keys == colors.Keys;
  }

  lemma PaintBlack(h: seq<Object>, root: Ref, outside: map<Ref, nat>, colors: map<Ref, Color>, counts: map<Ref, nat>,
                   todo: seq<Ref>, o: Ref, n: nat, f: Ref, c: nat)
    requires Painting(h, root, outside, colors, counts, todo, o, n)
    requires f in colors && colors[f] != Black && f in Reach(h, Outer(outside)) && f != o
    ensures Painting(h, root, outside, colors[f := Black], counts[f := c], todo + [f], o, n)
  {
    hide Reach, Outer, Covered;
    var colors' := colors[f := Black];
    assert colors'.Keys == colors.Keys && counts[f := c].Keys == counts.Keys;
    forall x, m: nat | Covered(h, colors, x, m) && x != f ensures Covered(h, colors', x, m) {
      CoveredBlack(h, colors, x, m, f);
    }
    assert forall x :: x in todo + [f] <==> x in todo || x == f;
  }

  lemma CoveredBlack(h: seq<Object>, colors: map<Ref, Color>, x: Ref, m: nat, f: Ref)
    requires Covered(h, colors, x, m) && f in colors && x != f
    ensures Covered(h, colors[f := Black], x, m)
  {
  }

  /** Black passes on to fields, and a positive entry means an outside reference. */
  lemma BlackSources(h: seq<Object>, root: Ref, outside: map<Ref, nat>, colors: map<Ref, Color>, counts: map<Ref, nat>,
                     todo: seq<Ref>, o: Ref, n: nat)
    requires WellFormed(h) && Painting(h, root, outside, colors, counts, todo, o, n)
    requires o != NULL && IsRef(h, o) && n < |h[o].fields| && h[o].fields[n] != NULL
    ensures var f := h[o].fields[n];
            && f in colors
            && (colors[o] == Black ==> f in Reach(h, Outer(outside)))
            && (colors[f] == Gray && counts[f] > 0 ==> f in Reach(h, Outer(outside)))
            && (colors[f] == White ==> counts[f] == 0)
  {
    ReachField(h, root, o, n);
    ReachClosed(h, Outer(outside));
    assert Points(h, o, h[o].fields[n]);
  }

  lemma PaintVisit(h: seq<Object>, root: Ref, outside: map<Ref, nat>, colors: map<Ref, Color>, counts: map<Ref, nat>,
                   todo: seq<Ref>, o: Ref)
    requires Painting(h, root, outside, colors, counts, todo + [o], NULL, 0)
    ensures o in colors && colors[o] != Gray && IsRef(h, o) && Painting(h, root, outside, colors, counts, todo, o, 0)
  {
    assert (todo + [o])[|todo|] == o;
    assert o in todo + [o];
    assert o in Reach(h, {root});
  }

  lemma PaintNext(h: seq<Object>, root: Ref, outside: map<Ref, nat>, colors: map<Ref, Color>, counts: map<Ref, nat>,
                  todo: seq<Ref>, o: Ref)
    requires IsRef(h, o) && Painting(h, root, outside, colors, counts, todo, o, |h[o].fields|)
    ensures Painting(h, root, outside, colors, counts, todo, NULL, 0)
  {
    hide Reach, Outer;
  }

  /** Nothing is left gray, and black is what the outside references reach. */
  lemma PaintEnd(h: seq<Object>, root: Ref, outside: map<Ref, nat>, colors: map<Ref, Color>, counts: map<Ref, nat>)
    requires IsRef(h, root) && Painting(h, root, outside, colors, counts, [], NULL, 0)
    ensures forall x :: x in colors ==> colors[x] == if x in Reach(h, Outer(outside)) then Black else White
  {
    hide Reach;
    var known := set x | x in colors && colors[x] != Gray;
    forall o, x | o in known && Points(h, o, x) ensures x in known && (colors[o] == Black ==> colors[x] == Black) {
      assert Covered(h, colors, o, |h[o].fields|);
      var i :| 0 <= i < |h[o].fields| && h[o].fields[i] == x;
    }
    ReachLeast(h, {root}, known);
    forall x | x in Outer(outside) ensures x in Painted(colors, Black) {
      assert x in colors && x in known;
    }
    ReachLeast(h, Outer(outside), Painted(colors, Black));
  }

  /** The pushes so far: each object at most once on becoming white and once on becoming black. */
  ghost predicate Pushed(colors: map<Ref, Color>, whitened: seq<Ref>, blackened: seq<Ref>) {
    && NoDup(whitened) && NoDup(blackened)
    && (forall x :: x in whitened ==> x in colors && colors[x] != Gray)
    && (forall x :: x in blackened ==> x in colors && colors[x] == Black)
  }

  lemma PushedWhite(colors: map<Ref, Color>, whitened: seq<Ref>, blackened: seq<Ref>, f: Ref)
    requires Pushed(colors, whitened, blackened) && f in colors && colors[f] == Gray
    ensures Pushed(colors[f := White], whitened + [f], blackened)
  {
  }

  lemma PushedBlack(colors: map<Ref, Color>, whitened: seq<Ref>, blackened: seq<Ref>, f: Ref)
    requires Pushed(colors, whitened, blackened) && f in colors && colors[f] != Black
    ensures Pushed(colors[f := Black], whitened, blackened + [f])
  {
  }

  lemma {:induction false} NoDupBound(s: seq<Ref>, S: set<Ref>)
    requires NoDup(s) && forall i :: 0 <= i < |s| ==> s[i] in S
    ensures |s| <= |S|
    decreases |s|
  {
    if s != [] {
      var n := |s| - 1;
      NoDupBound(s[..n], S - {s[n]});
      assert S == S - {s[n]} + {s[n]};
    }
  }

  lemma PushedBound(colors: map<Ref, Color>, whitened: seq<Ref>, blackened: seq<Ref>)
    requires Pushed(colors, whitened, blackened)
    ensures |whitened| + |blackened| <= 2 * |colors.Keys|
    ensures NoDup(whitened) && NoDup(blackened) && forall x :: x in blackened ==> x in colors && colors[x] == Black
  {
    forall i | 0 <= i < |whitened| ensures whitened[i] in colors { assert whitened[i] in whitened; }
    forall i | 0 <= i < |blackened| ensures blackened[i] in colors { assert blackened[i] in blackened; }
    NoDupBound(whitened, colors.Keys);
    NoDupBound(blackened, colors.Keys);
  }

  /** The field loop for one white or black object (src/gc/GC.cpp:126-151). */
  method PaintFields(heap: Heap, root: Ref, o: Ref, colors0: map<Ref, Color>, counts0: map<Ref, nat>, todo0: seq<Ref>,
                     ghost outside: map<Ref, nat>, ghost whitened0: seq<Ref>, ghost blackened0: seq<Ref>)
    returns (colors: map<Ref, Color>, counts: map<Ref, nat>, todo: seq<Ref>,
             ghost whitened: seq<Ref>, ghost blackened: seq<Ref>)
    requires WellFormed(heap.objs) && IsRef(heap.objs, o) && o in colors0 && colors0[o] != Gray
    requires Painting(heap.objs, root, outside, colors0, counts0, todo0, o, 0)
    requires Pushed(colors0, whitened0, blackened0)
    ensures Painting(heap.objs, root, outside, colors, counts, todo, o, |heap.objs[o].fields|)
    ensures Pushed(colors, whitened, blackened)
    ensures PushesLeft(colors) + |todo| <= PushesLeft(colors0) + |todo0|
    ensures |todo| - |todo0| == |whitened| - |whitened0| + |blackened| - |blackened0|
  {
    hide Reach, Painting, WellFormed, Outer, PushesLeft, Pushed;
    ghost var h := heap.objs;
    colors, counts, todo, whitened, blackened := colors0, counts0, todo0, whitened0, blackened0;
    var currentColor := colors[o];
    var i := 0;
    while i < |heap.objs[o].fields|
      invariant 0 <= i <= |h[o].fields|
      invariant Painting(h, root, outside, colors, counts, todo, o, i)
      invariant o in colors && colors[o] == currentColor
      invariant Pushed(colors, whitened, blackened)
      invariant PushesLeft(colors) + |todo| <= PushesLeft(colors0) + |todo0|
      invariant |todo| - |todo0| == |whitened| - |whitened0| + |blackened| - |blackened0|
    {
      var f := heap.objs[o].fields[i];
      if f != NULL {
        BlackSources(h, root, outside, colors, counts, todo, o, i);
        PaintKeys(h, root, outside, colors, counts, todo, o, i);
        var fieldColor := colors[f];
        var fieldCount := counts[f];
        if currentColor == White {
          if fieldCount == 0 {
            if fieldColor == Gray {
              PaintWhite(h, root, outside, colors, counts, todo, o, i, f);
              PushGray(colors, f, White);
              PushedWhite(colors, whitened, blackened, f);
              colors := colors[f := White];
              todo := todo + [f];
              whitened := whitened + [f];
            }
          } else {
            if fieldColor != Black {
              PaintBlack(h, root, outside, colors, counts, todo, o, i, f, fieldCount);
              PushGray(colors, f, Black);
              PushedBlack(colors, whitened, blackened, f);
              assert counts[f := fieldCount] == counts;
              todo := todo + [f];
              blackened := blackened + [f];
            }
            assert fieldColor == Black ==> colors[f := Black] == colors;
            colors := colors[f := Black];
          }
        } else if currentColor == Black {
          ghost var before := counts;
          counts := counts[f := fieldCount + 1];
          if fieldColor != Black {
            PaintBlack(h, root, outside, colors, before, todo, o, i, f, fieldCount + 1);
            if fieldColor == Gray { PushGray(colors, f, Black); } else { PushWhite(colors, f); }
            PushedBlack(colors, whitened, blackened, f);
            colors := colors[f := Black];
            todo := todo + [f];
            blackened := blackened + [f];
          } else {
            PaintCount(h, root, outside, colors, before, todo, o, i, f, fieldCount + 1);
          }
        }
      }
      PaintSkip(h, root, outside, colors, counts, todo, o, i);
      i := i + 1;
    }
  }

  /** Mark white or black (src/gc/GC.cpp:113-158): the traced objects that no outside reference
      reaches come out white, the others black. `whitened` and `blackened` are the objects pushed,
      in turn; the entries that were raised belong to black objects. */
  method WhiteBlackPhase(heap: Heap, root: Ref, colors0: map<Ref, Color>, counts0: map<Ref, nat>)
    returns (colors: map<Ref, Color>, counts: map<Ref, nat>,
             ghost whitened: seq<Ref>, ghost blackened: seq<Ref>, ghost pushes: nat)
    requires WellFormed(heap.objs) && IsRef(heap.objs, root)
    requires colors0.Keys == counts0.Keys == Reach(heap.objs, {root})
    requires forall x :: x in colors0 ==> colors0[x] == Gray
    ensures colors.Keys == counts.Keys == Reach(heap.objs, {root})
    ensures forall x :: x in colors ==> colors[x] == if x in Reach(heap.objs, Outer(counts0)) then Black else White
    ensures forall x :: x in counts && counts[x] != counts0[x] ==> colors[x] == Black
    ensures NoDup(whitened) && NoDup(blackened) && pushes == |whitened| + |blackened| <= 2 * |Reach(heap.objs, {root})|
    ensures forall x :: x in blackened ==> x in colors && colors[x] == Black
  {
    hide Reach, Painting, WellFormed, Outer, PushesLeft, Pushed;
    ghost var h := heap.objs;
    RootReached(h, root);
    counts := counts0;
    var checkObjects: seq<Ref> := [];
    var currentObject := root;
    whitened, blackened, pushes := [], [], 0;
    colors := colors0;
    PaintStart(h, root, colors, counts);
    if counts[root] == 0 {
      colors := colors[root := White];
    } else {
      colors := colors[root := Black];
    }
    assert Pushed(colors, [], []) by { NothingPushed(colors); }
    assert checkObjects + [currentObject] == [root];
    while true
      invariant Painting(h, root, counts0, colors, counts, checkObjects + [currentObject], NULL, 0)
      invariant Pushed(colors, whitened, blackened) && pushes == |whitened| + |blackened|
      decreases PushesLeft(colors) + |checkObjects|
    {
      PaintVisit(h, root, counts0, colors, counts, checkObjects, currentObject);
      ghost var size := |checkObjects|;
      colors, counts, checkObjects, whitened, blackened :=
        PaintFields(heap, root, currentObject, colors, counts, checkObjects, counts0, whitened, blackened);
      pushes := pushes + |checkObjects| - size;
      PaintNext(h, root, counts0, colors, counts, checkObjects, currentObject);
      if checkObjects == [] {
        break;
      }
      currentObject := checkObjects[|checkObjects| - 1];
      assert checkObjects == checkObjects[..|checkObjects| - 1] + [currentObject];
      checkObjects := checkObjects[..|checkObjects| - 1];
    }
    PaintEnd(h, root, counts0, colors, counts);
    PaintKeys(h, root, counts0, colors, counts, [], NULL, 0);
    PushedBound(colors, whitened, blackened);
    RaisedAreBlack(h, root, counts0, colors, counts, [], NULL, 0);
  }

  lemma NothingPushed(colors: map<Ref, Color>)
    ensures Pushed(colors, [], [])
  {
  }

  /** Entries are raised for black objects only. */
  lemma RaisedAreBlack(h: seq<Object>, root: Ref, outside: map<Ref, nat>, colors: map<Ref, Color>,
                       counts: map<Ref, nat>, todo: seq<Ref>, o: Ref, n: nat)
    requires Painting(h, root, outside, colors, counts, todo, o, n)
    ensures counts.Keys == outside.Keys == colors.Keys
    ensures forall x :: x in counts && counts[x] != outside[x] ==> colors[x] == Black
  {
    hide Reach, Outer;
  }

  lemma PaintStart(h: seq<Object>, root: Ref, colors: map<Ref, Color>, counts: map<Ref, nat>)
    requires colors.Keys == counts.Keys == Reach(h, {root}) && root in colors
    requires forall x :: x in colors ==> colors[x] == Gray
    ensures var colors' := colors[root := if counts[root] == 0 then White else Black];
            Painting(h, root, counts, colors', counts, [root], NULL, 0)
  {
    ReachClosed(h, Outer(counts));
    assert colors[root := if counts[root] == 0 then White else Black].Keys == colors.Keys;
  }

  lemma PaintKeys(h: seq<Object>, root: Ref, outside: map<Ref, nat>, colors: map<Ref, Color>, counts: map<Ref, nat>,
                  todo: seq<Ref>, o: Ref, n: nat)
    requires Painting(h, root, outside, colors, counts, todo, o, n)
    ensures colors.Keys == counts.Keys == Reach(h, {root}) && forall x :: x in colors ==> colors[x] != Red
  {
  }

  // -------------------------------------------------------- waiting trees

  ghost predicate Later(todo: seq<Ref>, k: int, f: Ref) {
    exists j :: k < j < |todo| && 0 <= j && todo[j] == f
  }

  /** The walk at src/gc/GC.cpp:176-200. An object can be on the work list more than once, but
      the fields of a visited one are visited or lie above every remaining copy of it. */
  ghost predicate Walking(h: seq<Object>, root: Ref, N: set<Ref>, todo: seq<Ref>, o: Ref, n: nat) {
    && (root in N || root in todo)
    && N <= Reach(h, {root}) && (forall x :: x in todo ==> x in Reach(h, {root}))
    && AllWaiting(h, N)
    && (forall x, i :: x in N && IsRef(h, x) && 0 <= i < |h[x].fields| && (x == o ==> i < n) &&
                       h[x].fields[i] != NULL ==>
          h[x].fields[i] in N || h[x].fields[i] in todo)
    && (forall k :: 0 <= k < |todo| && todo[k] in N ==>
          BelowFirst(h, N, todo, k, if todo[k] == o then n else |h[todo[k]].fields|))
  }

  /** The first `n` fields of the object at position `k` are visited or lie above it. */
  ghost predicate BelowFirst(h: seq<Object>, N: set<Ref>, todo: seq<Ref>, k: nat, n: nat)
    requires k < |todo|
  {
    forall i :: 0 <= i < n && IsRef(h, todo[k]) && i < |h[todo[k]].fields| && h[todo[k]].fields[i] != NULL ==>
      h[todo[k]].fields[i] in N || Later(todo, k, h[todo[k]].fields[i])
  }

  lemma BelowPop(h: seq<Object>, N: set<Ref>, todo: seq<Ref>, o: Ref, k: nat, n: nat)
    requires k < |todo| && BelowFirst(h, N, todo + [o], k, n)
    ensures BelowFirst(h, N + {o}, todo, k, n)
  {
    var before := todo + [o];
    forall i | 0 <= i < n && IsRef(h, todo[k]) && i < |h[todo[k]].fields| && h[todo[k]].fields[i] != NULL
      ensures h[todo[k]].fields[i] in N + {o} || Later(todo, k, h[todo[k]].fields[i])
    {
      var f := h[todo[k]].fields[i];
      assert before[k] == todo[k];
      if f !in N + {o} {
        var j :| k < j < |before| && 0 <= j && before[j] == f;
        assert todo[j] == f;
      }
    }
  }

  lemma BelowPush(h: seq<Object>, N: set<Ref>, todo: seq<Ref>, f: Ref, k: nat, n: nat, n': nat)
    requires k < |todo| && BelowFirst(h, N, todo, k, n)
    requires n' == n || (n' == n + 1 && (IsRef(h, todo[k]) && n < |h[todo[k]].fields| ==> h[todo[k]].fields[n] == f))
    ensures BelowFirst(h, N, todo + [f], k, n')
  {
    var after := todo + [f];
    assert after[k] == todo[k] && after[|todo|] == f;
    forall i | 0 <= i < n' && IsRef(h, todo[k]) && i < |h[todo[k]].fields| && h[todo[k]].fields[i] != NULL
      ensures h[todo[k]].fields[i] in N || Later(after, k, h[todo[k]].fields[i])
    {
      var g := h[todo[k]].fields[i];
      if g !in N && g != f {
        var j :| k < j < |todo| && 0 <= j && todo[j] == g;
        assert after[j] == g;
      }
    }
  }

  lemma WalkStart(h: seq<Object>, root: Ref)
    requires IsRef(h, root)
    ensures Walking(h, root, {}, [root], NULL, 0)
  {
    RootReached(h, root);
  }

  lemma WalkRevisit(h: seq<Object>, root: Ref, N: set<Ref>, todo: seq<Ref>, o: Ref)
    requires Walking(h, root, N, todo + [o], NULL, 0) && o in N
    ensures IsRef(h, o) && Walking(h, root, N, todo, NULL, 0)
    ensures forall i :: 0 <= i < |h[o].fields| && h[o].fields[i] != NULL ==> h[o].fields[i] in N
  {
    hide Reach, AllWaiting;
    var before := todo + [o];
    assert before[|todo|] == o;
    ReachRefs(h, root);
    assert BelowFirst(h, N, before, |todo|, |h[o].fields|);
    assert N + {o} == N;
    forall k | 0 <= k < |todo| && todo[k] in N ensures BelowFirst(h, N, todo, k, |h[todo[k]].fields|) {
      assert before[k] == todo[k];
      BelowPop(h, N, todo, o, k, |h[todo[k]].fields|);
    }
    forall x | x in before ensures x in todo || x in N {}
  }

  lemma ReachRefs(h: seq<Object>, root: Ref)
    ensures forall x :: x in Reach(h, {root}) ==> IsRef(h, x)
  {
  }

  lemma WalkVisit(h: seq<Object>, root: Ref, N: set<Ref>, todo: seq<Ref>, o: Ref)
    requires Walking(h, root, N, todo + [o], NULL, 0) && o !in N && IsRef(h, o) && h[o].state == WaitingForGc
    ensures Walking(h, root, N + {o}, todo, o, 0)
  {
    hide Reach;
    var before := todo + [o];
    assert before[|todo|] == o;
    ReachRefs(h, root);
    forall k | 0 <= k < |todo| && todo[k] in N + {o} && todo[k] != o
      ensures BelowFirst(h, N + {o}, todo, k, |h[todo[k]].fields|)
    {
      assert before[k] == todo[k];
      BelowPop(h, N, todo, o, k, |h[todo[k]].fields|);
    }
    forall x | x in before ensures x in todo || x in N + {o} {}
  }

  lemma WalkPush(h: seq<Object>, root: Ref, N: set<Ref>, todo: seq<Ref>, o: Ref, n: nat)
    requires Walking(h, root, N, todo, o, n) && WellFormed(h)
    requires IsRef(h, o) && o in N && n < |h[o].fields| && h[o].fields[n] != NULL && h[o].fields[n] !in N
    ensures Walking(h, root, N, todo + [h[o].fields[n]], o, n + 1)
  {
    hide Reach, AllWaiting;
    var f := h[o].fields[n];
    ReachField(h, root, o, n);
    ReachRefs(h, root);
    var after := todo + [f];
    assert after[|todo|] == f;
    forall k | 0 <= k < |after| && after[k] in N
      ensures BelowFirst(h, N, after, k, if after[k] == o then n + 1 else |h[after[k]].fields|)
    {
      assert after[k] == todo[k];
      BelowPush(h, N, todo, f, k, if todo[k] == o then n else |h[todo[k]].fields|,
                if todo[k] == o then n + 1 else |h[todo[k]].fields|);
    }
  }

  lemma WalkPass(h: seq<Object>, root: Ref, N: set<Ref>, todo: seq<Ref>, o: Ref, n: nat)
    requires Walking(h, root, N, todo, o, n)
    requires IsRef(h, o) && n < |h[o].fields| && (h[o].fields[n] == NULL || h[o].fields[n] in N)
    ensures Walking(h, root, N, todo, o, n + 1)
  {
    hide Reach, AllWaiting, Later;
  }

  lemma WalkNext(h: seq<Object>, root: Ref, N: set<Ref>, todo: seq<Ref>, o: Ref)
    requires IsRef(h, o) && Walking(h, root, N, todo, o, |h[o].fields|)
    ensures Walking(h, root, N, todo, NULL, 0)
  {
    hide Reach, AllWaiting, BelowFirst;
    ReachRefs(h, root);
  }

  lemma WalkEnd(h: seq<Object>, root: Ref, N: set<Ref>)
    requires Walking(h, root, N, [], NULL, 0)
    ensures N == Reach(h, {root}) && AllWaiting(h, N)
  {
    forall o, x | o in N && Points(h, o, x) ensures x in N {
      var i :| 0 <= i < |h[o].fields| && h[o].fields[i] == x;
    }
    ReachLeast(h, {root}, N);
  }

  lemma WalkReached(h: seq<Object>, root: Ref, N: set<Ref>, todo: seq<Ref>, o: Ref)
    requires Walking(h, root, N, todo + [o], NULL, 0)
    ensures IsRef(h, o) && o in Reach(h, {root})
  {
    assert (todo + [o])[|todo|] == o;
    assert o in todo + [o];
  }

  /** The branch for a root that is not on a cycle (src/gc/GC.cpp:176-200): ready exactly when
      everything the root reaches waits. */
  method CheckWaiting(heap: Heap, root: Ref) returns (nonCycleObjects: set<Ref>, readyToRelease: bool)
    requires WellFormed(heap.objs) && IsRef(heap.objs, root)
    ensures readyToRelease <==> AllWaiting(heap.objs, Reach(heap.objs, {root}))
    ensures readyToRelease ==> nonCycleObjects == Reach(heap.objs, {root})
  {
    hide Reach, Walking, WellFormed;
    ghost var h := heap.objs;
    nonCycleObjects, readyToRelease := {}, true;
    var checkObjects: seq<Ref> := [];
    var currentObject := root;
    WalkStart(h, root);
    assert checkObjects + [currentObject] == [root];
    while true
      invariant Walking(h, root, nonCycleObjects, checkObjects + [currentObject], NULL, 0)
      invariant readyToRelease
      decreases Reach(h, {root}) - nonCycleObjects, |checkObjects|
    {
      WalkReached(h, root, nonCycleObjects, checkObjects, currentObject);
      if heap.objs[currentObject].state != WaitingForGc {
        readyToRelease := false;
        return;
      }
      ghost var again, before := currentObject in nonCycleObjects, checkObjects;
      if again {
        WalkRevisit(h, root, nonCycleObjects, checkObjects, currentObject);
        assert nonCycleObjects + {currentObject} == nonCycleObjects;
      } else {
        WalkVisit(h, root, nonCycleObjects, checkObjects, currentObject);
      }
      nonCycleObjects := nonCycleObjects + {currentObject};
      var i := 0;
      while i < |heap.objs[currentObject].fields|
        invariant 0 <= i <= |h[currentObject].fields|
        invariant again ==> checkObjects == before && Walking(h, root, nonCycleObjects, checkObjects, NULL, 0)
        invariant !again ==> Walking(h, root, nonCycleObjects, checkObjects, currentObject, i)
      {
        var f := heap.objs[currentObject].fields[i];
        if f != NULL && f !in nonCycleObjects {
          WalkPush(h, root, nonCycleObjects, checkObjects, currentObject, i);
          checkObjects := checkObjects + [f];
        } else if !again {
          WalkPass(h, root, nonCycleObjects, checkObjects, currentObject, i);
        }
        i := i + 1;
      }
      if !again {
        WalkNext(h, root, nonCycleObjects, checkObjects, currentObject);
      }
      if checkObjects == [] {
        break;
      }
      currentObject := checkObjects[|checkObjects| - 1];
      assert checkObjects == checkObjects[..|checkObjects| - 1] + [currentObject];
      checkObjects := checkObjects[..|checkObjects| - 1];
    }
    WalkEnd(h, root, nonCycleObjects);
  }

  // ------------------------------------------------------- one root

  /** The memories differ in states only. */
  ghost predicate SameShape(h0: seq<Object>, h: seq<Object>) {
    |h| == |h0| && forall x :: IsRef(h, x) ==> h[x] == h0[x].(state := h[x].state)
  }

  lemma ShapeReach(h0: seq<Object>, h: seq<Object>, A: set<Ref>)
    requires SameShape(h0, h)
    ensures Reach(h, A) == Reach(h0, A)
  {
    ReachFrame(h0, h, A);
  }

  lemma ShapeVerdict(h0: seq<Object>, h: seq<Object>, r: Ref)
    requires SameShape(h0, h)
    ensures Reach(h, {r}) == Reach(h0, {r}) && (OnCycle(h, r) <==> OnCycle(h0, r)) && WhiteSet(h, r) == WhiteSet(h0, r)
    ensures forall x :: Slots(h, Reach(h, {r}), x) == Slots(h0, Reach(h0, {r}), x)
  {
    hide Reach;
    ShapeReach(h0, h, {r});
    var S := Reach(h0, {r});
    forall x ensures Slots(h, S, x) == Slots(h0, S, x) { SlotsFrame(h, h0, S, x); }
    assert External(h, S) == External(h0, S);
    ShapeReach(h0, h, External(h0, S));
    forall o ensures Points(h, o, r) <==> Points(h0, o, r) {}
  }

  lemma ShapeWellFormed(h0: seq<Object>, h: seq<Object>)
    requires SameShape(h0, h) && WellFormed(h0)
    ensures WellFormed(h)
  {
  }

  /** The live objects condemned so far are marked, everything else is as it was. */
  ghost predicate Marked(h0: seq<Object>, h: seq<Object>, release: set<Ref>) {
    && SameShape(h0, h)
    && (forall x :: x in release ==> IsRef(h0, x) && (h0[x].state == Live || h0[x].state == WaitingForGc))
    && (forall x :: IsRef(h0, x) ==> h[x].state == if x in release then WaitingForGc else h0[x].state)
  }

  /** A candidate on a cycle is live, its counts cover what it reaches. */
  lemma CyclicRoot(h: seq<Object>, suspected: set<Ref>, held: multiset<Ref>, r: Ref)
    requires Consistent(h, suspected, held) && r in suspected && OnCycle(h, r)
    ensures r in LiveSet(h)
    ensures forall x :: x in Reach(h, {r}) ==> IsRef(h, x) && Slots(h, Reach(h, {r}), x) <= h[x].count
  {
    hide Reach, OnCycle, Forest, Accounts, Acyclic;
    if r in WaitingSet(h) {
      AccountsWellFormed(h, LiveSet(h), {}, held);
      WaitingNotOnCycle(h, r);
    }
    assert r in LiveSet(h);
    ReachLive(h, suspected, held, r);
    forall x | x in Reach(h, {r}) ensures IsRef(h, x) && Slots(h, Reach(h, {r}), x) <= h[x].count {
      LiveCount(h, suspected, held, x);
      SlotsMono(h, LiveSet(h), Reach(h, {r}), x);
    }
  }

  lemma WaitingNotOnCycle(h: seq<Object>, r: Ref)
    requires WellFormed(h) && Forest(h, WaitingSet(h)) && r in WaitingSet(h) && h[r].Candidate()
    ensures !OnCycle(h, r)
  {
    var W := WaitingSet(h);
    ForestClosed(h, W);
    ReachLeast(h, {r}, W);
    forall o | o in Reach(h, {r}) ensures !Points(h, o, r) {
      assert o in W;
    }
  }

  /** Collect white (src/gc/GC.cpp:160-166). */
  method CollectWhite(heap: Heap, cycleObjects: seq<Ref>, colors: map<Ref, Color>, release0: set<Ref>,
                      ghost h0: seq<Object>)
    returns (release: set<Ref>)
    requires Marked(h0, heap.objs, release0)
    requires forall x :: x in cycleObjects ==> x in colors && IsRef(h0, x) && h0[x].state == Live
    modifies heap`objs
    ensures release == release0 + set x | x in cycleObjects && colors[x] == White
    ensures Marked(h0, heap.objs, release)
  {
    release := release0;
    for k := 0 to |cycleObjects|
      invariant release == release0 + set x | x in cycleObjects[..k] && colors[x] == White
      invariant Marked(h0, heap.objs, release)
    {
      var x := cycleObjects[k];
      assert x in cycleObjects;
      assert cycleObjects[..k + 1] == cycleObjects[..k] + [x];
      if colors[x] == White {
        heap.objs := heap.objs[x := heap.objs[x].(state := WaitingForGc)];
        release := release + {x};
      }
    }
    assert cycleObjects[..|cycleObjects|] == cycleObjects;
  }

  lemma OuterIsExternal(h: seq<Object>, S: set<Ref>, counts: map<Ref, nat>)
    requires counts.Keys == S
    requires forall x :: x in counts ==> IsRef(h, x) && counts[x] == h[x].count - Slots(h, S, x)
    ensures Outer(counts) == External(h, S)
  {
  }

  /** What a root that is not on a cycle releases. */
  lemma TreeVerdict(h0: seq<Object>, h: seq<Object>, suspected: set<Ref>, held: multiset<Ref>, release: set<Ref>,
                    r: Ref)
    requires Consistent(h0, suspected, held) && Marked(h0, h, release) && r in suspected && !OnCycle(h0, r)
    ensures AllWaiting(h, Reach(h0, {r})) ==> release + Reach(h0, {r}) == release + Verdict(h0, r)
    ensures !AllWaiting(h, Reach(h0, {r})) ==> Verdict(h0, r) == {}
    ensures AllWaiting(h, Reach(h0, {r})) ==> Marked(h0, h, release + Reach(h0, {r}))
  {
    hide Reach, Forest, Accounts, Acyclic, Flagged;
    ReachRefs(h0, r);
    RootReached(h0, r);
    if r in LiveSet(h0) {
      assert !AllWaiting(h0, Reach(h0, {r}));
      ReachLive(h0, suspected, held, r);
    } else {
      assert r in WaitingSet(h0) by { CandidateState(h0, suspected, held, r); }
      AccountsWellFormed(h0, LiveSet(h0), {}, held);
      WaitingVerdict(h0, r);
    }
  }

  lemma CandidateState(h: seq<Object>, suspected: set<Ref>, held: multiset<Ref>, r: Ref)
    requires Consistent(h, suspected, held) && r in suspected
    ensures r in LiveSet(h) || r in WaitingSet(h)
  {
    hide Forest, Accounts, Acyclic;
  }

  lemma ConsistentShape(h: seq<Object>, suspected: set<Ref>, held: multiset<Ref>)
    requires Consistent(h, suspected, held)
    ensures WellFormed(h) && (forall x :: x in suspected ==> IsRef(h, x))
  {
    hide Forest, Acyclic;
  }

  lemma CyclicVerdict(h: seq<Object>, r: Ref, S: set<Ref>, colors: map<Ref, Color>, list: seq<Ref>, outside: set<Ref>)
    requires OnCycle(h, r) && S == Reach(h, {r}) && Elems(list) == S == colors.Keys && outside == External(h, S)
    requires forall x :: x in colors ==> colors[x] == if x in Reach(h, outside) then Black else White
    ensures (set x | x in list && colors[x] == White) == Verdict(h, r)
  {
    hide Reach, External, OnCycle;
    var white := set x | x in list && colors[x] == White;
    forall x ensures x in white <==> x in Verdict(h, r) { assert x in Elems(list) <==> x in list; }
    assert white == Verdict(h, r);
  }

  /** The body of the loop over the roots (src/gc/GC.cpp:31-208). */
  method ProcessRoot(heap: Heap, root: Ref, release0: set<Ref>, ghost h0: seq<Object>, ghost suspected: set<Ref>)
    returns (release: set<Ref>)
    requires Consistent(h0, suspected, heap.held) && root in suspected
    requires Marked(h0, heap.objs, release0) && heap.locked == {}
    modifies heap`objs, heap`locked
    ensures release == release0 + Verdict(h0, root)
    ensures Marked(h0, heap.objs, release) && heap.locked == {}
  {
    hide Consistent, Reach, Marked, OnCycle, WhiteSet, WellFormed, Verdict, AllWaiting, External, Slots, Outer;
    release := release0;
    ghost var h := heap.objs;
    MarkedShape(h0, h, release0);
    ConsistentShape(h0, suspected, heap.held);
    ShapeWellFormed(h0, h);
    ShapeVerdict(h0, h, root);
    var colors, cycleObjects, isCyclicRoot := LockPhase(heap, root);
    if isCyclicRoot {
      CyclicRoot(h0, suspected, heap.held, root);
      ReachLive(h0, suspected, heap.held, root);
      var counts;
      colors, counts := GrayPhase(heap, root, colors);
      OuterIsExternal(h, Reach(h, {root}), counts);
      ghost var outer := Outer(counts);
      ghost var whitened, blackened, pushes;
      colors, counts, whitened, blackened, pushes := WhiteBlackPhase(heap, root, colors, counts);
      CyclicVerdict(h, root, Reach(h, {root}), colors, cycleObjects, outer);
      CyclicVerdictShape(h0, h, root);
      forall x | x in cycleObjects ensures x in colors && IsRef(h0, x) && h0[x].state == Live {
        assert x in Elems(cycleObjects);
      }
      release := CollectWhite(heap, cycleObjects, colors, release, h0);
      UnlockAll(heap, cycleObjects);
    } else {
      UnlockAll(heap, cycleObjects);
      var nonCycleObjects, readyToRelease := CheckWaiting(heap, root);
      TreeVerdict(h0, h, suspected, heap.held, release0, root);
      if readyToRelease {
        release := release + nonCycleObjects;
      }
    }
  }

  lemma MarkedShape(h0: seq<Object>, h: seq<Object>, release: set<Ref>)
    requires Marked(h0, h, release)
    ensures SameShape(h0, h)
  {
  }

  lemma CyclicVerdictShape(h0: seq<Object>, h: seq<Object>, r: Ref)
    requires SameShape(h0, h) && OnCycle(h, r)
    ensures Verdict(h, r) == Verdict(h0, r)
  {
    hide Reach, WhiteSet, OnCycle, Slots;
    ShapeVerdict(h0, h, r);
  }

  // ------------------------------------------------------------- release

  /** Releasing under way. `X` are the condemned objects, `Z` the others that cascades have
      zeroed meanwhile, `C` the live objects and the condemned ones still to be opened, `ext`
      the references of the threads and the slots of the object in hand still to be dropped. */
  ghost predicate Releasing(h0: seq<Object>, h: seq<Object>, C: set<Ref>, X: set<Ref>, ext: multiset<Ref>,
                            Z: set<Ref>) {
    && |h| == |h0|
    && Accounts(h, C, X, ext)
    && C - X == LiveSet(h)
    && (forall x :: x in LiveSet(h) ==> h[x].count > 0)
    && (forall x :: x in X ==> IsRef(h, x) && x !in Z && h[x] == h0[x].(state := WaitingForGc))
    && (forall x :: IsRef(h, x) && x !in X && x !in Z ==>
          h[x] == h0[x].(count := h[x].count) && h[x].count <= h0[x].count)
    && (forall x :: x in Z ==> IsRef(h, x) && h0[x].state == Live && Settled(h0[x], h[x]))
    && Forest(h, WaitingOf(h, Z))
  }

  /** Every member of `K` is referenced from outside the counted fields or from within `K`. */
  ghost predicate Supported(h: seq<Object>, ext: multiset<Ref>, K: set<Ref>) {
    forall x :: x in K ==> ext[x] > 0 || exists o :: o in K && Points(h, o, x)
  }

  /** A part of the live objects outside `X` that lives on by itself. */
  ghost predicate Keeps(h: seq<Object>, held: multiset<Ref>, X: set<Ref>, K: set<Ref>) {
    K <= LiveSet(h) - X && Supported(h, held, K)
  }

  ghost predicate Survives(h: seq<Object>, held: multiset<Ref>, X: set<Ref>, x: Ref) {
    exists K :: Keeps(h, held, X, K) && x in K
  }

  /** The live objects that a collection which kills `X` must leave live: all that belong to a part that
      lives on by itself. */
  ghost function Survivors(h: seq<Object>, held: multiset<Ref>, X: set<Ref>): set<Ref> {
    set x | 0 <= x < |h| && Survives(h, held, X, x)
  }

  lemma SurvivorsLargest(h: seq<Object>, held: multiset<Ref>, X: set<Ref>, K: set<Ref>)
    requires Keeps(h, held, X, K)
    ensures K <= Survivors(h, held, X)
  {
    hide Supported;
    forall x | x in K ensures Survives(h, held, X, x) {}
  }

  lemma SurvivorsKeep(h: seq<Object>, held: multiset<Ref>, X: set<Ref>)
    ensures Keeps(h, held, X, Survivors(h, held, X))
  {
    var S := Survivors(h, held, X);
    forall x | x in S ensures x in LiveSet(h) - X && (held[x] > 0 || exists o :: o in S && Points(h, o, x)) {
      var K :| Keeps(h, held, X, K) && x in K;
      SurvivorsLargest(h, held, X, K);
      if held[x] == 0 {
        var o :| o in K && Points(h, o, x);
        assert o in S;
      }
    }
  }

  /** What is live afterwards lives on by itself. */
  lemma LiveKeeps(h: seq<Object>, h': seq<Object>, suspected': set<Ref>, held: multiset<Ref>, X: set<Ref>, Z: set<Ref>)
    requires Collected(h, h', X, Z) && Consistent(h', suspected', held)
    ensures Keeps(h, held, X, LiveSet(h'))
  {
    hide Consistent;
    var L := LiveSet(h');
    forall x | x in L ensures x in LiveSet(h) - X && (held[x] > 0 || exists o :: o in L && Points(h, o, x)) {
      LiveCount(h', suspected', held, x);
      LivePositive(h', suspected', held, x);
      SlotsZero(h', L, x);
      if held[x] == 0 {
        var o :| o in L && Points(h', o, x);
        assert Points(h, o, x);
      }
    }
  }

  /** Something that does not wait, condemned or zeroed, referenced `y`. */
  ghost predicate FelledBy(h0: seq<Object>, h: seq<Object>, X: set<Ref>, Z: set<Ref>, y: Ref) {
    exists o :: IsRef(h, o) && (o in X || (o in Z && h[o].state != WaitingForGc)) && Points(h0, o, y)
  }

  /** A zeroed object that does not wait was referenced by a condemned one or by one that does not wait
      either; one that was referenced by waiting ones only waits with them. */
  ghost predicate Felled(h0: seq<Object>, h: seq<Object>, X: set<Ref>, Z: set<Ref>) {
    forall y :: y in Z && IsRef(h, y) && h[y].state != WaitingForGc ==> FelledBy(h0, h, X, Z, y)
  }

  lemma FelledDrop(h0: seq<Object>, h: seq<Object>, h': seq<Object>, C: set<Ref>, X: set<Ref>, ext: multiset<Ref>,
                   Z: set<Ref>, f: Ref, order: seq<Ref>, w: Ref)
    requires Releasing(h0, h, C, X, ext, Z) && Dropped(h, h', C, X, ext, f, order) && Felled(h0, h, X, Z)
    requires w in X && Points(h0, w, f)
    ensures Felled(h0, h', X, Z + Elems(order))
  {
    hide Accounts, Forest, DropClosed, Settled, Cascaded, Grounded, Killers;
    assert forall y :: y in C && y !in X ==> y in LiveSet(h);
    DropParts(h, h', C, X, ext, f, order);
    var h1 := h[f := h[f].(count := h[f].count - 1)];
    var Z' := Z + Elems(order);
    forall y | y in order
      ensures y in LiveSet(h) && y !in X && h[y].fields == h0[y].fields
    {
      ReleaseLive(h0, h, C, X, ext, Z, y);
    }
    forall y | y in Z' && IsRef(h', y) && h'[y].state != WaitingForGc ensures FelledBy(h0, h', X, Z', y) {
      if y in order {
        FelledMember(h0, h1, h', X, Z', order, f, w, y);
      } else {
        assert FelledBy(h0, h, X, Z, y);
        var o :| IsRef(h, o) && (o in X || (o in Z && h[o].state != WaitingForGc)) && Points(h0, o, y);
        ReleaseZeroed(h0, h, C, X, ext, Z, o);
        assert o in Z ==> o !in order;
      }
    }
  }

  lemma ReleaseLive(h0: seq<Object>, h: seq<Object>, C: set<Ref>, X: set<Ref>, ext: multiset<Ref>, Z: set<Ref>, y: Ref)
    requires Releasing(h0, h, C, X, ext, Z) && y in C && y !in X
    ensures y in LiveSet(h) && h[y].fields == h0[y].fields
  {
    hide Forest, Accounts;
  }

  lemma ReleaseZeroed(h0: seq<Object>, h: seq<Object>, C: set<Ref>, X: set<Ref>, ext: multiset<Ref>, Z: set<Ref>,
                      y: Ref)
    requires Releasing(h0, h, C, X, ext, Z)
    ensures y in Z ==> y !in LiveSet(h)
  {
    hide Forest, Accounts;
  }

  lemma FelledMember(h0: seq<Object>, h1: seq<Object>, h': seq<Object>, X: set<Ref>, Z: set<Ref>, order: seq<Ref>,
                     f: Ref, w: Ref, y: Ref)
    requires Killers(h1, h', order) && order != [] && order[0] == f && |h'| == |h1| == |h0| && Elems(order) <= Z
    requires w in X && Points(h0, w, f) && forall o :: o in order ==> IsRef(h1, o) && h1[o].fields == h0[o].fields
    requires y in order && IsRef(h', y) && h'[y].state != WaitingForGc
    ensures FelledBy(h0, h', X, Z, y)
  {
    if y == f {
      assert IsRef(h', w);
    } else {
      var k :| 0 <= k < |order| && order[k] == y;
      assert KilledBy(h1, h', order, order[k]);
      var o :| o in order && IsRef(h', o) && h'[o].state != WaitingForGc && Points(h1, o, y);
      assert o in Elems(order) && Points(h0, o, y);
    }
  }

  /** Killing the condemned objects changes no zeroed one. */
  lemma FelledKill(h0: seq<Object>, h: seq<Object>, h': seq<Object>, X: set<Ref>, Z: set<Ref>)
    requires Felled(h0, h, X, Z) && |h'| == |h| && X !! Z
    requires forall x :: IsRef(h, x) ==> h'[x] == if x in X then h[x].(state := Dead) else h[x]
    ensures Felled(h0, h', X, Z)
  {
    forall y | y in Z && IsRef(h', y) && h'[y].state != WaitingForGc ensures FelledBy(h0, h', X, Z, y) {
      assert FelledBy(h0, h, X, Z, y);
      var o :| IsRef(h, o) && (o in X || (o in Z && h[o].state != WaitingForGc)) && Points(h0, o, y);
    }
  }

  lemma ZeroedUnsupported(h: seq<Object>, C: set<Ref>, X: set<Ref>, ext: multiset<Ref>, order: seq<Ref>, K: set<Ref>)
    requires Grounded(h, C, X, ext, order) && K <= C && Supported(h, ext, K)
    ensures K !! Elems(order)
  {
    forall x | x in C && x !in X && ext[x] == 0 && (forall o :: o in C && Points(h, o, x) ==> o in C - K)
      ensures x in C - K
    {
    }
    assert DropClosed(h, C, X, ext, C - K);
    GroundedIsLeast(h, C, X, ext, order, C - K);
  }

  lemma ReachSupported(h: seq<Object>, held: multiset<Ref>)
    ensures Supported(h, held, Reach(h, HeldSet(held)))
  {
    forall x | x in Reach(h, HeldSet(held)) && held[x] == 0
      ensures exists o :: o in Reach(h, HeldSet(held)) && Points(h, o, x)
    {
      ReachPred(h, HeldSet(held), x);
    }
  }

  lemma ReleaseDrop(h0: seq<Object>, h: seq<Object>, h': seq<Object>, C: set<Ref>, X: set<Ref>, ext: multiset<Ref>,
                    Z: set<Ref>, f: Ref, order: seq<Ref>)
    requires Releasing(h0, h, C, X, ext, Z) && Dropped(h, h', C, X, ext, f, order)
    ensures Releasing(h0, h', C - Elems(order), X, ext - multiset{f}, Z + Elems(order))
    ensures CandidateSet(h') == CandidateSet(h)
  {
    hide Accounts, Forest, Dropped, DropClosed, Cascaded, WellFormed;
    assert forall y :: y in C && y !in X ==> y in LiveSet(h);
    DropParts(h, h', C, X, ext, f, order);
    var h1 := h[f := h[f].(count := h[f].count - 1)];
    CascadeSets(h1, h', C, X, ext - multiset{f}, order);
    assert LiveSet(h1) == LiveSet(h) && CandidateSet(h1) == CandidateSet(h);
    AccountsWellFormed(h, C, X, ext);
    assert WellFormed(h1) by { WellFormedCount(h, f, h[f].count - 1); }
    var W := WaitingOf(h, Z);
    ForestFrame(h, h1, W);
    forall x | x in W ensures x !in order { assert h[x].state == WaitingForGc; }
    CascadeForest(h1, h', C, X, ext - multiset{f}, order, W);
    assert WaitingOf(h', Z + Elems(order)) == W + WaitingOf(h', Elems(order)) by {
      forall x | x in Z ensures x !in order { assert x !in LiveSet(h); }
    }
    CascadedKeeps(h1, h', C, X, ext - multiset{f}, order);
    ReleaseDropCells(h0, h, h', C, X, ext, Z, f, order);
  }

  lemma WellFormedCount(h: seq<Object>, f: Ref, c: nat)
    requires WellFormed(h) && IsRef(h, f)
    ensures WellFormed(h[f := h[f].(count := c)])
  {
  }

  lemma CascadedKeeps(h: seq<Object>, h': seq<Object>, C: set<Ref>, X: set<Ref>, ext: multiset<Ref>, order: seq<Ref>)
    requires Cascaded(h, h', C, X, ext, order)
    ensures forall x :: IsRef(h, x) && x in X ==> h'[x] == h[x]
  {
    hide Accounts, Forest, Grounded;
  }

  lemma ReleaseDropCells(h0: seq<Object>, h: seq<Object>, h': seq<Object>, C: set<Ref>, X: set<Ref>,
                         ext: multiset<Ref>, Z: set<Ref>, f: Ref, order: seq<Ref>)
    requires Releasing(h0, h, C, X, ext, Z) && Dropped(h, h', C, X, ext, f, order)
    ensures |h'| == |h0|
    ensures forall x :: x in X ==> IsRef(h', x) && x !in Z + Elems(order) && h'[x] == h0[x].(state := WaitingForGc)
    ensures forall x :: IsRef(h', x) && x !in X && x !in Z + Elems(order) ==>
          h'[x] == h0[x].(count := h'[x].count) && h'[x].count <= h0[x].count
    ensures forall x :: x in Z + Elems(order) ==> IsRef(h', x) && h0[x].state == Live && Settled(h0[x], h'[x])
  {
    hide Accounts, Forest, Dropped, DropClosed, Cascaded;
    DropParts(h, h', C, X, ext, f, order);
    CascadedKeeps(h[f := h[f].(count := h[f].count - 1)], h', C, X, ext - multiset{f}, order);
    forall x | x in Z ensures x !in order && h'[x] == h[x] {
      assert x !in LiveSet(h);
    }
  }

  /** What the threads reach is out of harm's way. */
  ghost predicate Spared(h0: seq<Object>, h: seq<Object>, X: set<Ref>, Z: set<Ref>, held: multiset<Ref>, K: set<Ref>) {
    && |h| == |h0| && K !! X && K !! Z && K <= LiveSet(h0) && Supported(h0, held, K)
  }

  lemma SparedDrop(h0: seq<Object>, h: seq<Object>, h': seq<Object>, C: set<Ref>, X: set<Ref>, ext: multiset<Ref>,
                   Z: set<Ref>, f: Ref, order: seq<Ref>, held: multiset<Ref>, K: set<Ref>)
    requires Releasing(h0, h, C, X, ext, Z) && Dropped(h, h', C, X, ext, f, order)
    requires Spared(h0, h, X, Z, held, K) && held <= ext - multiset{f}
    ensures Spared(h0, h', X, Z + Elems(order), held, K)
  {
    hide Accounts, Forest, DropClosed, Grounded;
    var h1 := h[f := h[f].(count := h[f].count - 1)];
    forall x | x in K ensures x in LiveSet(h) && h1[x].fields == h0[x].fields {}
    forall x | x in K && (ext - multiset{f})[x] == 0 ensures exists o :: o in K && Points(h1, o, x) {
      assert held[x] == 0;
      var o :| o in K && Points(h0, o, x);
      assert Points(h1, o, x);
    }
    ZeroedUnsupported(h1, C, X, ext - multiset{f}, order, K);
  }

  /** A loose reference to a condemned object, or null, is forgotten. */
  lemma ReleaseSkip(h0: seq<Object>, h: seq<Object>, C: set<Ref>, X: set<Ref>, ext: multiset<Ref>, Z: set<Ref>, f: Ref)
    requires Releasing(h0, h, C, X, ext, Z) && (f == NULL || (IsRef(h, f) && h[f].state != Live && ext[f] > 0))
    ensures Releasing(h0, h, C, X, ext - multiset{f}, Z)
  {
    hide Forest, Settled;
  }

  lemma ReleaseOpen(h0: seq<Object>, h: seq<Object>, C: set<Ref>, X: set<Ref>, ext: multiset<Ref>, Z: set<Ref>, w: Ref)
    requires Releasing(h0, h, C, X, ext, Z) && w in C && w in X
    ensures Releasing(h0, h, C - {w}, X, ext + multiset(h[w].fields), Z)
  {
    hide Forest, Settled, Accounts;
    OpenCell(h, C, X, ext, w);
  }

  lemma ReleaseFacts(h0: seq<Object>, h: seq<Object>, C: set<Ref>, X: set<Ref>, ext: multiset<Ref>, Z: set<Ref>)
    requires Releasing(h0, h, C, X, ext, Z)
    ensures Accounts(h, C, X, ext) && (forall x :: x in X ==> IsRef(h, x) && h[x] == h0[x].(state := WaitingForGc))
    ensures forall y :: y in C && y !in X && IsRef(h, y) ==> h[y].count > 0
    ensures |h| == |h0| && WellFormed(h)
  {
    hide Forest, Settled;
    forall y | y in C && y !in X ensures y in LiveSet(h) { assert y in C - X; }
  }

  /** The field loop of the release loop (src/gc/GC.cpp:218-227) on the condemned object `w`. The
      fields of an object that was traced have been counted until now, those of an object in a
      waiting tree have not. */
  method ReleaseFields(heap: Heap, w: Ref, ghost counted: bool, ghost h0: seq<Object>, ghost C0: set<Ref>,
                       ghost X: set<Ref>,
                       ghost Z0: set<Ref>, ghost K: set<Ref>)
    returns (ghost C: set<Ref>, ghost Z: set<Ref>)
    requires w in X && IsRef(heap.objs, w)
    requires var ext := if counted then heap.held + multiset(heap.objs[w].fields) else heap.held;
             Releasing(h0, heap.objs, C0, X, ext, Z0)
    requires !counted ==> forall f :: f in heap.objs[w].fields ==> f == NULL || f in X
    requires Spared(h0, heap.objs, X, Z0, heap.held, K)
    requires Felled(h0, heap.objs, X, Z0)
    modifies heap`objs
    ensures Releasing(h0, heap.objs, C, X, heap.held, Z)
    ensures Spared(h0, heap.objs, X, Z, heap.held, K)
    ensures Felled(h0, heap.objs, X, Z)
    ensures CandidateSet(heap.objs) == old(CandidateSet(heap.objs))
    ensures C * X == C0 * X
  {
    hide Releasing, Accounts, Dropped, WellFormed, Spared, Felled;
    C, Z := C0, Z0;
    ghost var fields := heap.objs[w].fields;
    ReleaseFacts(h0, heap.objs, C, X, if counted then heap.held + multiset(fields) else heap.held, Z);
    var i := 0;
    assert fields[0..] == fields;
    while i < |heap.objs[w].fields|
      invariant IsRef(heap.objs, w) && heap.objs[w].fields == fields && 0 <= i <= |fields|
      invariant Releasing(h0, heap.objs, C, X, if counted then heap.held + multiset(fields[i..]) else heap.held, Z)
      invariant Spared(h0, heap.objs, X, Z, heap.held, K)
      invariant Felled(h0, heap.objs, X, Z)
      invariant CandidateSet(heap.objs) == old(CandidateSet(heap.objs))
      invariant C * X == C0 * X
    {
      var f := heap.objs[w].fields[i];
      assert f in fields;
      ghost var ext := if counted then heap.held + multiset(fields[i..]) else heap.held;
      ReleaseFacts(h0, heap.objs, C, X, ext, Z);
      NextLoose(heap.held, fields, i);
      FieldIsRef(heap.objs, w, i);
      if f != NULL {
        if heap.objs[f].state == Live {
          assert counted && f !in X;
          ghost var h := heap.objs;
          ghost var order := DecrementReferenceCount(heap, f, C, X, ext);
          ReleaseDrop(h0, h, heap.objs, C, X, ext, Z, f, order);
          SparedDrop(h0, h, heap.objs, C, X, ext, Z, f, order, heap.held, K);
          FelledDrop(h0, h, heap.objs, C, X, ext, Z, f, order, w);
          DroppedKeepsX(h, heap.objs, C, X, ext, f, order);
          C, Z := C - Elems(order), Z + Elems(order);
          ReleaseFacts(h0, heap.objs, C, X, ext - multiset{f}, Z);
        } else if counted {
          ReleaseSkip(h0, heap.objs, C, X, ext, Z, f);
        }
      } else if counted {
        ReleaseSkip(h0, heap.objs, C, X, ext, Z, f);
      }
      i := i + 1;
    }
    assert fields[|fields|..] == [];
    assert heap.held + multiset(fields[|fields|..]) == heap.held;
  }

  lemma FieldIsRef(h: seq<Object>, o: Ref, i: nat)
    requires WellFormed(h) && IsRef(h, o) && i < |h[o].fields|
    ensures h[o].fields[i] == NULL || IsRef(h, h[o].fields[i])
  {
  }

  lemma DroppedKeepsX(h: seq<Object>, h': seq<Object>, C: set<Ref>, X: set<Ref>, ext: multiset<Ref>, f: Ref,
                      order: seq<Ref>)
    requires Dropped(h, h', C, X, ext, f, order)
    ensures Elems(order) !! X
  {
    hide Accounts, Forest, DropClosed;
  }

  // ---------------------------------------------------- whole collection

  /** Condemned objects are not held, and no live object that is spared points to one. */
  lemma CondemnedSealed(h: seq<Object>, suspected: set<Ref>, held: multiset<Ref>)
    requires Consistent(h, suspected, held)
    ensures var X := Condemned(h, suspected);
            && (forall x :: x in X ==>
                  IsRef(h, x) && held[x] == 0 && (h[x].state == Live || h[x].state == WaitingForGc))
            && (forall o, x :: o in LiveSet(h) && o !in X && x in X ==> !Points(h, o, x))
  {
    hide Reach, OnCycle, WhiteSet, Verdict, Consistent;
    var X := Condemned(h, suspected);
    forall x | x in X
      ensures held[x] == 0 && (h[x].state == Live || h[x].state == WaitingForGc)
      ensures forall o :: o in LiveSet(h) && Points(h, o, x) ==> o in X
    {
      var r :| r in suspected && x in Verdict(h, r);
      VerdictSealed(h, suspected, held, r, x);
      forall o | o in LiveSet(h) && Points(h, o, x) ensures o in X {
        assert IsCondemned(h, suspected, o);
      }
    }
  }

  lemma VerdictSealed(h: seq<Object>, suspected: set<Ref>, held: multiset<Ref>, r: Ref, x: Ref)
    requires Consistent(h, suspected, held) && r in suspected && x in Verdict(h, r)
    ensures IsRef(h, x) && held[x] == 0 && (h[x].state == Live || h[x].state == WaitingForGc)
    ensures forall o :: o in LiveSet(h) && Points(h, o, x) ==> o in Verdict(h, r)
  {
    hide Reach, OnCycle, WhiteSet, Consistent;
    if OnCycle(h, r) {
      CyclicRoot(h, suspected, held, r);
      WhiteSealed(h, suspected, held, r);
    } else {
      ReachRefs(h, r);
      WaitingUnreferenced(h, suspected, held, x);
    }
  }

  lemma WaitingUnreferenced(h: seq<Object>, suspected: set<Ref>, held: multiset<Ref>, x: Ref)
    requires Consistent(h, suspected, held) && x in WaitingSet(h)
    ensures held[x] == 0 && forall o :: o in LiveSet(h) ==> !Points(h, o, x)
  {
    hide Forest, Acyclic;
    SlotsZero(h, LiveSet(h), x);
  }

  lemma ReleaseStart(h0: seq<Object>, h: seq<Object>, suspected: set<Ref>, held: multiset<Ref>, X: set<Ref>)
    requires Consistent(h0, suspected, held) && Marked(h0, h, X) && X == Condemned(h0, suspected)
    ensures Releasing(h0, h, LiveSet(h0), X, held, {})
    ensures Spared(h0, h, X, {}, held, Survivors(h0, held, X)) && Felled(h0, h, X, {})
    ensures Keeps(h0, held, X, Reach(h0, HeldSet(held)))
    ensures CandidateSet(h) == suspected
  {
    hide Reach, Condemned, Acyclic, Forest, Supported, WhiteSet, Accounts, Flagged, Consistent, Survivors;
    SurvivorsKeep(h0, held, X);
    var C := LiveSet(h0);
    CondemnedSealed(h0, suspected, held);
    ReleaseStartAccounts(h0, h, suspected, held, X);
    assert WaitingOf(h, {}) == {};
    ForestEmpty(h);
    ReachSupported(h0, held);
    LiveClosed(h0, suspected, held);
    ReachLeast(h0, HeldSet(held), C);
    assert Sealed(h0, C, held, X * C);
    SealedUnreached(h0, suspected, held, X * C);
    assert C - X == LiveSet(h);
    forall x | x in LiveSet(h) ensures h[x].count > 0 { LivePositive(h0, suspected, held, x); }
    ReleaseStartCandidates(h0, h, suspected, held, X);
  }

  lemma ReleaseStartCandidates(h0: seq<Object>, h: seq<Object>, suspected: set<Ref>, held: multiset<Ref>, X: set<Ref>)
    requires Consistent(h0, suspected, held) && Marked(h0, h, X)
    ensures CandidateSet(h) == suspected
  {
    hide Accounts, Forest, Acyclic, Flagged;
  }

  lemma ReleaseStartAccounts(h0: seq<Object>, h: seq<Object>, suspected: set<Ref>, held: multiset<Ref>, X: set<Ref>)
    requires Consistent(h0, suspected, held) && Marked(h0, h, X)
    requires forall o, x :: o in LiveSet(h0) && o !in X && x in X ==> !Points(h0, o, x)
    ensures Accounts(h, LiveSet(h0), X, held)
  {
    hide Forest, Acyclic, Flagged;
    var C := LiveSet(h0);
    forall x ensures Slots(h, C, x) == Slots(h0, C, x) { SlotsFrame(h, h0, C, x); }
    forall o, x ensures Points(h, o, x) <==> Points(h0, o, x) {}
  }

  lemma ForestEmpty(h: seq<Object>)
    ensures Forest(h, {})
  {
  }

  /** The release loop (src/gc/GC.cpp:210-228). */
  method ReleaseObjects(heap: Heap, collector: CycleCollector, roots0: set<Ref>, release: set<Ref>,
                        ghost h0: seq<Object>, ghost suspected: set<Ref>, ghost K: set<Ref>)
    returns (roots: set<Ref>, ghost Z: set<Ref>)
    requires Consistent(h0, suspected, heap.held) && WaitingSet(h0) <= release <= LiveSet(h0) + WaitingSet(h0)
    requires Releasing(h0, heap.objs, LiveSet(h0), release, heap.held, {})
    requires Spared(h0, heap.objs, release, {}, heap.held, K) && Felled(h0, heap.objs, release, {})
    requires roots0 + collector.suspected == CandidateSet(heap.objs)
    modifies heap`objs, collector
    ensures Releasing(h0, heap.objs, LiveSet(heap.objs), release, heap.held, Z)
    ensures Spared(h0, heap.objs, release, Z, heap.held, K) && Felled(h0, heap.objs, release, Z)
    ensures roots + collector.suspected == CandidateSet(heap.objs) - release
  {
    hide Releasing, Spared, Felled, Consistent, CandidateSet, LiveSet, WaitingSet;
    roots, Z := roots0, {};
    ghost var live := LiveSet(h0);
    ghost var C := live;
    ghost var candidates := CandidateSet(heap.objs);
    var todo := release;
    while todo != {}
      invariant todo <= release
      invariant Releasing(h0, heap.objs, C, release, heap.held, Z)
      invariant Spared(h0, heap.objs, release, Z, heap.held, K) && Felled(h0, heap.objs, release, Z)
      invariant C * release == todo * live
      invariant CandidateSet(heap.objs) == candidates
      invariant roots + collector.suspected == candidates - (release - todo)
      decreases |todo|
    {
      NonEmpty(todo);
      var x :| x in todo;
      ReleaseFacts(h0, heap.objs, C, release, heap.held, Z);
      CandidateIff(h0, heap.objs, candidates, x);
      Strike(roots, collector.suspected, candidates, release, todo, x);
      roots := roots - {x};
      if heap.objs[x].isCyclicType && heap.objs[x].asyncRelease {
        collector.suspected := collector.suspected - {x};
      }
      OpenNext(C, release, todo, live, x);
      ghost var counted := x in C;
      if counted {
        ReleaseOpen(h0, heap.objs, C, release, heap.held, Z, x);
      } else {
        assert x in WaitingSet(h0);
        TreeFields(h0, heap.objs, suspected, heap.held, release, x);
        assert C - {x} == C;
      }
      C := C - {x};
      todo := todo - {x};
      C, Z := ReleaseFields(heap, x, counted, h0, C, release, Z, K);
    }
    assert release - {} == release;
    ReleaseAllOpened(h0, heap.objs, C, release, heap.held, Z);
  }

  lemma OpenNext(C: set<Ref>, release: set<Ref>, todo: set<Ref>, live: set<Ref>, x: Ref)
    requires C * release == todo * live && x in todo && todo <= release
    ensures (C - {x}) * release == (todo - {x}) * live
    ensures x in C <==> x in live
  {
    assert x in C * release <==> x in todo * live;
    assert (C - {x}) * release == C * release - {x};
  }

  lemma Strike(roots: set<Ref>, suspected: set<Ref>, candidates: set<Ref>, release: set<Ref>, todo: set<Ref>, x: Ref)
    requires roots + suspected == candidates - (release - todo) && x in todo && todo <= release
    ensures roots - {x} + (suspected - {x}) == candidates - (release - (todo - {x}))
    ensures x !in candidates ==> roots - {x} + suspected == candidates - (release - (todo - {x}))
  {
    var all, left := roots + suspected, candidates - (release - (todo - {x}));
    forall y ensures y in roots - {x} + (suspected - {x}) <==> y in left {
      assert y in all <==> y in candidates - (release - todo);
    }
    assert x !in candidates ==> x !in all;
  }

  lemma ReleaseAllOpened(h0: seq<Object>, h: seq<Object>, C: set<Ref>, X: set<Ref>, ext: multiset<Ref>, Z: set<Ref>)
    requires Releasing(h0, h, C, X, ext, Z) && C * X == {}
    ensures Releasing(h0, h, LiveSet(h), X, ext, Z)
  {
    hide Accounts, Forest, Settled;
    forall x ensures x in C - X <==> x in C { assert x in C && x in X ==> x in C * X; }
    assert C - X == C;
  }

  lemma CandidateIff(h0: seq<Object>, h: seq<Object>, candidates: set<Ref>, x: Ref)
    requires candidates == CandidateSet(h) && IsRef(h, x) && h[x].state == WaitingForGc
    ensures x in candidates <==> h[x].isCyclicType && h[x].asyncRelease
  {
  }

  lemma TreeFields(h0: seq<Object>, h: seq<Object>, suspected: set<Ref>, held: multiset<Ref>, X: set<Ref>, x: Ref)
    requires Consistent(h0, suspected, held) && WaitingSet(h0) <= X && |h| == |h0|
    requires x in X && IsRef(h, x) && h[x] == h0[x].(state := WaitingForGc) && x !in LiveSet(h0)
    requires x in WaitingSet(h0)
    ensures forall f :: f in h[x].fields ==> f == NULL || f in X
  {
    hide Acyclic, Accounts, Reach;
    forall f | f in h[x].fields && f != NULL ensures f in X {
      var i :| 0 <= i < |h0[x].fields| && h0[x].fields[i] == f;
    }
  }

  /** Setting the condemned objects to dead restores the invariant. */
  lemma ReleaseEnd(h0: seq<Object>, h: seq<Object>, h': seq<Object>, suspected: set<Ref>, suspected': set<Ref>,
                   held: multiset<Ref>, X: set<Ref>, Z: set<Ref>)
    requires Consistent(h0, suspected, held) && X == Condemned(h0, suspected)
    requires Releasing(h0, h, LiveSet(h), X, held, Z) && WaitingSet(h0) <= X
    requires |h'| == |h| && forall x :: IsRef(h, x) ==> h'[x] == if x in X then h[x].(state := Dead) else h[x]
    requires suspected' == CandidateSet(h) - X
    ensures Consistent(h', suspected', held)
  {
    hide Reach, Condemned, Acyclic, Forest, Accounts, Settled;
    CondemnedSealed(h0, suspected, held);
    ReleaseEndSets(h0, h, h', X, Z, held);
    ReleaseEndAccounts(h0, h, h', X, Z, held);
    AccountsWellFormed(h, LiveSet(h), X, held);
    ForestFrame(h, h', WaitingOf(h, Z));
    ReleaseEndFlags(h0, h, h', X, Z, held);
    ReleaseEndAcyclic(h0, h, h', X, Z, held);
  }

  lemma ReleaseEndSets(h0: seq<Object>, h: seq<Object>, h': seq<Object>, X: set<Ref>, Z: set<Ref>, held: multiset<Ref>)
    requires Releasing(h0, h, LiveSet(h), X, held, Z) && WaitingSet(h0) <= X
    requires |h'| == |h| && forall x :: IsRef(h, x) ==> h'[x] == if x in X then h[x].(state := Dead) else h[x]
    ensures LiveSet(h') == LiveSet(h) && WaitingSet(h') == WaitingOf(h, Z) && CandidateSet(h') == CandidateSet(h) - X
    ensures PlainSet(h') <= PlainSet(h0)
    ensures forall o, x :: o in LiveSet(h') && Points(h', o, x) ==> Points(h0, o, x)
    ensures forall x :: x in WaitingOf(h, Z) ==> h'[x] == h[x]
  {
    hide Forest, Accounts;
  }

  lemma ReleaseEndAccounts(h0: seq<Object>, h: seq<Object>, h': seq<Object>, X: set<Ref>, Z: set<Ref>,
                           held: multiset<Ref>)
    requires Releasing(h0, h, LiveSet(h), X, held, Z) && (forall x :: x in X ==> held[x] == 0)
    requires |h'| == |h| && forall x :: IsRef(h, x) ==> h'[x] == if x in X then h[x].(state := Dead) else h[x]
    requires LiveSet(h') == LiveSet(h)
    ensures Accounts(h', LiveSet(h'), {}, held)
  {
    hide Forest, Settled;
    var C := LiveSet(h);
    forall x | IsRef(h, x) ensures Slots(h', C, x) == Slots(h, C, x) && (x in X ==> Slots(h, C, x) == 0) {
      SlotsFrame(h, h', C, x);
      SlotsZero(h, C, x);
    }
  }

  lemma ReleaseEndFlags(h0: seq<Object>, h: seq<Object>, h': seq<Object>, X: set<Ref>, Z: set<Ref>, held: multiset<Ref>)
    requires Releasing(h0, h, LiveSet(h), X, held, Z) && Flagged(h0)
    requires |h'| == |h| && forall x :: IsRef(h, x) ==> h'[x] == if x in X then h[x].(state := Dead) else h[x]
    ensures Flagged(h')
  {
    hide Forest, Accounts;
  }

  lemma ReleaseEndAcyclic(h0: seq<Object>, h: seq<Object>, h': seq<Object>, X: set<Ref>, Z: set<Ref>,
                          held: multiset<Ref>)
    requires Acyclic(h0, PlainSet(h0)) && PlainSet(h') <= PlainSet(h0) && |h'| == |h0|
    requires forall o, x :: o in LiveSet(h') && Points(h', o, x) ==> Points(h0, o, x)
    ensures Acyclic(h', PlainSet(h'))
  {
    hide Acyclic;
    AcyclicShrink(h0, h', PlainSet(h0), PlainSet(h'));
  }

  /** What a collection leaves behind: the objects of `X` are dead, some others have lost their
      last reference to them, the rest has only lost counts. */
  ghost predicate Collected(h: seq<Object>, h': seq<Object>, X: set<Ref>, Z: set<Ref>) {
    && |h'| == |h| && X !! Z
    && (forall x :: x in X ==> IsRef(h, x) && h'[x] == h[x].(state := Dead))
    && (forall x :: x in Z ==> IsRef(h, x) && h[x].state == Live && Settled(h[x], h'[x]))
    && (forall x :: IsRef(h, x) && x !in X && x !in Z ==>
          h'[x] == h[x].(count := h'[x].count) && h'[x].count <= h[x].count)
  }

  /** `gc_collect` (src/gc/GC.cpp:19-243). */
  method GcCollect(heap: Heap, collector: CycleCollector) returns (ghost zeroed: set<Ref>)
    requires Consistent(heap.objs, collector.suspected, heap.held) && heap.locked == {}
    modifies heap`objs, heap`locked, collector
    ensures Consistent(heap.objs, collector.suspected, heap.held) && heap.locked == {}
    ensures var X := Condemned(old(heap.objs), old(collector.suspected));
            && Collected(old(heap.objs), heap.objs, X, zeroed)
            && LiveSet(heap.objs) == LiveSet(old(heap.objs)) - X - zeroed == Survivors(old(heap.objs), heap.held, X)
            && Felled(old(heap.objs), heap.objs, X, zeroed)
    ensures forall x :: x in Reach(old(heap.objs), HeldSet(heap.held)) ==>
              && IsRef(heap.objs, x) && heap.objs[x].state == Live
              && heap.objs[x] == old(heap.objs[x]).(count := heap.objs[x].count)
  {
    hide Reach, Condemned, Consistent, Marked, Releasing, Spared, Felled, Verdict, CandidateSet, Survivors, Keeps,
         Collected;
    ghost var h0, suspected := heap.objs, collector.suspected;
    var roots := collector.suspected;
    collector.suspected := {};
    var release: set<Ref> := {};
    var todo := roots;
    MarkedStart(h0, suspected);
    while todo != {}
      invariant todo <= roots == suspected && collector.suspected == {}
      invariant Marked(h0, heap.objs, release) && heap.locked == {}
      invariant release == Condemned(h0, suspected - todo)
      decreases |todo|
    {
      NonEmpty(todo);
      var root :| root in todo;
      release := ProcessRoot(heap, root, release, h0, suspected);
      CondemnedNext(h0, suspected - todo, root);
      assert suspected - (todo - {root}) == suspected - todo + {root};
      todo := todo - {root};
    }
    assert suspected - {} == suspected;
    WaitingCondemned(h0, suspected, heap.held);
    CondemnedSealed(h0, suspected, heap.held);
    ReleaseStart(h0, heap.objs, suspected, heap.held, release);
    ghost var K := Survivors(h0, heap.held, release);
    roots, zeroed := ReleaseObjects(heap, collector, roots, release, h0, suspected, K);
    ghost var h := heap.objs;
    ReleaseFacts(h0, h, LiveSet(h), release, heap.held, zeroed);
    KillAll(heap, release);
    ReleaseEnd(h0, h, heap.objs, suspected, CandidateSet(h) - release, heap.held, release, zeroed);
    ReleaseCollected(h0, h, heap.objs, release, zeroed, heap.held, K);
    FelledKill(h0, h, heap.objs, release, zeroed);
    SurvivorsLive(h0, heap.objs, CandidateSet(h) - release, heap.held, release, zeroed);
    SurvivorsLargest(h0, heap.held, release, Reach(h0, HeldSet(heap.held)));
    Reinsert(collector, roots);
  }

  lemma MarkedStart(h: seq<Object>, suspected: set<Ref>)
    ensures Marked(h, h, {}) && Condemned(h, suspected - suspected) == {}
  {
  }

  lemma CondemnedNext(h: seq<Object>, roots: set<Ref>, r: Ref)
    ensures Condemned(h, roots + {r}) == Condemned(h, roots) + Verdict(h, r)
  {
    hide OnCycle, WhiteSet;
    forall x | x in Verdict(h, r) ensures 0 <= x < |h| {
      ReachRefs(h, r);
      VerdictReached(h, r);
    }
    forall x ensures IsCondemned(h, roots + {r}, x) <==> IsCondemned(h, roots, x) || x in Verdict(h, r) {
      if IsCondemned(h, roots, x) {
        var q :| q in roots && x in Verdict(h, q);
        assert q in roots + {r};
      }
      if x in Verdict(h, r) { assert r in roots + {r}; }
    }
  }

  lemma VerdictReached(h: seq<Object>, r: Ref)
    ensures Verdict(h, r) <= Reach(h, {r})
  {
    hide OnCycle, Reach;
  }

  lemma ReleaseCollected(h0: seq<Object>, h: seq<Object>, h': seq<Object>, X: set<Ref>, Z: set<Ref>,
                         held: multiset<Ref>, K: set<Ref>)
    requires Releasing(h0, h, LiveSet(h), X, held, Z) && Spared(h0, h, X, Z, held, K)
    requires |h'| == |h| && forall x :: IsRef(h, x) ==> h'[x] == if x in X then h[x].(state := Dead) else h[x]
    ensures Collected(h0, h', X, Z) && X !! Z
    ensures forall x :: x in K ==> IsRef(h', x) && h'[x].state == Live && h'[x] == h0[x].(count := h'[x].count)
  {
    hide Forest, Accounts, Settled, Supported;
  }

  /** The loop at src/gc/GC.cpp:230-232. */
  /** The objects that stay live are those that live on by themselves. */
  lemma SurvivorsLive(h: seq<Object>, h': seq<Object>, suspected': set<Ref>, held: multiset<Ref>, X: set<Ref>,
                      Z: set<Ref>)
    requires Collected(h, h', X, Z) && Consistent(h', suspected', held)
    requires forall x :: x in Survivors(h, held, X) ==> IsRef(h', x) && h'[x].state == Live
    ensures LiveSet(h') == LiveSet(h) - X - Z == Survivors(h, held, X)
  {
    hide Consistent, Survivors, Keeps;
    LiveKeeps(h, h', suspected', held, X, Z);
    SurvivorsLargest(h, held, X, LiveSet(h'));
    forall x ensures x in LiveSet(h') <==> x in LiveSet(h) - X - Z {
      if x in Z { assert Settled(h[x], h'[x]); }
    }
  }

  method KillAll(heap: Heap, release: set<Ref>)
    requires forall x :: x in release ==> IsRef(heap.objs, x)
    modifies heap`objs
    ensures |heap.objs| == |old(heap.objs)|
    ensures forall x :: IsRef(heap.objs, x) ==>
          heap.objs[x] == if x in release then old(heap.objs[x]).(state := Dead) else old(heap.objs[x])
  {
    var todo := release;
    while todo != {}
      invariant todo <= release && |heap.objs| == |old(heap.objs)|
      invariant forall x :: IsRef(heap.objs, x) ==>
                  heap.objs[x] == if x in release - todo then old(heap.objs[x]).(state := Dead) else old(heap.objs[x])
      decreases |todo|
    {
      NonEmpty(todo);
      var x :| x in todo;
      heap.objs := heap.objs[x := heap.objs[x].(state := Dead)];
      todo := todo - {x};
    }
  }

  /** The loop at src/gc/GC.cpp:234-238. */
  method Reinsert(collector: CycleCollector, roots: set<Ref>)
    modifies collector
    ensures collector.suspected == roots + old(collector.suspected)
  {
    var todo := roots;
    while todo != {}
      invariant todo <= roots && collector.suspected == (roots - todo) + old(collector.suspected)
      decreases |todo|
    {
      NonEmpty(todo);
      var x :| x in todo;
      collector.AddSuspected(x);
      todo := todo - {x};
    }
  }
}
