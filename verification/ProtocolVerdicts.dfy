/** In every run the collector judges each root as trial deletion does: no interference makes it take a
    root for cyclic that is not, or pass over one that is. */
module ProtocolVerdicts {
  import opened Memory
  import opened RefCount
  import opened Consistency
  import opened Protocol
  import opened ProtocolInvariant
  import opened ProtocolDrops
  import opened ProtocolCollector
  import opened ProtocolSafety
  import TrialDeletion

  lemma TraceFacts(s: Sys)
    requires Inv(s) && s.phase.Tracing?
    ensures IsRef(s.h, s.phase.root) && WellFormed(s.h)
    ensures TracingOk(s.h, Counted(s.h, s.release, s.phase), s.roots, s.phase)
  {
    hide Books, States, ThreadsOk, LocksOk, ListsOk, Counted, WellFormed, TracingAlive, TracingLost;
    InvParts(s);
  }

  /** The traced set is what the root reaches, and the root has been seen exactly if it is on a cycle. */
  lemma TracedCycle(h: seq<Object>, C: set<Ref>, roots: set<Ref>, p: Phase)
    requires p.Tracing? && TracingOk(h, C, roots, p) && IsRef(h, p.root) && h[p.root].count > 0 && WellFormed(h)
    requires p.at == NULL && Elems(p.found) == p.scanned
    ensures p.scanned == Reach(h, {p.root})
    ensures p.cyclic <==> TrialDeletion.OnCycle(h, p.root)
  {
    hide Reach;
    TracedReach(h, C, roots, p);
    if p.cyclic {
      var o, i :| IsRef(h, o) && Passed(p, o, i) && 0 <= i < |h[o].fields| && h[o].fields[i] == p.root;
      assert o in Reach(h, {p.root}) && Points(h, o, p.root);
    }
    if TrialDeletion.OnCycle(h, p.root) {
      var o :| o in Reach(h, {p.root}) && Points(h, o, p.root);
      var i :| 0 <= i < |h[o].fields| && h[o].fields[i] == p.root;
      assert Passed(p, o, i);
      assert SeenFrom(h, p, p.root);
    }
  }

  /** A root without references is on no cycle. */
  lemma LostNoCycle(h: seq<Object>, p: Phase)
    requires p.Tracing? && TracingLost(h, p) && p.root in p.found
    ensures !TrialDeletion.OnCycle(h, p.root)
  {
    hide Reach;
    var V :| Elems(p.found) <= V && NeverBack(h, V, p.root);
    assert p.root in Elems(p.found);
    ReachLeast(h, {p.root}, V);
  }

  /** When a trace ends, in any run, the collector goes on to count exactly if the root is on a cycle; and then
      exactly what the root reaches is locked. */
  lemma RunTraceExact(run: seq<Sys>, k: nat)
    requires IsRun(run) && k + 1 < |run| && TraceEndStep(run[k], run[k + 1])
    ensures var r := run[k].phase.root;
            && (run[k + 1].phase.Counting? <==> TrialDeletion.OnCycle(run[k].h, r))
            && (run[k + 1].phase.Counting? ==>
                  run[k + 1].phase.S == CollectorLocks(run[k].phase) == Reach(run[k].h, {r}))
            && (!run[k + 1].phase.Counting? ==> run[k + 1].phase == Unlocking(CollectorLocks(run[k].phase), r))
  {
    hide Inv, IsRun, TrialDeletion.OnCycle, TracingAlive, TracingLost, Counted, Reach, WellFormed;
    RunInv(run, k);
    var s := run[k];
    TraceFacts(s);
    if s.h[s.phase.root].count > 0 {
      TracedCycle(s.h, Counted(s.h, s.release, s.phase), s.roots, s.phase);
    } else {
      LostNoCycle(s.h, s.phase);
      LostNotCyclic(s.h, s.phase);
    }
  }

  lemma LostNotCyclic(h: seq<Object>, p: Phase)
    requires p.Tracing? && TracingLost(h, p)
    ensures !p.cyclic
  {
  }

  /** What is painted white, in any run, is the white set of trial deletion on memory with the counts that were
      read, for the root whose reachable objects are locked. */
  lemma RunPaintExact(run: seq<Sys>, k: nat)
    requires IsRun(run) && k + 1 < |run| && PaintStep(run[k], run[k + 1])
    ensures var h' := AsRead(run[k].h, run[k].phase.counts);
            run[k + 1].phase.Marking?
            && exists r :: IsRef(run[k].h, r) && run[k].phase.S == Reach(h', {r})
                 && run[k + 1].phase.white == TrialDeletion.WhiteSet(h', r)
  {
    hide Inv, IsRun, Reach, ReadOuter, TrialDeletion.WhiteSet, CountingOk;
    RunInv(run, k);
    var s := run[k];
    assert CountingOk(s.h, Counted(s.h, s.release, s.phase), s.phase.S, s.phase.counts) by { CountFacts(s); }
    PaintIsTrialDeletion(s.h, Counted(s.h, s.release, s.phase), s.phase.S, s.phase.counts);
  }

  lemma CountFacts(s: Sys)
    requires Inv(s) && s.phase.Counting?
    ensures CountingOk(s.h, Counted(s.h, s.release, s.phase), s.phase.S, s.phase.counts)
  {
    hide Books, States, ThreadsOk, LocksOk, ListsOk, Counted, CountingOk;
  }

  lemma WalkFacts(s: Sys)
    requires Inv(s) && s.phase.Walking?
    ensures WalkingOk(s.h, s.roots, s.phase.start, s.phase.pending, s.phase.seen) && WellFormed(s.h)
    ensures IsRef(s.h, s.phase.start)
  {
    hide Books, States, ThreadsOk, LocksOk, ListsOk, WalkingOk, WellFormed;
    InvParts(s);
    WalkStart(s.h, s.roots, s.phase.start, s.phase.pending, s.phase.seen);
  }

  lemma WalkStart(h: seq<Object>, roots: set<Ref>, start: Ref, pending: set<Ref>, seen: set<Ref>)
    requires WalkingOk(h, roots, start, pending, seen)
    ensures start in roots
  {
  }

  lemma WalkedReached(h: seq<Object>, start: Ref, seen: set<Ref>, x: Ref)
    requires WalkedTo(h, start, seen, x) && IsRef(h, x)
    ensures x in Reach(h, {start})
  {
    forall T | {start} <= T && Closed(h, T) ensures x in T {
      assert WalkClosed(h, start, seen, T);
    }
  }

  /** A walk that ends, in any run, condemns exactly what its root reaches, all of which waits. */
  lemma RunWalkExact(run: seq<Sys>, k: nat)
    requires IsRun(run) && k + 1 < |run| && WalkEndStep(run[k], run[k + 1])
    ensures var s := run[k];
            && run[k + 1].release == s.release + Reach(s.h, {s.phase.start})
            && TrialDeletion.AllWaiting(s.h, Reach(s.h, {s.phase.start}))
  {
    hide Inv, IsRun, Reach, WalkedTo, WellFormed, Backed;
    RunInv(run, k);
    var s := run[k];
    WalkFacts(s);
    forall x | x in s.phase.seen ensures x in Reach(s.h, {s.phase.start}) {
      WalkedReached(s.h, s.phase.start, s.phase.seen, x);
    }
    ReachLeast(s.h, {s.phase.start}, s.phase.seen);
    assert s.phase.seen == Reach(s.h, {s.phase.start});
  }

  /** A walk is given up, in any run, only if something its root reaches does not wait. */
  lemma RunWalkGivesUp(run: seq<Sys>, k: nat, x: Ref)
    requires IsRun(run) && k + 1 < |run| && WalkStep(run[k], run[k + 1], x)
    ensures run[k + 1].phase == NextRoot ==>
              !TrialDeletion.AllWaiting(run[k].h, Reach(run[k].h, {run[k].phase.start}))
    ensures run[k + 1].phase != NextRoot ==> x in run[k + 1].phase.seen
  {
    hide Inv, IsRun, Reach, WalkedTo, WellFormed, Backed;
    RunInv(run, k);
    var s := run[k];
    WalkFacts(s);
    WalkedReached(s.h, s.phase.start, s.phase.seen, x);
  }

  // ------------------------------------------------- every root gets its turn

  /** A collection is judging roots. */
  ghost predicate Underway(phase: Phase) {
    phase.NextRoot? || phase.Tracing? || phase.Counting? || phase.Marking? || phase.Unlocking? || phase.Walking?
  }

  /** The root `r` has been traced in one of the states from `i` to `j`. */
  ghost predicate Traced(run: seq<Sys>, i: nat, j: nat, r: Ref) {
    exists k :: i <= k <= j && k < |run| && run[k].phase.Tracing? && run[k].phase.root == r
  }

  /** A step of a collection that is judging takes up at most one root, and only that leaves the list. */
  lemma JudgingStep(s: Sys, s': Sys)
    requires Next(s, s') && Underway(s.phase) && !RootsDoneStep(s, s')
    ensures Underway(s'.phase)
    ensures forall r :: r in s.unprocessed ==> r in s'.unprocessed || (s'.phase.Tracing? && s'.phase.root == r)
  {
    if t :| ThreadStep(s, s', t) {
      hide CollectorStep, Underway;
      ThreadUnprocessed(s, s', t);
    } else {
      hide ThreadStep, Dropped, Reach, Slots;
    }
  }

  lemma ThreadUnprocessed(s: Sys, s': Sys, t: nat)
    requires ThreadStep(s, s', t)
    ensures s'.unprocessed == s.unprocessed && s'.phase == s.phase
  {
    hide Dropped;
  }

  lemma {:induction false} TracedSoFar(run: seq<Sys>, i: nat, j: nat, r: Ref)
    requires IsRun(run) && i < j < |run| && StartStep(run[i], run[i + 1]) && r in run[i].suspected
    requires forall m :: i < m < j ==> !RootsDoneStep(run[m], run[m + 1])
    ensures Underway(run[j].phase) && (r in run[j].unprocessed || Traced(run, i, j, r))
    decreases j
  {
    hide Next, Init, RootsDoneStep;
    if j > i + 1 {
      TracedSoFar(run, i, j - 1, r);
      assert Next(run[j - 1], run[j - 1 + 1]);
      JudgingStep(run[j - 1], run[j]);
      if r !in run[j - 1].unprocessed {
        var k :| i <= k <= j - 1 && k < |run| && run[k].phase.Tracing? && run[k].phase.root == r;
        assert Traced(run, i, j, r);
      }
    }
  }

  /** In every run, when a collection has judged all roots it has traced every object that was listed when
      it began. */
  lemma RunAllJudged(run: seq<Sys>, i: nat, j: nat, r: Ref)
    requires IsRun(run) && i < j && j + 1 < |run| && StartStep(run[i], run[i + 1]) && RootsDoneStep(run[j], run[j + 1])
    requires forall m :: i < m < j ==> !RootsDoneStep(run[m], run[m + 1])
    requires r in run[i].suspected
    ensures Traced(run, i, j, r)
  {
    TracedSoFar(run, i, j, r);
  }
}
