/** Steps of the collector keep the invariant: judging the roots. */
module ProtocolCollector {
  import opened Memory
  import opened RefCount
  import opened Consistency
  import opened Protocol
  import opened ProtocolInvariant
  import opened ProtocolThreads
  import opened ProtocolWrites
  import opened ProtocolDrops
  import TrialDeletion

  // ------------------------------------------------------- change of phase

  /** The phases `p` and `q` agree on which references count. */
  ghost predicate SameBooks(h: seq<Object>, release: set<Ref>, p: Phase, q: Phase) {
    && OpenedSet(release, q) == OpenedSet(release, p)
    && Condemning(release, q) == Condemning(release, p)
    && Pending(h, q) == Pending(h, p)
    && (Judging(q) ==> Judging(p) || Condemning(release, q) == {})
    && !q.Marking? && (p.Killing? ==> q.Killing? || release == {})
  }

  lemma ShiftBooks(h: seq<Object>, release: set<Ref>, p: Phase, q: Phase, held: multiset<Ref>)
    requires Books(h, release, p, held) && States(h, release, p) && SameBooks(h, release, p, q)
    ensures Books(h, release, q, held) && States(h, release, q) && Counted(h, release, q) == Counted(h, release, p)
  {
    hide Slots, Forest, Accounts, Pending, Condemning;
  }

  lemma ShiftLists(h: seq<Object>, suspected: set<Ref>, roots: set<Ref>, unprocessed: set<Ref>, release: set<Ref>,
                   p: Phase, q: Phase, threads: seq<Thread>)
    requires ListsOk(h, suspected, roots, unprocessed, release, p, threads)
    requires OpenedSet(release, q) == OpenedSet(release, p) && Judging(q) == Judging(p)
    ensures ListsOk(h, suspected, roots, unprocessed, release, q, threads)
  {
  }

  lemma ShiftLocks(cells: nat, locks: seq<Owner>, listLock: Owner, threads: seq<Thread>, p: Phase, q: Phase)
    requires LocksOk(cells, locks, listLock, threads, p) && CollectorLocks(q) == CollectorLocks(p)
    ensures LocksOk(cells, locks, listLock, threads, q)
  {
  }

  /** A step that changes nothing but the phase, among phases that judge, with the same locks. */
  lemma ShiftKeeps(s: Sys, s': Sys)
    requires Inv(s) && s' == s.(phase := s'.phase)
    requires SameBooks(s.h, s.release, s.phase, s'.phase) && Judging(s'.phase) == Judging(s.phase)
    requires CollectorLocks(s'.phase) == CollectorLocks(s.phase)
    requires PhaseOk(s'.h, s'.roots, s'.release, s'.phase)
    ensures Inv(s')
  {
    hide Books, States, ThreadsOk, LocksOk, ListsOk, PhaseOk, CollectorLocks, Pending, Condemning;
    ShiftBooks(s.h, s.release, s.phase, s'.phase, Total(s.threads));
    ShiftLists(s.h, s.suspected, s.roots, s.unprocessed, s.release, s.phase, s'.phase, s.threads);
    ShiftLocks(|s.h|, s.locks, s.listLock, s.threads, s.phase, s'.phase);
  }

  lemma InvParts(s: Sys)
    requires Inv(s)
    ensures Books(s.h, s.release, s.phase, Total(s.threads)) && States(s.h, s.release, s.phase) && WellFormed(s.h)
    ensures PhaseOk(s.h, s.roots, s.release, s.phase)
    ensures forall r :: r in s.roots ==> IsRef(s.h, r) && s.h[r].state != Dead && s.h[r].Candidate()
    ensures Judging(s.phase) ==> s.unprocessed <= s.roots && Closed(s.h, Counted(s.h, s.release, s.phase))
  {
    hide Books, States, ThreadsOk, LocksOk, PhaseOk, Counted, WellFormed, Closed;
    BooksWellFormed(s.h, s.release, s.phase, Total(s.threads));
    if Judging(s.phase) { CountedClosed(s.h, s.release, s.phase, Total(s.threads)); }
  }

  lemma StartKeeps(s: Sys, s': Sys)
    requires Inv(s) && StartStep(s, s')
    ensures Inv(s')
  {
    hide Books, States, ThreadsOk, LocksOk;
    ShiftBooks(s.h, s.release, s.phase, s'.phase, Total(s.threads));
    ShiftLocks(|s.h|, s.locks, s.listLock, s.threads, s.phase, s'.phase);
  }

  // --------------------------------------------------------------- tracing

  /** Nothing leads back to a root that has lost its references. */
  lemma RootLost(h: seq<Object>, release: set<Ref>, phase: Phase, r: Ref)
    requires States(h, release, phase) && WellFormed(h) && !phase.Killing?
    requires IsRef(h, r) && h[r].state != Dead && h[r].Candidate() && h[r].count == 0
    ensures exists V :: r in V && NeverBack(h, V, r)
  {
    hide Forest;
    if r in release {
      var V := set x | x in release && IsRef(h, x) && h[x].count == 0;
      assert r in V && NeverBack(h, V, r);
    } else {
      var V := TreeSet(h, release);
      ForestClosed(h, V);
      forall o | o in V ensures !Points(h, o, r) {
        if r in h[o].fields { TreeField(h, V, o, r); }
      }
      assert r in V && NeverBack(h, V, r);
    }
  }

  lemma RootKeeps(s: Sys, s': Sys, r: Ref)
    requires Inv(s) && RootStep(s, s', r)
    ensures Inv(s')
  {
    hide Books, States, ThreadsOk, LocksOk, ListsOk, PhaseOk;
    InvParts(s);
    ShiftBooks(s.h, s.release, s.phase, s'.phase, Total(s.threads));
    RootLists(s, s', r);
    RootPhase(s.h, s.roots, s.release, s'.phase, r);
    assert CollectorLocks(s'.phase) == {};
    ShiftLocks(|s.h|, s.locks, s.listLock, s.threads, s.phase, s'.phase);
  }

  lemma RootLists(s: Sys, s': Sys, r: Ref)
    requires ListsOk(s.h, s.suspected, s.roots, s.unprocessed, s.release, s.phase, s.threads) && RootStep(s, s', r)
    ensures ListsOk(s'.h, s'.suspected, s'.roots, s'.unprocessed, s'.release, s'.phase, s'.threads)
  {
  }

  lemma RootPhase(h: seq<Object>, roots: set<Ref>, release: set<Ref>, p: Phase, r: Ref)
    requires States(h, release, p) && WellFormed(h) && p == Tracing(r, [r], {}, NULL, 0, false)
    requires r in roots && IsRef(h, r) && h[r].state != Dead && h[r].Candidate()
    ensures PhaseOk(h, roots, release, p)
  {
    hide States, WellFormed;
    assert forall o, i: int :: IsRef(h, o) ==> !Passed(p, o, i);
    if h[r].count == 0 {
      RootLost(h, release, p, r);
      var V :| r in V && NeverBack(h, V, r);
      assert Elems([r]) <= V;
    }
  }

  lemma TraceLockKeeps(s: Sys, s': Sys, o: Ref)
    requires Inv(s) && TraceLockStep(s, s', o)
    ensures Inv(s')
  {
    hide Books, States, ThreadsOk, LocksOk, ListsOk, PhaseOk;
    ShiftBooks(s.h, s.release, s.phase, s'.phase, Total(s.threads));
    ShiftLists(s.h, s.suspected, s.roots, s.unprocessed, s.release, s.phase, s'.phase, s.threads);
    LockTaken(s, s', o);
    TraceLockPhase(s.h, s.roots, s.release, s.phase, o);
  }

  lemma LockTaken(s: Sys, s': Sys, o: Ref)
    requires ThreadsOk(s.h, s.locks, s.listLock, s.threads) && LocksOk(|s.h|, s.locks, s.listLock, s.threads, s.phase)
    requires TraceLockStep(s, s', o)
    ensures ThreadsOk(s'.h, s'.locks, s'.listLock, s'.threads)
    ensures LocksOk(|s'.h|, s'.locks, s'.listLock, s'.threads, s'.phase)
  {
    forall t | 0 <= t < |s.threads| ensures ThreadOk(s'.h, s'.locks, s'.listLock, t, s'.threads[t]) {
      assert ThreadOk(s.h, s.locks, s.listLock, t, s.threads[t]);
    }
  }

  lemma TraceLockPhase(h: seq<Object>, roots: set<Ref>, release: set<Ref>, p: Phase, o: Ref)
    requires PhaseOk(h, roots, release, p) && p.Tracing? && p.at == NULL && o in p.found && o !in p.scanned
    ensures PhaseOk(h, roots, release, p.(at := o, slot := 0))
  {
    var q := p.(at := o, slot := 0);
    assert Counted(h, release, q) == Counted(h, release, p);
    SameSeen(h, p, q);
  }

  /** The same slots have been passed. */
  lemma SameSeen(h: seq<Object>, p: Phase, q: Phase)
    requires p.Tracing? && q.Tracing? && q.found == p.found
    requires forall o, i: int :: IsRef(h, o) && 0 <= i < |h[o].fields| ==> (Passed(p, o, i) <==> Passed(q, o, i))
    ensures forall x :: SeenFrom(h, p, x) <==> SeenFrom(h, q, x)
    ensures forall k: int, x :: SeenBy(h, p, k, x) ==> SeenBy(h, q, k, x)
  {
    forall x ensures SeenFrom(h, p, x) <==> SeenFrom(h, q, x) {
      if SeenFrom(h, p, x) {
        var o, i :| IsRef(h, o) && Passed(p, o, i) && 0 <= i < |h[o].fields| && h[o].fields[i] == x;
        assert Passed(q, o, i);
      }
      if SeenFrom(h, q, x) {
        var o, i :| IsRef(h, o) && Passed(q, o, i) && 0 <= i < |h[o].fields| && h[o].fields[i] == x;
        assert Passed(p, o, i);
      }
    }
    forall k: int, x | SeenBy(h, p, k, x) ensures SeenBy(h, q, k, x) { SeenByMore(h, p, q, k, x); }
  }

  /** What has been seen stays seen while more is passed and found. */
  lemma SeenByMore(h: seq<Object>, p: Phase, q: Phase, k: int, x: Ref)
    requires p.Tracing? && q.Tracing? && p.found <= q.found && SeenBy(h, p, k, x)
    requires forall o, i: int :: IsRef(h, o) && 0 <= i < |h[o].fields| ==> (Passed(p, o, i) ==> Passed(q, o, i))
    ensures SeenBy(h, q, k, x)
  {
    var j, i :|
      && 0 <= j < k && j < |p.found| && IsRef(h, p.found[j]) && Passed(p, p.found[j], i)
      && 0 <= i < |h[p.found[j]].fields| && h[p.found[j]].fields[i] == x;
    assert q.found[j] == p.found[j] && Passed(q, q.found[j], i);
  }

  /** One more slot has been passed. */
  lemma MoreSeen(h: seq<Object>, p: Phase, q: Phase)
    requires p.Tracing? && IsRef(h, p.at) && p.slot < |h[p.at].fields| && p.at !in p.scanned && p.at in p.found
    requires q.Tracing? && q.at == p.at && q.slot == p.slot + 1 && q.scanned == p.scanned && p.found <= q.found
    ensures forall x :: SeenFrom(h, p, x) ==> SeenFrom(h, q, x)
    ensures SeenFrom(h, q, h[p.at].fields[p.slot])
    ensures forall x :: SeenFrom(h, q, x) ==> SeenFrom(h, p, x) || x == h[p.at].fields[p.slot]
    ensures forall k: int, x :: SeenBy(h, p, k, x) ==> SeenBy(h, q, k, x)
    ensures SeenBy(h, q, |p.found|, h[p.at].fields[p.slot])
  {
    forall x | SeenFrom(h, p, x) ensures SeenFrom(h, q, x) {
      var o, i :| IsRef(h, o) && Passed(p, o, i) && 0 <= i < |h[o].fields| && h[o].fields[i] == x;
      assert Passed(q, o, i);
    }
    assert Passed(q, p.at, p.slot);
    forall x | SeenFrom(h, q, x) && x != h[p.at].fields[p.slot] ensures SeenFrom(h, p, x) {
      var o, i :| IsRef(h, o) && Passed(q, o, i) && 0 <= i < |h[o].fields| && h[o].fields[i] == x;
      assert Passed(p, o, i);
    }
    forall k: int, x | SeenBy(h, p, k, x) ensures SeenBy(h, q, k, x) { SeenByMore(h, p, q, k, x); }
    var j :| 0 <= j < |p.found| && p.found[j] == p.at;
    assert q.found[j] == p.at && Passed(q, q.found[j], p.slot);
  }

  lemma TraceFieldAlive(h: seq<Object>, C: set<Ref>, p: Phase, q: Phase)
    requires p.Tracing? && TracingAlive(h, C, p) && Closed(h, C) && WellFormed(h) && p.root in p.found
    requires IsRef(h, p.root)
    requires IsRef(h, p.at) && p.slot < |h[p.at].fields| && p.at !in p.scanned && p.at in p.found
    requires q == TraceNext(h, p)
    ensures TracingAlive(h, C, q)
  {
    hide SeenFrom, SeenBy;
    var f := h[p.at].fields[p.slot];
    MoreSeen(h, p, q);
    forall k | 1 <= k < |q.found| ensures SeenBy(h, q, k, q.found[k]) {
      if k < |p.found| { assert SeenBy(h, p, k, p.found[k]); }
    }
    assert f != NULL ==> Points(h, p.at, f) && f in C;
    forall o, i | IsRef(h, o) && Passed(q, o, i) && 0 <= i < |h[o].fields| && h[o].fields[i] != NULL
      ensures h[o].fields[i] in q.found
    {
      assert Passed(p, o, i) || (o == p.at && i == p.slot);
    }
  }

  lemma TraceFieldLost(h: seq<Object>, p: Phase, q: Phase)
    requires p.Tracing? && TracingLost(h, p) && WellFormed(h)
    requires IsRef(h, p.at) && p.slot < |h[p.at].fields| && p.at in p.found
    requires q == TraceNext(h, p)
    ensures TracingLost(h, q)
  {
    var f := h[p.at].fields[p.slot];
    var V :| Elems(p.found) <= V && NeverBack(h, V, p.root);
    assert p.at in Elems(p.found);
    assert f != NULL ==> Points(h, p.at, f) && f in V && f != p.root;
    assert Elems(q.found) <= V;
  }

  lemma TraceFieldKeeps(s: Sys, s': Sys)
    requires Inv(s) && TraceFieldStep(s, s')
    ensures Inv(s')
  {
    hide Books, States, WellFormed, Closed, TracingAlive, TracingLost, ThreadsOk, LocksOk, ListsOk;
    InvParts(s);
    var p, q := s.phase, s'.phase;
    assert q == TraceNext(s.h, p);
    var C := Counted(s.h, s.release, p);
    assert Counted(s.h, s.release, q) == C;
    if s.h[p.root].count > 0 { TraceFieldAlive(s.h, C, p, q); } else { TraceFieldLost(s.h, p, q); }
    TraceFieldRef(s.h, p);
    assert Elems(p.found) <= Elems(q.found);
    ShiftKeeps(s, s');
  }

  lemma TraceFieldRef(h: seq<Object>, p: Phase)
    requires p.Tracing? && IsRef(h, p.at) && p.slot < |h[p.at].fields| && WellFormed(h)
    ensures h[p.at].fields[p.slot] == NULL || IsRef(h, h[p.at].fields[p.slot])
  {
  }

  lemma TraceDoneKeeps(s: Sys, s': Sys)
    requires Inv(s) && TraceDoneStep(s, s')
    ensures Inv(s')
  {
    hide Books, States, ThreadsOk, LocksOk, ListsOk, SeenFrom, SeenBy;
    var p, q := s.phase, s'.phase;
    assert Counted(s.h, s.release, q) == Counted(s.h, s.release, p);
    SameSeen(s.h, p, q);
    ShiftKeeps(s, s');
  }

  lemma TraceEndKeeps(s: Sys, s': Sys)
    requires Inv(s) && TraceEndStep(s, s')
    ensures Inv(s')
  {
    hide Books, States, ThreadsOk, LocksOk, ListsOk, TracingAlive, WellFormed;
    InvParts(s);
    var p, q := s.phase, s'.phase;
    var C := Counted(s.h, s.release, p);
    assert Counted(s.h, s.release, q) == C;
    if p.cyclic { TracedCounting(s.h, C, s.roots, p); }
    ShiftKeeps(s, s');
  }

  /** What was traced from a root with references is what it reaches. */
  lemma TracedReach(h: seq<Object>, C: set<Ref>, roots: set<Ref>, p: Phase)
    requires p.Tracing? && TracingOk(h, C, roots, p) && IsRef(h, p.root) && h[p.root].count > 0 && WellFormed(h)
    requires p.at == NULL && Elems(p.found) == p.scanned
    ensures p.scanned == Reach(h, {p.root}) && Closed(h, p.scanned)
  {
    hide Reach;
    var S := p.scanned;
    forall o, x | o in S && Points(h, o, x) ensures x in S {
      var i :| 0 <= i < |h[o].fields| && h[o].fields[i] == x;
      assert Passed(p, o, i);
    }
    forall x | x in S ensures x in Reach(h, {p.root}) {
      var k :| 0 <= k < |p.found| && p.found[k] == x;
      FoundReached(h, p, k);
    }
    ReachLeast(h, {p.root}, S);
  }

  /** A root on a cycle has references, and what was traced from it is closed. */
  lemma TracedCounting(h: seq<Object>, C: set<Ref>, roots: set<Ref>, p: Phase)
    requires p.Tracing? && TracingOk(h, C, roots, p) && p.cyclic && p.at == NULL && Elems(p.found) == p.scanned
    requires WellFormed(h)
    ensures CountingOk(h, C, p.scanned, map[])
  {
    hide Reach;
    forall x | x in p.scanned ensures x in C && IsRef(h, x) { assert x in p.found; }
    FoundBacked(h, C, roots, p);
    TracedReach(h, C, roots, p);
  }

  /** Whatever is found is reached from the root. */
  lemma {:induction false} FoundReached(h: seq<Object>, p: Phase, k: nat)
    requires p.Tracing? && k < |p.found| && p.found[0] == p.root && (forall x :: x in p.found ==> IsRef(h, x))
    requires forall l :: 1 <= l < |p.found| ==> SeenBy(h, p, l, p.found[l])
    ensures p.found[k] in Reach(h, {p.root})
    decreases k
  {
    hide Reach;
    ReachClosed(h, {p.root});
    if k > 0 {
      var j, i :|
        && 0 <= j < k && j < |p.found| && IsRef(h, p.found[j]) && Passed(p, p.found[j], i)
        && 0 <= i < |h[p.found[j]].fields| && h[p.found[j]].fields[i] == p.found[k];
      FoundReached(h, p, j);
      assert p.found[k] in p.found && Points(h, p.found[j], p.found[k]);
    }
  }

  // -------------------------------------------------------------- counting

  /** No count is less than the references from the traced set. */
  lemma InnerCount(h: seq<Object>, release: set<Ref>, phase: Phase, held: multiset<Ref>, S: set<Ref>, x: Ref)
    requires Books(h, release, phase, held) && Judging(phase) && S <= Counted(h, release, phase) && x in S
    ensures IsRef(h, x) && h[x].count == Slots(h, S, x) + Slots(h, Counted(h, release, phase) - S, x) + held[x]
  {
    hide Slots;
    SlotsSplit(h, Counted(h, release, phase), S, x);
    assert Pending(h, phase) == multiset{};
    assert held + multiset{} == held;
  }

  lemma ReadCountKeeps(s: Sys, s': Sys, x: Ref)
    requires Inv(s) && ReadCountStep(s, s', x)
    ensures Inv(s')
  {
    hide Books, States, ThreadsOk, LocksOk, ListsOk, Closed, Backed, Slots;
    InnerCount(s.h, s.release, s.phase, Total(s.threads), s.phase.S, x);
    assert Counted(s.h, s.release, s'.phase) == Counted(s.h, s.release, s.phase);
    ShiftKeeps(s, s');
  }

  /** A white object is referenced by white objects only: all its references come from the traced
      set, although its count was read while mutators were running. */
  lemma WhiteSealed(h: seq<Object>, release: set<Ref>, phase: Phase, held: multiset<Ref>, S: set<Ref>,
                    counts: map<Ref, nat>, x: Ref)
    requires Books(h, release, phase, held) && Judging(phase) && CountingOk(h, Counted(h, release, phase), S, counts)
    requires counts.Keys == S
    requires x in S - Reach(h, ReadOuter(h, S, counts))
    ensures held[x] == 0 && IsRef(h, x)
    ensures forall o :: o in Counted(h, release, phase) && Points(h, o, x) ==>
          o in S - Reach(h, ReadOuter(h, S, counts))
  {
    hide Slots, Books, Reach, Closed, Backed;
    var C, outer := Counted(h, release, phase), ReadOuter(h, S, counts);
    InnerCount(h, release, phase, held, S, x);
    ReachClosed(h, outer);
    assert x !in outer;
    assert counts[x] == Slots(h, S, x);
    SlotsZero(h, C - S, x);
    forall o | o in C && Points(h, o, x) ensures o in S - Reach(h, outer) {
      assert o in S;
      NotReached(h, outer, o, x);
    }
  }

  lemma NotReached(h: seq<Object>, A: set<Ref>, o: Ref, x: Ref)
    requires Points(h, o, x) && x !in Reach(h, A)
    ensures o !in Reach(h, A)
  {
    hide Reach;
    ReachClosed(h, A);
  }

  /** Memory with the counts that were read. */
  function AsRead(h: seq<Object>, counts: map<Ref, nat>): seq<Object> {
    seq(|h|, x requires 0 <= x < |h| => if x in counts then h[x].(count := counts[x]) else h[x])
  }

  /** Painting comes to the verdict of trial deletion on memory as it was read: from that memory the gray
      phase may start, and Collector.GrayPhase and Collector.WhiteBlackPhase compute the set painted here. */
  lemma PaintIsTrialDeletion(h: seq<Object>, C: set<Ref>, S: set<Ref>, counts: map<Ref, nat>)
    requires CountingOk(h, C, S, counts) && counts.Keys == S
    ensures var h' := AsRead(h, counts);
            exists r :: IsRef(h, r) && S == Reach(h', {r})
              && (forall x :: x in S ==> IsRef(h', x) && Slots(h', S, x) <= h'[x].count)
              && S - Reach(h, ReadOuter(h, S, counts)) == TrialDeletion.WhiteSet(h', r)
  {
    hide Reach, Slots, Closed, Backed;
    var h' := AsRead(h, counts);
    var r :| IsRef(h, r) && S == Reach(h, {r});
    ReachFrame(h, h', {r});
    forall x ensures Slots(h', S, x) == Slots(h, S, x) { SlotsFrame(h, h', S, x); }
    assert forall x :: x in ReadOuter(h, S, counts) <==> x in TrialDeletion.External(h', S);
    assert ReadOuter(h, S, counts) == TrialDeletion.External(h', S);
    ReachLeast(h, ReadOuter(h, S, counts), S);
    ReachFrame(h, h', ReadOuter(h, S, counts));
    assert S - Reach(h, ReadOuter(h, S, counts)) == TrialDeletion.WhiteSet(h', r);
  }

  lemma PaintBooks(h: seq<Object>, release: set<Ref>, phase: Phase, held: multiset<Ref>, white: set<Ref>, q: Phase)
    requires Books(h, release, phase, held) && phase.Counting? && q.Marking? && q.white == white
    requires white <= Counted(h, release, phase)
    requires forall x :: x in white ==> held[x] == 0 && IsRef(h, x)
    requires forall x, o :: x in white && o in Counted(h, release, phase) && Points(h, o, x) ==> o in white
    ensures Books(h, release, q, held)
  {
    hide Slots, Points;
    assert Counted(h, release, q) == Counted(h, release, phase);
    assert Condemning(release, q) == Condemning(release, phase) + white;
    assert Pending(h, phase) == multiset{} == Pending(h, q);
    assert held + multiset{} == held;
  }

  lemma PaintKeeps(s: Sys, s': Sys)
    requires Inv(s) && PaintStep(s, s')
    ensures Inv(s')
  {
    hide Books, ThreadsOk, LocksOk, ListsOk, Slots, ReadOuter, Reach, Closed, Backed, Forest;
    var C, S, counts, white := Counted(s.h, s.release, s.phase), s.phase.S, s.phase.counts, s'.phase.white;
    forall x | x in white ensures Total(s.threads)[x] == 0 && IsRef(s.h, x) {
      WhiteSealed(s.h, s.release, s.phase, Total(s.threads), S, counts, x);
    }
    forall x, o | x in white && o in C && Points(s.h, o, x) ensures o in white {
      WhiteSealed(s.h, s.release, s.phase, Total(s.threads), S, counts, x);
    }
    PaintBooks(s.h, s.release, s.phase, Total(s.threads), white, s'.phase);
    ShiftLists(s.h, s.suspected, s.roots, s.unprocessed, s.release, s.phase, s'.phase, s.threads);
    ShiftLocks(|s.h|, s.locks, s.listLock, s.threads, s.phase, s'.phase);
  }

  // --------------------------------------------------------------- marking

  lemma MarkBooks(h: seq<Object>, release: set<Ref>, phase: Phase, held: multiset<Ref>, x: Ref)
    requires Books(h, release, phase, held) && States(h, release, phase) && phase.Marking? && x in phase.white
    requires IsRef(h, x)
    ensures var h' := h[x := h[x].(state := WaitingForGc)];
            Books(h', release + {x}, phase.(white := phase.white - {x}), held)
  {
    hide Slots, Forest;
    var h', q := h[x := h[x].(state := WaitingForGc)], phase.(white := phase.white - {x});
    var C := Counted(h, release, phase);
    assert Condemning(release + {x}, q) == Condemning(release, phase);
    assert forall y :: y in Counted(h', release + {x}, q) <==> y in C;
    assert Counted(h', release + {x}, q) == C;
    forall y ensures Slots(h', C, y) == Slots(h, C, y) { SlotsFrame(h, h', C, y); }
    assert forall o, y :: Points(h', o, y) <==> Points(h, o, y);
  }

  lemma MarkStates(h: seq<Object>, release: set<Ref>, phase: Phase, x: Ref)
    requires States(h, release, phase) && WellFormed(h) && phase.Marking? && x in phase.white && IsRef(h, x)
    ensures var h' := h[x := h[x].(state := WaitingForGc)];
            States(h', release + {x}, phase.(white := phase.white - {x}))
  {
    hide Forest;
    var h' := h[x := h[x].(state := WaitingForGc)];
    assert TreeSet(h', release + {x}) == TreeSet(h, release);
    ForestFrame(h, h', TreeSet(h, release));
  }

  /** A change of state by the collector does not concern the threads. */
  lemma StateThreads(s: Sys, s': Sys)
    requires ThreadsOk(s.h, s.locks, s.listLock, s.threads) && |s'.h| == |s.h|
    requires s'.locks == s.locks && s'.listLock == s.listLock && s'.threads == s.threads
    requires forall x :: IsRef(s.h, x) ==> s'.h[x] == s.h[x].(state := s'.h[x].state)
    ensures ThreadsOk(s'.h, s'.locks, s'.listLock, s'.threads)
  {
    forall t | 0 <= t < |s.threads| ensures ThreadOk(s'.h, s'.locks, s'.listLock, t, s'.threads[t]) {
      assert ThreadOk(s.h, s.locks, s.listLock, t, s.threads[t]);
    }
  }

  lemma MarkLists(s: Sys, s': Sys, x: Ref)
    requires ListsOk(s.h, s.suspected, s.roots, s.unprocessed, s.release, s.phase, s.threads) && MarkStep(s, s', x)
    requires s.h[x].state != Dead
    ensures ListsOk(s'.h, s'.suspected, s'.roots, s'.unprocessed, s'.release, s'.phase, s'.threads)
  {
  }

  lemma MarkKeeps(s: Sys, s': Sys, x: Ref)
    requires Inv(s) && MarkStep(s, s', x)
    ensures Inv(s')
  {
    hide Books, ThreadsOk, LocksOk, ListsOk, WellFormed, Forest;
    InvParts(s);
    MarkBooks(s.h, s.release, s.phase, Total(s.threads), x);
    MarkStates(s.h, s.release, s.phase, x);
    MarkLists(s, s', x);
    StateThreads(s, s');
    ShiftLocks(|s.h|, s.locks, s.listLock, s.threads, s.phase, s'.phase);
  }

  lemma MarkedKeeps(s: Sys, s': Sys)
    requires Inv(s) && MarkedStep(s, s')
    ensures Inv(s')
  {
    hide Books, States, ThreadsOk, LocksOk, ListsOk;
    ShiftKeeps(s, s');
  }

  // ------------------------------------------------------------- unlocking

  lemma CollectorUnlockKeeps(s: Sys, s': Sys, x: Ref)
    requires Inv(s) && CollectorUnlockStep(s, s', x)
    ensures Inv(s')
  {
    hide Books, States, ThreadsOk, LocksOk, ListsOk;
    ShiftBooks(s.h, s.release, s.phase, s'.phase, Total(s.threads));
    ShiftLists(s.h, s.suspected, s.roots, s.unprocessed, s.release, s.phase, s'.phase, s.threads);
    LockFreed(s, s', x);
  }

  lemma LockFreed(s: Sys, s': Sys, x: Ref)
    requires ThreadsOk(s.h, s.locks, s.listLock, s.threads) && LocksOk(|s.h|, s.locks, s.listLock, s.threads, s.phase)
    requires CollectorUnlockStep(s, s', x)
    ensures ThreadsOk(s'.h, s'.locks, s'.listLock, s'.threads)
    ensures LocksOk(|s'.h|, s'.locks, s'.listLock, s'.threads, s'.phase)
  {
    assert CollectorLocks(s'.phase) <= CollectorLocks(s.phase);
    forall t | 0 <= t < |s.threads| ensures ThreadOk(s'.h, s'.locks, s'.listLock, t, s'.threads[t]) {
      assert ThreadOk(s.h, s.locks, s.listLock, t, s.threads[t]);
    }
  }

  lemma UnlockedKeeps(s: Sys, s': Sys)
    requires Inv(s) && UnlockedStep(s, s')
    ensures Inv(s')
  {
    hide Books, States, ThreadsOk, LocksOk, ListsOk;
    InvParts(s);
    ShiftKeeps(s, s');
  }

  // --------------------------------------------------------------- walking

  lemma WalkKeeps(s: Sys, s': Sys, x: Ref)
    requires Inv(s) && WalkStep(s, s', x)
    ensures Inv(s')
  {
    hide Books, States, ThreadsOk, LocksOk, ListsOk, WalkingOk;
    InvParts(s);
    if s'.phase.Walking? { WalkMore(s.h, s.roots, s.phase.start, s.phase.pending, s.phase.seen, x); }
    ShiftKeeps(s, s');
  }

  lemma WalkMore(h: seq<Object>, roots: set<Ref>, start: Ref, pending: set<Ref>, seen: set<Ref>, x: Ref)
    requires WalkingOk(h, roots, start, pending, seen) && WellFormed(h) && x in pending && IsRef(h, x)
    requires h[x].state == WaitingForGc
    ensures WalkingOk(h, roots, start, pending - {x} + (FieldSet(h, x) - (seen + {x})), seen + {x})
  {
    var seen', pending' := seen + {x}, pending - {x} + (FieldSet(h, x) - (seen + {x}));
    forall y | (y in seen' || y in pending') && y != start ensures Backed(h, seen', y) {
      if y in seen || y in pending {
        var o :| o in seen && Points(h, o, y);
        assert o in seen';
      } else {
        assert Points(h, x, y);
      }
    }
    forall o, f | o in seen' && Points(h, o, f) ensures f in seen' || f in pending' {}
    forall y | y in seen' || y in pending' ensures WalkedTo(h, start, seen', y) { WalkedMore(h, start, seen, x, y); }
  }

  lemma WalkedMore(h: seq<Object>, start: Ref, seen: set<Ref>, x: Ref, y: Ref)
    requires WalkedTo(h, start, seen, x) && (WalkedTo(h, start, seen, y) || y in FieldSet(h, x)) && WellFormed(h)
    ensures WalkedTo(h, start, seen + {x}, y)
  {
    forall T | WalkClosed(h, start, seen + {x}, T) ensures y in T {
      assert WalkClosed(h, start, seen, T);
      assert y in FieldSet(h, x) ==> Points(h, x, y);
    }
  }

  /** Everything a finished walk has seen is condemned already or is a whole tree. */
  lemma WalkedTree(h: seq<Object>, roots: set<Ref>, release: set<Ref>, phase: Phase, held: multiset<Ref>, x: Ref)
    requires Books(h, release, phase, held) && phase.Walking?
    requires WalkingOk(h, roots, phase.start, phase.pending, phase.seen)
    requires x in phase.seen && x !in release
    ensures x in TreeSet(h, release) && held[x] == 0 && Slots(h, Counted(h, release, phase), x) == 0
  {
    hide Slots;
  }

  lemma WalkEndBooks(h: seq<Object>, roots: set<Ref>, release: set<Ref>, phase: Phase, held: multiset<Ref>)
    requires Books(h, release, phase, held) && phase.Walking?
    requires WalkingOk(h, roots, phase.start, phase.pending, phase.seen)
    ensures Books(h, release + phase.seen, NextRoot, held)
  {
    hide Slots, Points, WalkingOk;
    var release', C := release + phase.seen, Counted(h, release, phase);
    assert Counted(h, release', NextRoot) == C;
    assert Pending(h, phase) == multiset{} == Pending(h, NextRoot);
    forall x | x in phase.seen && x !in release
      ensures IsRef(h, x) && h[x].count == 0 && h[x].state != Dead && held[x] == 0 && Slots(h, C, x) == 0
      ensures (forall o :: o in C ==> !Points(h, o, x))
    {
      WalkedTree(h, roots, release, phase, held, x);
      SlotsZero(h, C, x);
    }
  }

  /** A tree leaves the forest. */
  lemma ForestLess(h: seq<Object>, W: set<Ref>, seen: set<Ref>)
    requires Forest(h, W) && WellFormed(h) && Closed(h, W * seen)
    requires forall o, x :: o in W && x in W * seen && !h[x].Candidate() && Points(h, o, x) ==> o in seen
    ensures Forest(h, W - seen)
  {
    hide Reach;
    var W' := W - seen;
    forall o, i | o in W' && 0 <= i < |h[o].fields| && h[o].fields[i] != NULL
      ensures h[o].fields[i] in W' && !h[h[o].fields[i]].Candidate()
    {
      assert Points(h, o, h[o].fields[i]);
    }
    forall x | x in W' ensures x in Reach(h, Candidates(h, W')) {
      ReachUnion(h, Candidates(h, W), x);
      var c :| c in Candidates(h, W) && x in Reach(h, {c});
      if c in seen { ReachLeast(h, {c}, W * seen); }
      ReachClosed(h, Candidates(h, W'));
      ReachMono(h, {c}, Candidates(h, W'));
    }
  }

  /** Whoever points to a tree that was walked was walked. */
  lemma WalkedOwner(h: seq<Object>, roots: set<Ref>, release: set<Ref>, phase: Phase, held: multiset<Ref>, o: Ref,
                    x: Ref)
    requires Books(h, release, phase, held) && States(h, release, phase)
    requires phase.Walking? && WalkingOk(h, roots, phase.start, phase.pending, phase.seen)
    requires forall r :: r in roots ==> IsRef(h, r) && h[r].Candidate()
    requires var W := TreeSet(h, release); o in W && x in W * phase.seen && !h[x].Candidate() && Points(h, o, x)
    ensures o in phase.seen
  {
    hide Slots, Reach;
    var p :| p in phase.seen && Points(h, p, x);
    if p !in release {
      WalkedTree(h, roots, release, phase, held, p);
      var i :| 0 <= i < |h[o].fields| && h[o].fields[i] == x;
      var j :| 0 <= j < |h[p].fields| && h[p].fields[j] == x;
      assert o == p;
    } else {
      CondemnedPoint(h, release, phase, held, p, x);
    }
  }

  lemma CondemnedPoint(h: seq<Object>, release: set<Ref>, phase: Phase, held: multiset<Ref>, p: Ref, x: Ref)
    requires Books(h, release, phase, held) && States(h, release, phase) && phase.Walking?
    requires p in release && Points(h, p, x) && x in TreeSet(h, release)
    ensures false
  {
    hide Slots, Forest;
    SlotsZero(h, Counted(h, release, phase), x);
  }

  lemma WalkEndStates(h: seq<Object>, roots: set<Ref>, release: set<Ref>, phase: Phase, held: multiset<Ref>)
    requires Books(h, release, phase, held) && States(h, release, phase)
    requires phase.Walking? && WalkingOk(h, roots, phase.start, phase.pending, phase.seen) && phase.pending == {}
    requires forall r :: r in roots ==> IsRef(h, r) && h[r].Candidate()
    ensures States(h, release + phase.seen, NextRoot)
  {
    hide Slots, Forest, Books, Backed;
    var W, release' := TreeSet(h, release), release + phase.seen;
    BooksWellFormed(h, release, phase, held);
    WalkEndForest(h, roots, release, phase, held);
    forall o, f | o in release' && h[o].count == 0 && f in h[o].fields
      ensures f == NULL || (f in release' && h[f].count == 0 && !h[f].Candidate())
    {
      if o !in release && f != NULL {
        WalkedTree(h, roots, release, phase, held, o);
        TreeField(h, W, o, f);
      }
    }
  }

  lemma TreeField(h: seq<Object>, W: set<Ref>, o: Ref, f: Ref)
    requires Forest(h, W) && WellFormed(h) && o in W && IsRef(h, o) && f in h[o].fields && f != NULL
    ensures f in W && IsRef(h, f) && !h[f].Candidate() && Points(h, o, f)
  {
    hide Reach;
    var i :| 0 <= i < |h[o].fields| && h[o].fields[i] == f;
  }

  lemma WalkEndForest(h: seq<Object>, roots: set<Ref>, release: set<Ref>, phase: Phase, held: multiset<Ref>)
    requires Books(h, release, phase, held) && States(h, release, phase)
    requires phase.Walking? && WalkingOk(h, roots, phase.start, phase.pending, phase.seen) && phase.pending == {}
    requires forall r :: r in roots ==> IsRef(h, r) && h[r].Candidate()
    ensures Forest(h, TreeSet(h, release + phase.seen))
  {
    hide Slots, Forest, Books, Backed;
    var W, seen := TreeSet(h, release), phase.seen;
    BooksWellFormed(h, release, phase, held);
    ForestClosed(h, W);
    forall o, x | o in W && x in W * seen && !h[x].Candidate() && Points(h, o, x) ensures o in seen {
      WalkedOwner(h, roots, release, phase, held, o, x);
    }
    ForestLess(h, W, seen);
    assert TreeSet(h, release + seen) == W - seen;
  }

  lemma WalkEndKeeps(s: Sys, s': Sys)
    requires Inv(s) && WalkEndStep(s, s')
    ensures Inv(s')
  {
    hide Books, States, ThreadsOk, LocksOk, WalkingOk;
    InvParts(s);
    WalkEndBooks(s.h, s.roots, s.release, s.phase, Total(s.threads));
    WalkEndStates(s.h, s.roots, s.release, s.phase, Total(s.threads));
    ShiftLocks(|s.h|, s.locks, s.listLock, s.threads, s.phase, s'.phase);
  }
}
