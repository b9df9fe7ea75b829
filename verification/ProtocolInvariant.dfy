/** What holds in every state of the system of mutator threads and collector. */
module ProtocolInvariant {
  import opened Memory
  import opened RefCount
  import opened Consistency
  import opened Protocol

  // ------------------------------------------------------------- memory

  ghost predicate Balanced(h: seq<Object>, C: set<Ref>, X: set<Ref>, ext: multiset<Ref>) {
    forall x :: x in X && IsRef(h, x) ==> h[x].count == Slots(h, C, x) + ext[x]
  }

  /** The collector is still judging roots: nothing has been released yet. */
  ghost predicate Judging(phase: Phase) {
    !phase.Releasing? && !phase.Killing? && !phase.Reinserting?
  }

  /** `held` are the references of all threads together. */
  ghost predicate Books(h: seq<Object>, release: set<Ref>, phase: Phase, held: multiset<Ref>) {
    && Accounts(h, Counted(h, release, phase), Condemning(release, phase), held + Pending(h, phase))
    && (Judging(phase) ==> Balanced(h, Counted(h, release, phase), Condemning(release, phase), held))
    && (forall x :: x in Condemning(release, phase) ==> held[x] == 0)
  }

  /** Objects waiting in trees that no root has condemned yet. */
  ghost function TreeSet(h: seq<Object>, release: set<Ref>): set<Ref> {
    set x | 0 <= x < |h| && h[x].state == WaitingForGc && h[x].count == 0 && x !in release
  }

  ghost predicate States(h: seq<Object>, release: set<Ref>, phase: Phase) {
    && (forall x :: IsRef(h, x) ==> h[x].state != ProcessGc && (h[x].state == Live ==> h[x].count > 0))
    && (forall x :: x in release ==> IsRef(h, x) && h[x].state == WaitingForGc)
    && (phase.Marking? ==> forall x :: x in phase.white ==> IsRef(h, x) && h[x].state != Dead && h[x].count > 0)
    && Forest(h, TreeSet(h, release))
    && (!phase.Killing? ==> forall o, f :: o in release && h[o].count == 0 && f in h[o].fields ==>
          f == NULL || (f in release && h[f].count == 0 && !h[f].Candidate()))
  }

  // ------------------------------------------------------ threads, locks

  ghost predicate ThreadOk(h: seq<Object>, locks: seq<Owner>, listLock: Owner, t: nat, T: Thread) {
    && (forall x :: x in T.held ==> IsRef(h, x))
    && (T.want != NULL ==> T.want in T.held && T.lock == NULL && T.registration.NoRegistration?)
    && (T.lock != NULL ==> T.lock in T.held && T.lock < |locks| && locks[T.lock] == Mutator(t))
    && (T.got != NULL ==> T.lock != NULL && T.registration.NoRegistration? && Points(h, T.lock, T.got))
    && (T.registration.Flagging? ==> T.registration.x in T.held && h[T.registration.x].isCyclicType)
    && (T.registration.Listing? ==> T.registration.x in T.held && h[T.registration.x].Candidate())
    && (T.registration.Inserting? ==> T.registration.x in T.held && h[T.registration.x].Candidate())
    && (T.registration.Inserting? || T.registration.Leaving? <==> listLock == Mutator(t))
  }

  ghost predicate ThreadsOk(h: seq<Object>, locks: seq<Owner>, listLock: Owner, threads: seq<Thread>) {
    forall t :: 0 <= t < |threads| ==> ThreadOk(h, locks, listLock, t, threads[t])
  }

  /** The object locks the collector holds. */
  ghost function CollectorLocks(phase: Phase): set<Ref> {
    match phase
    case Tracing(_, _, scanned, at, _, _) => if at == NULL then scanned else scanned + {at}
    case Counting(S, _) => S
    case Marking(locked, _) => locked
    case Unlocking(left, _) => left
    case _ => {}
  }

  ghost predicate LocksOk(cells: nat, locks: seq<Owner>, listLock: Owner, threads: seq<Thread>, phase: Phase) {
    && |locks| == cells
    && (forall p :: 0 <= p < |locks| && locks[p].Mutator? ==> locks[p].t < |threads| && threads[locks[p].t].lock == p)
    && (forall p :: 0 <= p < |locks| ==> (locks[p] == Collector <==> p in CollectorLocks(phase)))
    && (forall p :: p in CollectorLocks(phase) ==> 0 <= p < cells)
    && listLock != Collector
    && (listLock.Mutator? ==> listLock.t < |threads|)
  }

  // -------------------------------------------------------------- lists

  /** Some thread is between setting the flag of `x` and inserting it. */
  ghost predicate InFlight(threads: seq<Thread>, x: Ref) {
    exists t :: 0 <= t < |threads| && (threads[t].registration == Listing(x) || threads[t].registration == Inserting(x))
  }

  ghost predicate ListsOk(h: seq<Object>, suspected: set<Ref>, roots: set<Ref>, unprocessed: set<Ref>,
                          release: set<Ref>, phase: Phase, threads: seq<Thread>) {
    && (forall x :: x in suspected || x in roots ==> IsRef(h, x) && h[x].state != Dead && h[x].Candidate())
    && (forall x :: IsRef(h, x) && h[x].state != Dead && h[x].asyncRelease ==>
          h[x].isCyclicType && (x in suspected || x in roots || x in OpenedSet(release, phase) || InFlight(threads, x)))
    && (forall x :: x in OpenedSet(release, phase) ==> x !in suspected && x !in roots)
    && (if Judging(phase) then unprocessed <= roots else unprocessed == {})
  }

  // -------------------------------------------------------------- phases

  /** Slot of a scanned object, or one the scan of the current object has passed. */
  ghost predicate Passed(p: Phase, o: Ref, i: int)
    requires p.Tracing?
  {
    o in p.scanned || (o == p.at && i < p.slot)
  }

  /** Seen from a passed slot. */
  ghost predicate SeenFrom(h: seq<Object>, p: Phase, x: Ref)
    requires p.Tracing?
  {
    exists o, i :: IsRef(h, o) && Passed(p, o, i) && 0 <= i < |h[o].fields| && h[o].fields[i] == x
  }

  /** Seen from a passed slot of one of the first `k` objects found. */
  ghost predicate SeenBy(h: seq<Object>, p: Phase, k: int, x: Ref)
    requires p.Tracing?
  {
    exists j, i ::
      && 0 <= j < k && j < |p.found| && IsRef(h, p.found[j]) && Passed(p, p.found[j], i)
      && 0 <= i < |h[p.found[j]].fields| && h[p.found[j]].fields[i] == x
  }

  /** While the root has references, so has everything found, from locked fields. */
  ghost predicate TracingAlive(h: seq<Object>, C: set<Ref>, p: Phase)
    requires p.Tracing?
  {
    && (forall x :: x in p.found ==> x in C)
    && p.found != [] && p.found[0] == p.root
    && (forall k :: 1 <= k < |p.found| ==> SeenBy(h, p, k, p.found[k]))
    && (forall o, i :: IsRef(h, o) && Passed(p, o, i) && 0 <= i < |h[o].fields| && h[o].fields[i] != NULL ==>
          h[o].fields[i] in p.found)
    && (p.cyclic <==> SeenFrom(h, p, p.root))
  }

  /** Nothing in `V`, or reached from it, leads to `r`. */
  ghost predicate NeverBack(h: seq<Object>, V: set<Ref>, r: Ref) {
    Closed(h, V) && forall o :: o in V ==> !Points(h, o, r)
  }

  /** Once the root has lost its references, nothing that can still be found leads to it. */
  ghost predicate TracingLost(h: seq<Object>, p: Phase)
    requires p.Tracing?
  {
    && !p.cyclic
    && exists V :: Elems(p.found) <= V && NeverBack(h, V, p.root)
  }

  ghost predicate TracingOk(h: seq<Object>, C: set<Ref>, roots: set<Ref>, p: Phase)
    requires p.Tracing?
  {
    && p.root in roots && p.root in p.found
    && (forall x :: x in p.found ==> IsRef(h, x))
    && p.scanned <= Elems(p.found)
    && (p.at != NULL ==> p.at in p.found && p.at !in p.scanned)
    && (if IsRef(h, p.root) && h[p.root].count > 0 then TracingAlive(h, C, p) else TracingLost(h, p))
  }

  /** Some member of `S` points to `x`. */
  ghost predicate Backed(h: seq<Object>, S: set<Ref>, x: Ref) {
    exists o :: o in S && Points(h, o, x)
  }

  /** `S` is what some object reaches. */
  ghost predicate IsReach(h: seq<Object>, S: set<Ref>) {
    exists r :: IsRef(h, r) && S == Reach(h, {r})
  }

  ghost predicate CountingOk(h: seq<Object>, C: set<Ref>, S: set<Ref>, counts: map<Ref, nat>) {
    && S <= C && Closed(h, S) && IsReach(h, S)
    && (forall x :: x in S ==> IsRef(h, x) && Backed(h, S, x))
    && counts.Keys <= S
    && (forall x :: x in counts && counts[x] == Slots(h, S, x) ==> h[x].count == Slots(h, S, x))
    && (forall x :: x in counts ==> counts[x] >= Slots(h, S, x))
  }

  /** `T` holds the start of a walk and what its visited members lead to. */
  ghost predicate WalkClosed(h: seq<Object>, start: Ref, seen: set<Ref>, T: set<Ref>) {
    start in T && forall o, f :: o in seen && o in T && Points(h, o, f) ==> f in T
  }

  /** The walk leads to `x` through objects it has visited. */
  ghost predicate WalkedTo(h: seq<Object>, start: Ref, seen: set<Ref>, x: Ref) {
    forall T :: WalkClosed(h, start, seen, T) ==> x in T
  }

  ghost predicate WalkingOk(h: seq<Object>, roots: set<Ref>, start: Ref, pending: set<Ref>, seen: set<Ref>) {
    && start in roots && (start in pending || start in seen)
    && (forall x :: x in seen ==> IsRef(h, x) && h[x].state == WaitingForGc)
    && (forall x :: x in pending ==> IsRef(h, x))
    && (forall o, f :: o in seen && Points(h, o, f) ==> f in seen || f in pending)
    && (forall x :: (x in seen || x in pending) && x != start ==> Backed(h, seen, x))
    && (forall x :: x in seen || x in pending ==> WalkedTo(h, start, seen, x))
  }

  ghost predicate PhaseOk(h: seq<Object>, roots: set<Ref>, release: set<Ref>, phase: Phase) {
    match phase
    case Resting => release == {} && roots == {}
    case NextRoot => true
    case Tracing(_, _, _, _, _, _) => TracingOk(h, Counted(h, release, phase), roots, phase)
    case Counting(S, counts) => CountingOk(h, Counted(h, release, phase), S, counts)
    case Marking(_, _) => true
    case Unlocking(_, walk) => walk != NULL ==> walk in roots
    case Walking(start, pending, seen) => WalkingOk(h, roots, start, pending, seen)
    case Releasing(todo, current, next) =>
      && todo <= release
      && (current != NULL ==>
            current in release && current !in todo && IsRef(h, current) && next <= |h[current].fields|)
    case Killing => true
    case Reinserting => release == {}
  }

  ghost predicate Inv(s: Sys) {
    && Books(s.h, s.release, s.phase, Total(s.threads))
    && States(s.h, s.release, s.phase)
    && ThreadsOk(s.h, s.locks, s.listLock, s.threads)
    && LocksOk(|s.h|, s.locks, s.listLock, s.threads, s.phase)
    && ListsOk(s.h, s.suspected, s.roots, s.unprocessed, s.release, s.phase, s.threads)
    && PhaseOk(s.h, s.roots, s.release, s.phase)
  }

  lemma InitInv(s: Sys)
    requires Init(s)
    ensures Inv(s)
  {
    hide Slots, Reach;
    InitTotal(s.threads);
    assert forall x :: x in Counted(s.h, s.release, s.phase) <==> x in {};
    assert Counted(s.h, s.release, s.phase) == {};
    assert forall x :: x in TreeSet(s.h, s.release) <==> x in {};
    assert TreeSet(s.h, s.release) == {};
    forall x | IsRef(s.h, x) ensures Slots(s.h, {}, x) == 0 { SlotsZero(s.h, {}, x); }
    assert CollectorLocks(s.phase) == {};
  }

  lemma {:induction false} InitTotal(ts: seq<Thread>)
    requires forall t :: 0 <= t < |ts| ==> ts[t].held == multiset{}
    ensures Total(ts) == multiset{}
  {
    if ts != [] { InitTotal(ts[..|ts| - 1]); }
  }

  // --------------------------------------------------------- first facts

  lemma {:induction false} TotalUpdate(ts: seq<Thread>, t: nat, T: Thread)
    requires t < |ts|
    ensures ts[t].held <= Total(ts)
    ensures Total(ts[t := T]) == Total(ts) - ts[t].held + T.held
  {
    var n := |ts| - 1;
    if t == n {
      assert ts[t := T][..n] == ts[..n];
    } else {
      TotalUpdate(ts[..n], t, T);
      assert ts[t := T][..n] == ts[..n][t := T];
    }
  }

  /** What is held is live, counted and not condemned. */
  lemma HeldFacts(h: seq<Object>, release: set<Ref>, phase: Phase, held: multiset<Ref>, x: Ref)
    requires Books(h, release, phase, held) && IsRef(h, x) && held[x] > 0
    ensures x in Counted(h, release, phase) && x !in Condemning(release, phase) && h[x].state == Live && h[x].count > 0
  {
    hide Slots;
  }

  lemma ThreadHolds(s: Sys, t: nat, x: Ref)
    requires Inv(s) && t < |s.threads| && x in s.threads[t].held
    ensures IsRef(s.h, x) && x in Counted(s.h, s.release, s.phase) && x !in Condemning(s.release, s.phase)
    ensures s.h[x].state == Live && s.h[x].count > 0 && Total(s.threads)[x] > 0
  {
    hide Books, States, LocksOk, ListsOk, PhaseOk;
    TotalUpdate(s.threads, t, s.threads[t]);
    assert ThreadOk(s.h, s.locks, s.listLock, t, s.threads[t]);
    HeldFacts(s.h, s.release, s.phase, Total(s.threads), x);
  }

  /** What a counted cell outside the condemned ones points to is counted and not condemned. */
  lemma FieldFacts(h: seq<Object>, release: set<Ref>, phase: Phase, held: multiset<Ref>, p: Ref, x: Ref)
    requires Books(h, release, phase, held)
    requires p in Counted(h, release, phase) && p !in Condemning(release, phase) && Points(h, p, x)
    ensures x in Counted(h, release, phase) && x !in Condemning(release, phase) && h[x].state == Live
  {
    hide Slots;
    SlotsZero(h, Counted(h, release, phase), x);
  }

  /** While judging, counted cells point to counted cells only. */
  lemma CountedClosed(h: seq<Object>, release: set<Ref>, phase: Phase, held: multiset<Ref>)
    requires Books(h, release, phase, held) && States(h, release, phase) && Judging(phase)
    ensures Closed(h, Counted(h, release, phase))
  {
    hide Slots, Forest;
    var C := Counted(h, release, phase);
    forall o, x | o in C && Points(h, o, x) ensures x in C {
      SlotsZero(h, C, x);
    }
  }
}
