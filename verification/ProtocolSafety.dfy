/** What every run of mutator threads and collector keeps. */
module ProtocolSafety {
  import opened Memory
  import opened RefCount
  import opened Consistency
  import opened Protocol
  import opened ProtocolInvariant
  import opened ProtocolThreads
  import opened ProtocolWrites
  import opened ProtocolDrops
  import opened ProtocolCollector
  import opened ProtocolRelease

  // ---------------------------------------------- the invariant over runs

  lemma ThreadKeeps(s: Sys, s': Sys, t: nat)
    requires Inv(s) && ThreadStep(s, s', t)
    ensures Inv(s')
  {
    hide Inv, CloneStep, FlagStep, AcquireListStep, InsertStep, LeaveListStep, WantStep, LockStep, WriteStep, ReadStep,
         CountReadStep, UnlockStep, DropStep, AllocateStep;
    if x :| CloneStep(s, s', t, x) { CloneKeeps(s, s', t, x); }
    else if FlagStep(s, s', t) { FlagKeeps(s, s', t); }
    else if AcquireListStep(s, s', t) { AcquireListKeeps(s, s', t); }
    else if InsertStep(s, s', t) { InsertKeeps(s, s', t); }
    else if LeaveListStep(s, s', t) { LeaveListKeeps(s, s', t); }
    else if p :| WantStep(s, s', t, p) { WantKeeps(s, s', t, p); }
    else if LockStep(s, s', t) { LockKeeps(s, s', t); }
    else if i, x :| WriteStep(s, s', t, i, x) { MutatorWriteKeeps(s, s', t, i, x); }
    else if i :| ReadStep(s, s', t, i) { ReadKeeps(s, s', t, i); }
    else if CountReadStep(s, s', t) { CountReadKeeps(s, s', t); }
    else if UnlockStep(s, s', t) { UnlockKeeps(s, s', t); }
    else if x, order :| DropStep(s, s', t, x, order) { MutatorDropKeeps(s, s', t, x, order); }
    else {
      var x, n, cyclic :| AllocateStep(s, s', t, x, n, cyclic);
      MutatorAllocateKeeps(s, s', t, x, n, cyclic);
    }
  }

  lemma CollectorKeeps(s: Sys, s': Sys)
    requires Inv(s) && CollectorStep(s, s')
    ensures Inv(s')
  {
    hide Inv, StartStep, RootStep, TraceLockStep, TraceFieldStep, TraceDoneStep, TraceEndStep, ReadCountStep, PaintStep,
         MarkStep, MarkedStep, CollectorUnlockStep, UnlockedStep, WalkStep, WalkEndStep, RootsDoneStep, ReleaseTakeStep,
         ReleaseFieldStep, ReleasePutStep, ReleaseDoneStep, KillStep, KilledStep, ReinsertStep, EndStep;
    if StartStep(s, s') { StartKeeps(s, s'); }
    else if r :| RootStep(s, s', r) { RootKeeps(s, s', r); }
    else if o :| TraceLockStep(s, s', o) { TraceLockKeeps(s, s', o); }
    else if TraceFieldStep(s, s') { TraceFieldKeeps(s, s'); }
    else if TraceDoneStep(s, s') { TraceDoneKeeps(s, s'); }
    else if TraceEndStep(s, s') { TraceEndKeeps(s, s'); }
    else if x :| ReadCountStep(s, s', x) { ReadCountKeeps(s, s', x); }
    else if PaintStep(s, s') { PaintKeeps(s, s'); }
    else if x :| MarkStep(s, s', x) { MarkKeeps(s, s', x); }
    else if MarkedStep(s, s') { MarkedKeeps(s, s'); }
    else if x :| CollectorUnlockStep(s, s', x) { CollectorUnlockKeeps(s, s', x); }
    else if UnlockedStep(s, s') { UnlockedKeeps(s, s'); }
    else if x :| WalkStep(s, s', x) { WalkKeeps(s, s', x); }
    else if WalkEndStep(s, s') { WalkEndKeeps(s, s'); }
    else if RootsDoneStep(s, s') { RootsDoneKeeps(s, s'); }
    else if x :| ReleaseTakeStep(s, s', x) { ReleaseTakeKeeps(s, s', x); }
    else if order :| ReleaseFieldStep(s, s', order) { ReleaseFieldKeeps(s, s', order); }
    else if ReleasePutStep(s, s') { ReleasePutKeeps(s, s'); }
    else if ReleaseDoneStep(s, s') { ReleaseDoneKeeps(s, s'); }
    else if x :| KillStep(s, s', x) { KillKeeps(s, s', x); }
    else if KilledStep(s, s') { KilledKeeps(s, s'); }
    else if x :| ReinsertStep(s, s', x) { ReinsertKeeps(s, s', x); }
    else { EndKeeps(s, s'); }
  }

  lemma NextKeeps(s: Sys, s': Sys)
    requires Inv(s) && Next(s, s')
    ensures Inv(s')
  {
    hide Inv, ThreadStep, CollectorStep;
    if t :| ThreadStep(s, s', t) { ThreadKeeps(s, s', t); } else { CollectorKeeps(s, s'); }
  }

  /** The invariant holds in every state of every run. */
  lemma {:induction false} RunInv(run: seq<Sys>, k: nat)
    requires IsRun(run) && k < |run|
    ensures Inv(run[k])
  {
    hide Inv, Next, Init;
    if k == 0 {
      InitInv(run[0]);
    } else {
      RunInv(run, k - 1);
      assert Next(run[k - 1], run[k - 1 + 1]);
      NextKeeps(run[k - 1], run[k]);
    }
  }

  // ------------------------------------------------------------- safety

  /** No thread has a grip on `x`. */
  ghost predicate OutOfReach(s: Sys, x: Ref) {
    forall t :: 0 <= t < |s.threads| ==>
      x !in s.threads[t].held && s.threads[t].got != x && s.threads[t].lock != x && s.threads[t].want != x
  }

  /** What was painted white or is to be released. */
  ghost predicate Condemned(s: Sys, x: Ref) { x in Condemning(s.release, s.phase) }

  /** No thread has a grip on a condemned object, nor on a dead one, and what points to a
      condemned object is condemned or dead. */
  lemma CondemnedSafe(s: Sys, x: Ref)
    requires Inv(s) && IsRef(s.h, x) && (Condemned(s, x) || s.h[x].state == Dead)
    ensures OutOfReach(s, x)
    ensures Condemned(s, x) ==> s.h[x].state != Dead && forall o :: Points(s.h, o, x) && s.h[o].state != Dead ==>
          Condemned(s, o)
  {
    hide Inv, Counted, Condemning;
    forall t | 0 <= t < |s.threads|
      ensures x !in s.threads[t].held && s.threads[t].got != x && s.threads[t].lock != x && s.threads[t].want != x
    {
      GripFacts(s, t);
    }
    if Condemned(s, x) {
      CondemnedNotDead(s, x);
      forall o | Points(s.h, o, x) && s.h[o].state != Dead ensures Condemned(s, o) { PointerCondemned(s, o, x); }
    }
  }

  lemma GripFacts(s: Sys, t: nat)
    requires Inv(s) && t < |s.threads|
    ensures var T := s.threads[t];
            forall x :: x in T.held || (x != NULL && (x == T.got || x == T.lock || x == T.want)) ==>
              IsRef(s.h, x) && s.h[x].state == Live && !Condemned(s, x)
  {
    hide Inv, Counted, Condemning;
    var T := s.threads[t];
    forall x | x in T.held ensures IsRef(s.h, x) && s.h[x].state == Live && !Condemned(s, x) { ThreadHolds(s, t, x); }
    ThreadFacts(s, t);
    if T.got != NULL {
      ThreadHolds(s, t, T.lock);
      InvParts(s);
      FieldFacts(s.h, s.release, s.phase, Total(s.threads), T.lock, T.got);
    }
  }

  lemma CondemnedNotDead(s: Sys, x: Ref)
    requires Inv(s) && Condemned(s, x)
    ensures IsRef(s.h, x) && s.h[x].state != Dead
  {
    hide Books, ThreadsOk, LocksOk, ListsOk, PhaseOk, Forest;
  }

  lemma PointerCondemned(s: Sys, o: Ref, x: Ref)
    requires Inv(s) && Condemned(s, x) && Points(s.h, o, x) && s.h[o].state != Dead
    ensures Condemned(s, o)
  {
    hide Slots, Forest, ThreadsOk, LocksOk, ListsOk, PhaseOk;
    if !Condemned(s, o) && s.h[o].count == 0 {
      assert o in TreeSet(s.h, s.release);
      TreeField(s.h, TreeSet(s.h, s.release), o, x);
      CondemnedNoTree(s, x);
    }
  }

  lemma CondemnedNoTree(s: Sys, x: Ref)
    requires States(s.h, s.release, s.phase) && Condemned(s, x)
    ensures x !in TreeSet(s.h, s.release)
  {
    hide Forest;
  }

  /** Once condemned, an object stays condemned until it is dead. */
  lemma CondemnedStays(s: Sys, s': Sys, x: Ref)
    requires Inv(s) && Next(s, s') && Condemned(s, x)
    ensures Condemned(s', x) || (IsRef(s'.h, x) && s'.h[x].state == Dead)
  {
    hide Inv, ThreadStep, CollectorStep, Condemning;
    if t :| ThreadStep(s, s', t) { ThreadCondemns(s, s', t); } else { CollectorCondemns(s, s', x); }
  }

  lemma ThreadCondemns(s: Sys, s': Sys, t: nat)
    requires ThreadStep(s, s', t)
    ensures s'.release == s.release && s'.phase == s.phase
  {
    hide Dropped;
  }

  lemma CollectorCondemns(s: Sys, s': Sys, x: Ref)
    requires Inv(s) && CollectorStep(s, s') && Condemned(s, x)
    ensures Condemned(s', x) || (IsRef(s'.h, x) && s'.h[x].state == Dead)
  {
    hide Inv, Dropped, Reach, Slots;
    assert s.phase.Killing? || s.release <= s'.release;
  }

  /** In every run, an object painted white is out of every thread's reach and referenced by
      condemned objects only, then and in all later states until it is dead. */
  lemma {:induction false} RunSafe(run: seq<Sys>, k: nat, j: nat, x: Ref)
    requires IsRun(run) && k <= j < |run| && Condemned(run[k], x)
    requires forall i :: k <= i <= j && IsRef(run[i].h, x) ==> run[i].h[x].state != Dead
    ensures Condemned(run[j], x) && IsRef(run[j].h, x) && OutOfReach(run[j], x)
    ensures forall o :: Points(run[j].h, o, x) && run[j].h[o].state != Dead ==> Condemned(run[j], o)
  {
    hide Inv, Next, Init, Condemned, OutOfReach;
    if k < j {
      RunSafe(run, k, j - 1, x);
      RunInv(run, j - 1);
      assert Next(run[j - 1], run[j - 1 + 1]);
      CondemnedStays(run[j - 1], run[j], x);
    }
    RunInv(run, j);
    CondemnedNotDead(run[j], x);
    CondemnedSafe(run[j], x);
  }

  /** In every state of every run, whatever a thread holds, locks or has read is live, and the
      count of every object that is not condemned is the number of its references. */
  lemma RunCounts(run: seq<Sys>, k: nat, x: Ref)
    requires IsRun(run) && k < |run| && IsRef(run[k].h, x)
    ensures var s := run[k]; var C := Counted(s.h, s.release, s.phase);
            && (s.h[x].state == Dead ==> OutOfReach(s, x) && forall o :: o in C ==> !Points(s.h, o, x))
            && (s.h[x].state != Dead && !Condemned(s, x) ==>
                  s.h[x].count == Slots(s.h, C, x) + Total(s.threads)[x] + Pending(s.h, s.phase)[x])
  {
    hide Next, Init, OutOfReach, Inv;
    RunInv(run, k);
    var s := run[k];
    if s.h[x].state == Dead { CondemnedSafe(s, x); }
    CountsExact(s, x);
  }

  lemma CountsExact(s: Sys, x: Ref)
    requires Inv(s) && IsRef(s.h, x)
    ensures var C := Counted(s.h, s.release, s.phase);
            && (s.h[x].state == Dead ==> forall o :: o in C ==> !Points(s.h, o, x))
            && (s.h[x].state != Dead && !Condemned(s, x) ==>
                  s.h[x].count == Slots(s.h, C, x) + Total(s.threads)[x] + Pending(s.h, s.phase)[x])
  {
    hide Slots, Forest, ThreadsOk, LocksOk, ListsOk, PhaseOk;
    SlotsZero(s.h, Counted(s.h, s.release, s.phase), x);
    if s.h[x].state == Dead && Condemned(s, x) { CondemnedNotDead(s, x); }
  }

  /** In every state of every run a thread may drop what it holds: all that
      RefCount.DecrementReferenceCount asks for holds, so the drop step can be taken. */
  lemma RunDropReady(run: seq<Sys>, k: nat, t: nat, x: Ref)
    requires IsRun(run) && k < |run| && t < |run[k].threads| && x in run[k].threads[t].held
    ensures var s := run[k]; var C, X := Counted(s.h, s.release, s.phase), Condemning(s.release, s.phase);
            var ext := Total(s.threads) + Pending(s.h, s.phase);
            && Accounts(s.h, C, X, ext) && IsRef(s.h, x) && x !in X && ext[x] > 0 && s.h[x].count > 0
            && (forall y :: y in C && y !in X && IsRef(s.h, y) ==> s.h[y].count > 0)
  {
    hide Next, Init, Inv, Accounts, Pending, Condemning;
    RunInv(run, k);
    ThreadHolds(run[k], t, x);
    InvParts(run[k]);
    BooksAccounts(run[k].h, run[k].release, run[k].phase, Total(run[k].threads));
  }

  /** Candidates are conserved: with no insertion in flight an object that is not dead and not
      in the release loop is listed exactly if its flag is set. A listed object is not dead. */
  lemma RunCandidates(run: seq<Sys>, k: nat, x: Ref)
    requires IsRun(run) && k < |run| && IsRef(run[k].h, x)
    ensures var s := run[k]; var listed := x in s.suspected || x in s.roots;
            && (listed ==> s.h[x].state != Dead && s.h[x].asyncRelease && s.h[x].isCyclicType)
            && (s.h[x].state != Dead && s.h[x].asyncRelease && !InFlight(s.threads, x) ==>
                  listed != (x in OpenedSet(s.release, s.phase)))
  {
    hide Next, Init, Books, States, ThreadsOk, LocksOk, PhaseOk;
    RunInv(run, k);
  }

  // ---------------------------------------------------- no circular waiting

  /** `a` cannot go on before `b` has freed a lock. */
  ghost predicate Waits(s: Sys, a: Owner, b: Owner) {
    && b != Free
    && match a
       case Free => false
       case Mutator(t) =>
         && t < |s.threads| && var T := s.threads[t];
         || (T.want != NULL && 0 <= T.want < |s.locks| && s.locks[T.want] == b)
         || (T.registration.Listing? && s.listLock == b)
       case Collector =>
         || (s.phase.Tracing? && s.phase.at == NULL && exists o ::
               o in s.phase.found && o !in s.phase.scanned && 0 <= o < |s.locks| && s.locks[o] == b)
         || ((s.phase.Resting? || s.phase.Reinserting? || TakesCandidate(s)) && s.listLock == b)
  }

  /** The release loop may come to a flagged object next, for which it takes the list lock. */
  ghost predicate TakesCandidate(s: Sys) {
    && s.phase.Releasing? && s.phase.current == NULL
    && exists x :: x in s.phase.todo && IsRef(s.h, x) && s.h[x].Candidate()
  }

  /** Who waits, waits for somebody of lower rank. */
  ghost function Rank(s: Sys, a: Owner): nat {
    match a
    case Free => 0
    case Collector => 2
    case Mutator(t) =>
      if t >= |s.threads| then 0
      else if s.listLock == a then 0
      else if s.threads[t].lock != NULL then 1
      else 3
  }

  lemma WaitsDown(s: Sys, a: Owner, b: Owner)
    requires Inv(s) && Waits(s, a, b)
    ensures Rank(s, b) < Rank(s, a)
  {
    hide Books, States, ThreadsOk, ListsOk;
    if a.Mutator? { ThreadFacts(s, a.t); }
    if b.Mutator? && b.t < |s.threads| { ThreadFacts(s, b.t); }
  }

  ghost predicate WaitChain(s: Sys, chain: seq<Owner>) {
    |chain| > 0 && forall i :: 0 <= i < |chain| - 1 ==> Waits(s, chain[i], chain[i + 1])
  }

  lemma {:induction false} ChainDown(s: Sys, chain: seq<Owner>)
    requires Inv(s) && WaitChain(s, chain)
    ensures Rank(s, chain[|chain| - 1]) + |chain| - 1 <= Rank(s, chain[0])
  {
    hide Inv, Waits;
    if |chain| > 1 {
      var rest := chain[1..];
      forall i | 0 <= i < |rest| - 1 ensures Waits(s, rest[i], rest[i + 1]) {
        assert Waits(s, chain[i + 1], chain[i + 1 + 1]);
      }
      ChainDown(s, rest);
      assert Waits(s, chain[0], chain[0 + 1]);
      WaitsDown(s, chain[0], chain[1]);
    }
  }

  /** In no state of any run do threads and collector wait for each other in a circle, and no
      chain of waiting is longer than three. */
  lemma RunNoCircle(run: seq<Sys>, k: nat, chain: seq<Owner>)
    requires IsRun(run) && k < |run| && WaitChain(run[k], chain)
    ensures |chain| <= 4
    ensures |chain| > 1 ==> chain[0] != chain[|chain| - 1]
  {
    hide Inv, Next, Init, Waits;
    RunInv(run, k);
    ChainDown(run[k], chain);
  }

  ghost predicate CanStep(s: Sys, a: Owner) {
    match a
    case Free => false
    case Mutator(t) => exists s' :: ThreadStep(s, s', t)
    case Collector => exists s' :: CollectorStep(s, s')
  }

  /** `a` owns a lock. */
  ghost predicate Owns(s: Sys, a: Owner) {
    a != Free && (s.listLock == a || exists p :: 0 <= p < |s.locks| && s.locks[p] == a)
  }

  lemma OwnerSteps(s: Sys, t: nat)
    requires Inv(s) && Owns(s, Mutator(t))
    requires (t < |s.threads| && s.threads[t].registration.Listing? ==> s.listLock == Free)
    ensures CanStep(s, Mutator(t))
  {
    hide Books, States, ListsOk, PhaseOk, ThreadsOk, Bumped, NextRegistration, ThreadStep, CollectorStep;
    assert t < |s.threads|;
    ThreadFacts(s, t);
    var T := s.threads[t];
    if T.registration.Leaving? {
      Enabled(s, Put(s, t, T.(registration := NoRegistration)).(listLock := Free), t);
    } else if T.registration.Inserting? {
      Enabled(s, Put(s, t, T.(registration := Leaving)).(suspected := s.suspected + {T.registration.x}), t);
    } else if T.registration.Listing? {
      Enabled(s, Put(s, t, T.(registration := Inserting(T.registration.x))).(listLock := Mutator(t)), t);
    } else if T.registration.Flagging? {
      var x := T.registration.x;
      Enabled(s, if s.h[x].asyncRelease then Put(s, t, T.(registration := NoRegistration))
                 else Put(s, t, T.(registration := Listing(x))).(h := s.h[x := s.h[x].(asyncRelease := true)]), t);
    } else if T.got != NULL {
      Enabled(s, Put(s, t, T.(held := T.held + multiset{T.got}, got := NULL,
                              registration := NextRegistration(s.h[T.got], T.got)))
                 .(h := s.h[T.got := Bumped(s.h[T.got])]), t);
    } else {
      Enabled(s, Put(s, t, T.(lock := NULL)).(locks := s.locks[T.lock := Free]), t);
    }
  }

  lemma Enabled(s: Sys, s': Sys, t: nat)
    requires LeaveListStep(s, s', t) || InsertStep(s, s', t) || AcquireListStep(s, s', t) || FlagStep(s, s', t)
          || CountReadStep(s, s', t) || UnlockStep(s, s', t)
    ensures CanStep(s, Mutator(t))
  {
    hide LeaveListStep, InsertStep, AcquireListStep, FlagStep, CountReadStep, UnlockStep;
    assert ThreadStep(s, s', t);
  }

  lemma CollectorSteps(s: Sys)
    requires Inv(s) && Owns(s, Collector) && forall b :: !Waits(s, Collector, b)
    ensures CanStep(s, Collector)
  {
    hide Books, ListsOk, ThreadsOk, Forest, CollectorStep, Reach, ReadOuter, TracingAlive, TracingLost, Closed, Backed,
         Slots;
    var p := s.phase;
    if p.Tracing? {
      if IsRef(s.h, p.at) {
        if p.slot < |s.h[p.at].fields| {
          CollectorEnabled(s, s.(phase := TraceNext(s.h, p)));
        } else {
          CollectorEnabled(s, s.(phase := p.(at := NULL, slot := 0, scanned := p.scanned + {p.at})));
        }
      } else if Elems(p.found) == p.scanned {
        CollectorEnabled(s, s.(phase := if p.cyclic then Counting(p.scanned, map[]) else Unlocking(p.scanned, p.root)));
      } else {
        NonEmpty(Elems(p.found) - p.scanned);
        var o :| o in Elems(p.found) - p.scanned;
        assert o in p.found && IsRef(s.h, o);
        assert !Waits(s, Collector, s.locks[o]);
        assert TraceLockStep(s, s.(phase := p.(at := o, slot := 0), locks := s.locks[o := Collector]), o);
        CollectorEnabled(s, s.(phase := p.(at := o, slot := 0), locks := s.locks[o := Collector]));
      }
    } else if p.Counting? {
      if p.counts.Keys == p.S {
        CollectorEnabled(s, s.(phase := Marking(p.S, p.S - Reach(s.h, ReadOuter(s.h, p.S, p.counts)))));
      } else {
        NonEmpty(p.S - p.counts.Keys);
        var x :| x in p.S - p.counts.Keys;
        assert ReadCountStep(s, s.(phase := p.(counts := p.counts[x := s.h[x].count])), x);
        CollectorEnabled(s, s.(phase := p.(counts := p.counts[x := s.h[x].count])));
      }
    } else if p.Marking? {
      if p.white == {} {
        CollectorEnabled(s, s.(phase := Unlocking(p.locked, NULL)));
      } else {
        NonEmpty(p.white);
        var x :| x in p.white;
        var h' := s.h[x := s.h[x].(state := WaitingForGc)];
        var s' := s.(phase := p.(white := p.white - {x}), release := s.release + {x}, h := h');
        assert MarkStep(s, s', x);
        CollectorEnabled(s, s');
      }
    } else {
      assert p.Unlocking?;
      NonEmpty(p.left);
      var x :| x in p.left;
      var s' := s.(phase := p.(left := p.left - {x}), locks := s.locks[x := Free]);
      assert CollectorUnlockStep(s, s', x);
      CollectorEnabled(s, s');
    }
  }

  lemma CollectorEnabled(s: Sys, s': Sys)
    requires TraceFieldStep(s, s') || TraceDoneStep(s, s') || TraceEndStep(s, s')
          || (exists o :: TraceLockStep(s, s', o)) || (exists x :: ReadCountStep(s, s', x)) || PaintStep(s, s')
          || (exists x :: MarkStep(s, s', x)) || MarkedStep(s, s') || (exists x :: CollectorUnlockStep(s, s', x))
    ensures CanStep(s, Collector)
  {
    hide TraceFieldStep, TraceDoneStep, TraceEndStep, TraceLockStep, ReadCountStep, PaintStep, MarkStep, MarkedStep,
         CollectorUnlockStep;
    assert CollectorStep(s, s');
  }

  lemma WaitsForOwner(s: Sys, a: Owner, b: Owner)
    requires Waits(s, a, b)
    ensures Owns(s, b)
  {
  }

  lemma {:induction false} Unstuck(s: Sys, a: Owner, b: Owner)
    requires Inv(s) && Waits(s, a, b)
    ensures exists c :: Owns(s, c) && (forall d :: !Waits(s, c, d)) && CanStep(s, c)
    decreases Rank(s, b)
  {
    hide Inv, CanStep, Owns;
    WaitsForOwner(s, a, b);
    if c :| Waits(s, b, c) {
      WaitsDown(s, b, c);
      Unstuck(s, b, c);
    } else if b.Mutator? {
      assert !Waits(s, b, s.listLock);
      OwnerSteps(s, b.t);
    } else {
      CollectorSteps(s);
    }
  }

  /** Whenever somebody waits, an owner of a lock waits for nobody and can take a step. */
  lemma RunUnstuck(run: seq<Sys>, k: nat, a: Owner, b: Owner)
    requires IsRun(run) && k < |run| && Waits(run[k], a, b)
    ensures var s := run[k]; exists c :: Owns(s, c) && (forall d :: !Waits(s, c, d)) && CanStep(s, c)
  {
    hide Inv, Next, Init, Waits, CanStep, Owns;
    RunInv(run, k);
    Unstuck(run[k], a, b);
  }
}
