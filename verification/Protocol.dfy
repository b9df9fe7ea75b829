/** Mutator threads and the collector as one transition system.

    Any number of threads run the field operations of src/CatLa.cpp:120-188 while the collector
    runs src/gc/GC.cpp:19-243. A step is one access to shared memory: taking or freeing a lock,
    reading or writing a field, changing a count, reading one count, storing one state. Steps
    are sequentially consistent, and a drop with the cascade it starts is a single step, which
    does what RefCount.DecrementReferenceCount is proved to do. Where the collector works
    through a work list, the steps take its members in any order. */
module Protocol {
  import opened Memory
  import opened RefCount
  import opened Consistency

  datatype Owner = Free | Mutator(t: nat) | Collector

  /** How far the registration of an object with the suspected list has got
      (src/gc/GC.h:48-53 and 34-38). */
  datatype Registration =
    | NoRegistration
    | Flagging(x: Ref)   // the count went from one to two, the flag is not set yet
    | Listing(x: Ref)    // the flag is set, waiting for the list lock
    | Inserting(x: Ref)  // the list lock is held
    | Leaving            // inserted, the list lock is still held

  datatype Thread = Thread(
    held: multiset<Ref>,        // references in the thread's hands
    want: Ref,                  // the object whose lock it spins on, or NULL
    lock: Ref,                  // the object whose lock it holds, or NULL
    got: Ref,                   // a field read under the lock and not counted yet, or NULL
    registration: Registration)
  {
    predicate Idle() { want == NULL && lock == NULL && got == NULL && registration.NoRegistration? }
  }

  datatype Phase =
    | Resting
    | NextRoot
    | Tracing(root: Ref, found: seq<Ref>, scanned: set<Ref>, at: Ref, slot: nat, cyclic: bool)
    | Counting(S: set<Ref>, counts: map<Ref, nat>)
    | Marking(locked: set<Ref>, white: set<Ref>)
    | Unlocking(left: set<Ref>, walk: Ref)
    | Walking(start: Ref, pending: set<Ref>, seen: set<Ref>)
    | Releasing(todo: set<Ref>, current: Ref, next: nat)
    | Killing
    | Reinserting

  datatype Sys = Sys(
    h: seq<Object>,
    locks: seq<Owner>,          // one lock flag per cell
    listLock: Owner,
    suspected: set<Ref>,
    threads: seq<Thread>,
    roots: set<Ref>,            // the list the collector has moved aside
    unprocessed: set<Ref>,      // the roots not yet taken up
    release: set<Ref>,          // release_objects
    phase: Phase)

  ghost predicate Init(s: Sys) {
    && (forall x :: IsRef(s.h, x) ==> s.h[x] == Object(0, Dead, false, false, []))
    && |s.locks| == |s.h| && (forall x :: 0 <= x < |s.locks| ==> s.locks[x] == Free)
    && s.listLock == Free && s.suspected == {} && s.roots == {} && s.unprocessed == {} && s.release == {}
    && s.phase == Resting
    && (forall t :: 0 <= t < |s.threads| ==> s.threads[t] == Thread(multiset{}, NULL, NULL, NULL, NoRegistration))
  }

  // -------------------------------------------------------- the accounts

  ghost function Total(ts: seq<Thread>): multiset<Ref> {
    if ts == [] then multiset{} else Total(ts[..|ts| - 1]) + ts[|ts| - 1].held
  }

  /** Condemned objects whose fields the release loop has begun to drop. */
  ghost function OpenedSet(release: set<Ref>, phase: Phase): set<Ref> {
    match phase
    case Releasing(todo, _, _) => release - todo
    case Killing => release
    case _ => {}
  }

  /** Cells whose fields are references. */
  ghost function Counted(h: seq<Object>, release: set<Ref>, phase: Phase): set<Ref> {
    set x | 0 <= x < |h| && h[x].state != Dead && h[x].count > 0 && x !in OpenedSet(release, phase)
  }

  /** Condemned objects: marked ones, and white ones about to be marked. */
  ghost function Condemning(release: set<Ref>, phase: Phase): set<Ref> {
    release + if phase.Marking? then phase.white else {}
  }

  /** Slots of the object in the hands of the release loop that it has not come to yet. */
  ghost function Pending(h: seq<Object>, phase: Phase): multiset<Ref> {
    match phase
    case Releasing(_, current, next) =>
      if IsRef(h, current) && next <= |h[current].fields| && h[current].count > 0
      then multiset(h[current].fields[next..]) else multiset{}
    case _ => multiset{}
  }

  /** A drop in the current state: loose references are those of the threads and of the release loop. */
  ghost predicate DroppedIn(s: Sys, h': seq<Object>, x: Ref, order: seq<Ref>) {
    var ext := Total(s.threads) + Pending(s.h, s.phase);
    Dropped(s.h, h', Counted(s.h, s.release, s.phase), Condemning(s.release, s.phase), ext, x, order)
  }

  // ------------------------------------------------------- thread steps

  ghost predicate IsThread(s: Sys, t: nat) { t < |s.threads| }

  function Put(s: Sys, t: nat, T: Thread): Sys
    requires t < |s.threads|
  {
    s.(threads := s.threads[t := T])
  }

  /** The count of an object is incremented, nothing else. */
  function Bumped(ob: Object): Object { ob.(count := ob.count + 1) }

  function NextRegistration(ob: Object, x: Ref): Registration {
    if ob.count == 1 && ob.isCyclicType then Flagging(x) else NoRegistration
  }

  /** A thread increments the count of an object it holds (src/CatLa.cpp:121). */
  ghost predicate CloneStep(s: Sys, s': Sys, t: nat, x: Ref) {
    && IsThread(s, t) && var T := s.threads[t];
    && T.Idle() && x in T.held && IsRef(s.h, x)
    && s' == Put(s, t, T.(held := T.held + multiset{x}, registration := NextRegistration(s.h[x], x)))
             .(h := s.h[x := Bumped(s.h[x])])
  }

  /** The compare-and-swap of the flag (src/gc/GC.h:50). */
  ghost predicate FlagStep(s: Sys, s': Sys, t: nat) {
    && IsThread(s, t) && var T := s.threads[t];
    && T.registration.Flagging? && var x := T.registration.x;
    && IsRef(s.h, x)
    && s' == if s.h[x].asyncRelease then Put(s, t, T.(registration := NoRegistration))
             else Put(s, t, T.(registration := Listing(x))).(h := s.h[x := s.h[x].(asyncRelease := true)])
  }

  ghost predicate AcquireListStep(s: Sys, s': Sys, t: nat) {
    && IsThread(s, t) && var T := s.threads[t];
    && T.registration.Listing? && s.listLock == Free
    && s' == Put(s, t, T.(registration := Inserting(T.registration.x))).(listLock := Mutator(t))
  }

  ghost predicate InsertStep(s: Sys, s': Sys, t: nat) {
    && IsThread(s, t) && var T := s.threads[t];
    && T.registration.Inserting?
    && s' == Put(s, t, T.(registration := Leaving)).(suspected := s.suspected + {T.registration.x})
  }

  ghost predicate LeaveListStep(s: Sys, s': Sys, t: nat) {
    && IsThread(s, t) && var T := s.threads[t];
    && T.registration.Leaving?
    && s' == Put(s, t, T.(registration := NoRegistration)).(listLock := Free)
  }

  /** A field operation begins: the thread spins on the lock of a parent it holds. */
  ghost predicate WantStep(s: Sys, s': Sys, t: nat, p: Ref) {
    && IsThread(s, t) && var T := s.threads[t];
    && T.Idle() && p in T.held
    && s' == Put(s, t, T.(want := p))
  }

  ghost predicate LockStep(s: Sys, s': Sys, t: nat) {
    && IsThread(s, t) && var T := s.threads[t];
    && T.want != NULL && 0 <= T.want < |s.locks| && s.locks[T.want] == Free
    && s' == Put(s, t, T.(want := NULL, lock := T.want)).(locks := s.locks[T.want := Mutator(t)])
  }

  /** A held reference, or null, moves into a field and the old content into the thread's hands
      (src/CatLa.cpp:126-128, 160-162, 179-181). The parent is held besides. */
  ghost predicate WriteStep(s: Sys, s': Sys, t: nat, i: nat, x: Ref) {
    && IsThread(s, t) && var T := s.threads[t];
    && T.lock != NULL && T.got == NULL && T.registration.NoRegistration?
    && IsRef(s.h, T.lock) && i < |s.h[T.lock].fields|
    && (x == NULL || (x in T.held && (x == T.lock ==> T.held[x] >= 2)))
    && s' == Put(s, t, T.(held := T.held - multiset{x} + Reference(s.h[T.lock].fields[i])))
             .(h := Written(s.h, T.lock, i, x))
  }

  /** A field is read under the lock (src/CatLa.cpp:143). */
  ghost predicate ReadStep(s: Sys, s': Sys, t: nat, i: nat) {
    && IsThread(s, t) && var T := s.threads[t];
    && T.lock != NULL && T.got == NULL && T.registration.NoRegistration?
    && IsRef(s.h, T.lock) && i < |s.h[T.lock].fields|
    && s' == Put(s, t, T.(got := s.h[T.lock].fields[i]))
  }

  /** The object that was read is counted (src/CatLa.cpp:146). */
  ghost predicate CountReadStep(s: Sys, s': Sys, t: nat) {
    && IsThread(s, t) && var T := s.threads[t];
    && T.got != NULL && IsRef(s.h, T.got)
    && s' == Put(s, t, T.(held := T.held + multiset{T.got}, got := NULL,
                          registration := NextRegistration(s.h[T.got], T.got)))
             .(h := s.h[T.got := Bumped(s.h[T.got])])
  }

  ghost predicate UnlockStep(s: Sys, s': Sys, t: nat) {
    && IsThread(s, t) && var T := s.threads[t];
    && T.lock != NULL && T.got == NULL && T.registration.NoRegistration? && 0 <= T.lock < |s.locks|
    && s' == Put(s, t, T.(lock := NULL)).(locks := s.locks[T.lock := Free])
  }

  /** A thread drops a reference it holds (src/CatLa.cpp:135, 169). */
  ghost predicate DropStep(s: Sys, s': Sys, t: nat, x: Ref, order: seq<Ref>) {
    && IsThread(s, t) && var T := s.threads[t];
    && T.Idle() && x in T.held
    && DroppedIn(s, s'.h, x, order)
    && s' == Put(s, t, T.(held := T.held - multiset{x})).(h := s'.h)
  }

  /** A dead cell is handed to a thread as a fresh object. Its lock flag is left as it is. */
  ghost predicate AllocateStep(s: Sys, s': Sys, t: nat, x: Ref, n: nat, cyclic: bool) {
    && IsThread(s, t) && var T := s.threads[t];
    && T.Idle() && IsRef(s.h, x) && s.h[x].state == Dead
    && s' == Put(s, t, T.(held := T.held + multiset{x})).(h := s.h[x := Fresh(n, cyclic)])
  }

  ghost predicate ThreadStep(s: Sys, s': Sys, t: nat) {
    || (exists x :: CloneStep(s, s', t, x))
    || FlagStep(s, s', t) || AcquireListStep(s, s', t) || InsertStep(s, s', t) || LeaveListStep(s, s', t)
    || (exists p :: WantStep(s, s', t, p)) || LockStep(s, s', t)
    || (exists i, x :: WriteStep(s, s', t, i, x))
    || (exists i :: ReadStep(s, s', t, i)) || CountReadStep(s, s', t) || UnlockStep(s, s', t)
    || (exists x, order :: DropStep(s, s', t, x, order))
    || (exists x, n, cyclic :: AllocateStep(s, s', t, x, n, cyclic))
  }

  // ---------------------------------------------------- collector steps

  /** The suspected list is moved aside (src/gc/GC.cpp:23-27). */
  ghost predicate StartStep(s: Sys, s': Sys) {
    && s.phase.Resting? && s.listLock == Free
    && s' == s.(phase := NextRoot, roots := s.suspected, unprocessed := s.suspected, suspected := {})
  }

  /** The next root is taken up (src/gc/GC.cpp:31-40). */
  ghost predicate RootStep(s: Sys, s': Sys, r: Ref) {
    && s.phase.NextRoot? && r in s.unprocessed
    && s' == s.(phase := Tracing(r, [r], {}, NULL, 0, false), unprocessed := s.unprocessed - {r})
  }

  /** A found object is locked (src/gc/GC.cpp:43-44). */
  ghost predicate TraceLockStep(s: Sys, s': Sys, o: Ref) {
    && s.phase.Tracing? && s.phase.at == NULL && o in s.phase.found && o !in s.phase.scanned
    && 0 <= o < |s.locks| && s.locks[o] == Free
    && s' == s.(phase := s.phase.(at := o, slot := 0), locks := s.locks[o := Collector])
  }

  function TraceNext(h: seq<Object>, p: Phase): Phase
    requires p.Tracing? && IsRef(h, p.at) && p.slot < |h[p.at].fields|
  {
    var f := h[p.at].fields[p.slot];
    if f == NULL then p.(slot := p.slot + 1)
    else if f !in p.found then p.(slot := p.slot + 1, found := p.found + [f])
    else p.(slot := p.slot + 1, cyclic := p.cyclic || f == p.root)
  }

  /** One field of the locked object is looked at (src/gc/GC.cpp:49-63). */
  ghost predicate TraceFieldStep(s: Sys, s': Sys) {
    && s.phase.Tracing? && IsRef(s.h, s.phase.at) && s.phase.slot < |s.h[s.phase.at].fields|
    && s' == s.(phase := TraceNext(s.h, s.phase))
  }

  ghost predicate TraceDoneStep(s: Sys, s': Sys) {
    && s.phase.Tracing? && IsRef(s.h, s.phase.at) && s.phase.slot >= |s.h[s.phase.at].fields|
    && s' == s.(phase := s.phase.(at := NULL, slot := 0, scanned := s.phase.scanned + {s.phase.at}))
  }

  /** Everything found is locked: count, or unlock and look for a waiting tree. */
  ghost predicate TraceEndStep(s: Sys, s': Sys) {
    && s.phase.Tracing? && s.phase.at == NULL && Elems(s.phase.found) == s.phase.scanned
    && s' == s.(phase := if s.phase.cyclic then Counting(s.phase.scanned, map[])
                         else Unlocking(s.phase.scanned, s.phase.root))
  }

  /** One count is read (src/gc/GC.cpp:77, 100). */
  ghost predicate ReadCountStep(s: Sys, s': Sys, x: Ref) {
    && s.phase.Counting? && x in s.phase.S && x !in s.phase.counts && IsRef(s.h, x)
    && s' == s.(phase := s.phase.(counts := s.phase.counts[x := s.h[x].count]))
  }

  /** All counts have been read. Subtraction and painting use fields of locked objects only and
      come to the set that Collector.GrayPhase and Collector.WhiteBlackPhase compute on memory as it
      was read (ProtocolCollector.PaintIsTrialDeletion). */
  ghost predicate PaintStep(s: Sys, s': Sys) {
    && s.phase.Counting? && s.phase.counts.Keys == s.phase.S
    && s' == s.(phase := Marking(s.phase.S, s.phase.S - Reach(s.h, ReadOuter(s.h, s.phase.S, s.phase.counts))))
  }

  ghost function ReadOuter(h: seq<Object>, S: set<Ref>, counts: map<Ref, nat>): set<Ref> {
    set x | x in S && x in counts && counts[x] > Slots(h, S, x)
  }

  /** One white object is marked (src/gc/GC.cpp:163-164). */
  ghost predicate MarkStep(s: Sys, s': Sys, x: Ref) {
    && s.phase.Marking? && x in s.phase.white && IsRef(s.h, x)
    && s' == s.(phase := s.phase.(white := s.phase.white - {x}), release := s.release + {x},
                h := s.h[x := s.h[x].(state := WaitingForGc)])
  }

  ghost predicate MarkedStep(s: Sys, s': Sys) {
    && s.phase.Marking? && s.phase.white == {}
    && s' == s.(phase := Unlocking(s.phase.locked, NULL))
  }

  ghost predicate CollectorUnlockStep(s: Sys, s': Sys, x: Ref) {
    && s.phase.Unlocking? && x in s.phase.left && 0 <= x < |s.locks|
    && s' == s.(phase := s.phase.(left := s.phase.left - {x}), locks := s.locks[x := Free])
  }

  ghost predicate UnlockedStep(s: Sys, s': Sys) {
    && s.phase.Unlocking? && s.phase.left == {}
    && s' == s.(phase := if s.phase.walk == NULL then NextRoot else Walking(s.phase.walk, {s.phase.walk}, {}))
  }

  ghost function FieldSet(h: seq<Object>, x: Ref): set<Ref> {
    if IsRef(h, x) then set f | f in h[x].fields && f != NULL else {}
  }

  /** One object of a possible tree is visited without its lock (src/gc/GC.cpp:180-199). */
  ghost predicate WalkStep(s: Sys, s': Sys, x: Ref) {
    && s.phase.Walking? && x in s.phase.pending && IsRef(s.h, x)
    && s' == s.(phase :=
         if s.h[x].state != WaitingForGc then NextRoot
         else s.phase.(seen := s.phase.seen + {x},
                       pending := s.phase.pending - {x} + (FieldSet(s.h, x) - (s.phase.seen + {x}))))
  }

  ghost predicate WalkEndStep(s: Sys, s': Sys) {
    && s.phase.Walking? && s.phase.pending == {}
    && s' == s.(phase := NextRoot, release := s.release + s.phase.seen)
  }

  ghost predicate RootsDoneStep(s: Sys, s': Sys) {
    && s.phase.NextRoot? && s.unprocessed == {}
    && s' == s.(phase := Releasing(s.release, NULL, 0))
  }

  /** The next condemned object leaves the lists (src/gc/GC.cpp:211-216). */
  ghost predicate ReleaseTakeStep(s: Sys, s': Sys, x: Ref) {
    && s.phase.Releasing? && s.phase.current == NULL && x in s.phase.todo && IsRef(s.h, x)
    && (s.h[x].Candidate() ==> s.listLock == Free)
    && s' == s.(phase := Releasing(s.phase.todo - {x}, x, 0), roots := s.roots - {x},
                suspected := if s.h[x].Candidate() then s.suspected - {x} else s.suspected)
  }

  /** One of its fields is dropped if it leads to a live object (src/gc/GC.cpp:220-227). */
  ghost predicate ReleaseFieldStep(s: Sys, s': Sys, order: seq<Ref>) {
    && s.phase.Releasing? && IsRef(s.h, s.phase.current) && s.phase.next < |s.h[s.phase.current].fields|
    && var f := s.h[s.phase.current].fields[s.phase.next];
    && (if f != NULL && IsRef(s.h, f) && s.h[f].state == Live
        then DroppedIn(s, s'.h, f, order)
        else s'.h == s.h)
    && s' == s.(phase := s.phase.(next := s.phase.next + 1), h := s'.h)
  }

  ghost predicate ReleasePutStep(s: Sys, s': Sys) {
    && s.phase.Releasing? && IsRef(s.h, s.phase.current) && s.phase.next >= |s.h[s.phase.current].fields|
    && s' == s.(phase := s.phase.(current := NULL, next := 0))
  }

  ghost predicate ReleaseDoneStep(s: Sys, s': Sys) {
    && s.phase.Releasing? && s.phase.current == NULL && s.phase.todo == {}
    && s' == s.(phase := Killing)
  }

  /** One condemned object is set to dead (src/gc/GC.cpp:230-232). */
  ghost predicate KillStep(s: Sys, s': Sys, x: Ref) {
    && s.phase.Killing? && x in s.release && IsRef(s.h, x)
    && s' == s.(release := s.release - {x}, h := s.h[x := s.h[x].(state := Dead)])
  }

  ghost predicate KilledStep(s: Sys, s': Sys) {
    && s.phase.Killing? && s.release == {}
    && s' == s.(phase := Reinserting)
  }

  /** One remaining root goes back to the suspected list (src/gc/GC.cpp:234-238). */
  ghost predicate ReinsertStep(s: Sys, s': Sys, x: Ref) {
    && s.phase.Reinserting? && x in s.roots && s.listLock == Free
    && s' == s.(roots := s.roots - {x}, suspected := s.suspected + {x})
  }

  ghost predicate EndStep(s: Sys, s': Sys) {
    && s.phase.Reinserting? && s.roots == {}
    && s' == s.(phase := Resting)
  }

  ghost predicate CollectorStep(s: Sys, s': Sys) {
    || StartStep(s, s') || (exists r :: RootStep(s, s', r))
    || (exists o :: TraceLockStep(s, s', o)) || TraceFieldStep(s, s') || TraceDoneStep(s, s') || TraceEndStep(s, s')
    || (exists x :: ReadCountStep(s, s', x)) || PaintStep(s, s')
    || (exists x :: MarkStep(s, s', x)) || MarkedStep(s, s')
    || (exists x :: CollectorUnlockStep(s, s', x)) || UnlockedStep(s, s')
    || (exists x :: WalkStep(s, s', x)) || WalkEndStep(s, s') || RootsDoneStep(s, s')
    || (exists x :: ReleaseTakeStep(s, s', x)) || (exists order :: ReleaseFieldStep(s, s', order))
    || ReleasePutStep(s, s') || ReleaseDoneStep(s, s')
    || (exists x :: KillStep(s, s', x)) || KilledStep(s, s')
    || (exists x :: ReinsertStep(s, s', x)) || EndStep(s, s')
  }

  ghost predicate Next(s: Sys, s': Sys) {
    (exists t :: ThreadStep(s, s', t)) || CollectorStep(s, s')
  }

  ghost predicate IsRun(run: seq<Sys>) {
    && run != [] && Init(run[0])
    && forall k :: 0 <= k < |run| - 1 ==> Next(run[k], run[k + 1])
  }
}
