/** The reader-writer lock of src/util/Concurrent.h:31-72 under any number of threads.

    The lock is one machine word: zero while a writer is in, one while nobody is in, and one
    more than the number of readers otherwise. A thread first reads the word and later tries
    to swap it, so the value it compares with may be stale; a swap may also fail for no
    reason (compare_exchange_weak). A step is one access to the word. */
module RWLock {
  import opened MachineWord

  datatype Activity =
    | Outside
    | WantRead                 // about to load the word (line 42)
    | SwapRead(seen: nat)      // about to compare with what was loaded (line 46)
    | Reading
    | WantWrite                // line 59
    | SwapWrite(seen: nat)     // line 63
    | Writing

  datatype Lock = Lock(count: nat, threads: seq<Activity>)

  ghost predicate Init(s: Lock) {
    s.count == 1 && forall t :: 0 <= t < |s.threads| ==> s.threads[t] == Outside
  }

  /** What the word may become, and what the thread does next. */
  ghost predicate Does(a: Activity, count: nat, a': Activity, count': nat) {
    match a
    case Outside => count' == count && (a' == WantRead || a' == WantWrite)
    case WantRead => count' == count && a' == if count == 0 then WantRead else SwapRead(count)
    case SwapRead(seen) =>
      || (count == seen && count' == (seen + 1) % WORD && a' == Reading)
      || (count' == count && a' == WantRead)
    case Reading => count' == (count + WORD - 1) % WORD && a' == Outside
    case WantWrite => count' == count && a' == if count != 1 then WantWrite else SwapWrite(count)
    case SwapWrite(seen) =>
      || (count == seen && count' == 0 && a' == Writing)
      || (count' == count && a' == WantWrite)
    case Writing => count' == (count + 1) % WORD && a' == Outside
  }

  ghost predicate Step(s: Lock, s': Lock, t: nat) {
    && t < |s.threads| == |s'.threads|
    && s'.threads == s.threads[t := s'.threads[t]]
    && Does(s.threads[t], s.count, s'.threads[t], s'.count)
  }

  ghost predicate Next(s: Lock, s': Lock) { exists t :: Step(s, s', t) }

  ghost predicate IsRun(run: seq<Lock>) {
    && run != [] && Init(run[0])
    && forall k :: 0 <= k < |run| - 1 ==> Next(run[k], run[k + 1])
  }

  ghost function Doing(ts: seq<Activity>, a: Activity): set<int> { set t | 0 <= t < |ts| && ts[t] == a }
  ghost function Readers(ts: seq<Activity>): set<int> { Doing(ts, Reading) }
  ghost function Writers(ts: seq<Activity>): set<int> { Doing(ts, Writing) }

  /** What the word shows for so many readers and writers. */
  function Word(readers: nat, writers: nat): nat {
    if writers > 0 then 0 else (1 + readers) % WORD
  }

  /** The word follows who is in, a writer is in alone, and there are fewer readers than the word has values. */
  ghost predicate Inv(s: Lock) {
    && s.count == Word(|Readers(s.threads)|, |Writers(s.threads)|)
    && |Readers(s.threads)| < WORD && |Writers(s.threads)| <= 1
    && (Writers(s.threads) != {} ==> Readers(s.threads) == {})
    && SeenRight(s.threads)
  }

  /** A thread is about to compare with a value that lets it in. */
  ghost predicate SeenRight(ts: seq<Activity>) {
    && (forall t :: 0 <= t < |ts| && ts[t].SwapRead? ==> ts[t].seen > 0)
    && (forall t :: 0 <= t < |ts| && ts[t].SwapWrite? ==> ts[t].seen == 1)
  }

  lemma SeenAt(ts: seq<Activity>, t: nat)
    requires SeenRight(ts) && t < |ts|
    ensures (ts[t].SwapRead? ==> ts[t].seen > 0) && (ts[t].SwapWrite? ==> ts[t].seen == 1)
  {
  }

  lemma SeenChange(ts: seq<Activity>, t: nat, a: Activity)
    requires SeenRight(ts) && t < |ts| && (a.SwapRead? ==> a.seen > 0) && (a.SwapWrite? ==> a.seen == 1)
    ensures SeenRight(ts[t := a])
  {
  }

  /** The word is one plus the number of readers less the number of writers. */
  ghost predicate Tells(s: Lock) {
    s.count == 1 + |Readers(s.threads)| - |Writers(s.threads)|
  }

  lemma {:induction false} Below(n: nat, S: set<int>)
    requires forall t :: t in S ==> 0 <= t < n
    ensures |S| <= n
  {
    if n > 0 {
      Below(n - 1, S - {n - 1});
    } else {
      assert forall t :: t !in S;
      assert S == {};
    }
  }

  lemma Cardinality(S: set<int>, t: int)
    ensures |S + {t}| == if t in S then |S| else |S| + 1
    ensures |S - {t}| == if t in S then |S| - 1 else |S|
  {
    assert t in S ==> S + {t} == S && S - {t} + {t} == S;
    assert t !in S ==> S - {t} == S;
  }

  /** One thread changes what it does. */
  lemma DoingChange(ts: seq<Activity>, t: nat, a: Activity, b: Activity)
    requires t < |ts|
    ensures Doing(ts[t := a], b) == if a == b then Doing(ts, b) + {t} else Doing(ts, b) - {t}
    ensures |Doing(ts[t := a], b)| == |Doing(ts, b)| + (if a == b then 1 else 0) - (if ts[t] == b then 1 else 0)
  {
    var ts', S := ts[t := a], if a == b then Doing(ts, b) + {t} else Doing(ts, b) - {t};
    assert forall u :: u in Doing(ts', b) <==> u in S;
    assert Doing(ts', b) == S;
    Cardinality(Doing(ts, b), t);
  }

  lemma SetsChange(ts: seq<Activity>, t: nat, a: Activity)
    requires t < |ts|
    ensures Readers(ts[t := a]) == if a == Reading then Readers(ts) + {t} else Readers(ts) - {t}
    ensures Writers(ts[t := a]) == if a == Writing then Writers(ts) + {t} else Writers(ts) - {t}
    ensures |Readers(ts[t := a])|
         == |Readers(ts)| + (if a == Reading then 1 else 0) - (if ts[t] == Reading then 1 else 0)
    ensures |Writers(ts[t := a])|
         == |Writers(ts)| + (if a == Writing then 1 else 0) - (if ts[t] == Writing then 1 else 0)
  {
    hide Doing;
    DoingChange(ts, t, a, Reading);
    DoingChange(ts, t, a, Writing);
  }

  /** What a lock that admits by sets would do: readers enter while nobody writes, a writer
      enters while nobody is in, and anyone in may leave. */
  ghost predicate Admits(readers: set<int>, writers: set<int>, readers': set<int>, writers': set<int>, t: int) {
    || (readers' == readers && writers' == writers)
    || (writers == {} && t !in readers && readers' == readers + {t} && writers' == writers)
    || (readers == {} && writers == {} && readers' == readers && writers' == {t})
    || (t in readers && readers' == readers - {t} && writers' == writers)
    || (t in writers && readers' == readers && writers' == writers - {t})
  }

  /** Each step keeps the invariant and is a step of the lock that admits by sets, for any number of
      threads, although a thread swaps against a value it read earlier. */
  lemma StepAdmits(s: Lock, s': Lock, t: nat)
    requires Inv(s) && Step(s, s', t)
    ensures Inv(s')
    ensures Admits(Readers(s.threads), Writers(s.threads), Readers(s'.threads), Writers(s'.threads), t)
  {
    hide Readers, Writers, Does, Admits, Word, SeenRight;
    var a, a', R, W := s.threads[t], s'.threads[t], Readers(s.threads), Writers(s.threads);
    SetsChange(s.threads, t, a');
    SetsMember(s.threads, t);
    NotEmpty(R, t);
    NotEmpty(W, t);
    SeenAt(s.threads, t);
    StepCounts(a, s.count, a', s'.count, |R|, |W|);
    SeenChange(s.threads, t, a');
    NotEmpty(Writers(s'.threads), t);
    NotEmpty(Readers(s'.threads), t);
    AdmitsBy(R, W, t, a, a');
  }

  lemma AdmitsBy(R: set<int>, W: set<int>, t: int, a: Activity, a': Activity)
    requires (t in R <==> a == Reading) && (t in W <==> a == Writing)
    requires (a == Reading || a == Writing ==> a' == Outside)
    requires (a' == Reading ==> W == {}) && (a' == Writing ==> R == {} && W == {})
    ensures Admits(R, W, if a' == Reading then R + {t} else R - {t}, if a' == Writing then W + {t} else W - {t}, t)
  {
    assert t !in R ==> R - {t} == R;
    assert t !in W ==> W - {t} == W;
  }

  lemma NotEmpty(S: set<int>, t: int)
    ensures t in S ==> |S| > 0
    ensures S == {} <==> |S| == 0
    ensures |S| == 1 && t in S ==> S - {t} == {}
  {
    Cardinality(S, t);
  }

  /** The word follows the numbers of readers and writers. When the readers are so many that it has
      wrapped around to zero, nobody else comes in. */
  lemma StepCounts(a: Activity, count: nat, a': Activity, count': nat, readers: nat, writers: nat)
    requires Does(a, count, a', count') && count == Word(readers, writers)
    requires readers < WORD && writers <= 1 && (writers == 1 ==> readers == 0)
    requires (a == Reading ==> readers > 0) && (a == Writing ==> writers > 0)
    requires (a.SwapRead? ==> a.seen > 0) && (a.SwapWrite? ==> a.seen == 1)
    ensures var readers' := readers + (if a' == Reading then 1 else 0) - (if a == Reading then 1 else 0);
            var writers' := writers + (if a' == Writing then 1 else 0) - (if a == Writing then 1 else 0);
            && 0 <= readers' < WORD && 0 <= writers' <= 1 && (writers' == 1 ==> readers' == 0)
            && count' == Word(readers', writers')
    ensures (a' == Reading ==> writers == 0) && (a' == Writing ==> readers == 0 && writers == 0)
    ensures (a'.SwapRead? ==> a'.seen > 0) && (a'.SwapWrite? ==> a'.seen == 1)
    ensures a == Reading || a == Writing ==> a' == Outside
  {
    assert readers == WORD - 1 ==> (1 + readers) % WORD == 0;
    assert readers < WORD - 1 ==> (1 + readers) % WORD == 1 + readers;
    if a == Reading {
      assert (count + WORD - 1) % WORD == if count == 0 then WORD - 1 else count - 1;
    }
  }

  lemma SetsMember(ts: seq<Activity>, t: nat)
    requires t < |ts|
    ensures t in Readers(ts) <==> ts[t] == Reading
    ensures t in Writers(ts) <==> ts[t] == Writing
  {
  }

  lemma Bounds(ts: seq<Activity>)
    ensures |Readers(ts)| <= |ts|
  {
    Below(|ts|, Readers(ts));
  }

  lemma {:induction false} RunInv(run: seq<Lock>, k: nat)
    requires IsRun(run) && k < |run|
    ensures Inv(run[k]) && |run[k].threads| == |run[0].threads|
  {
    if k == 0 {
      var ts := run[0].threads;
      assert forall t :: t !in Readers(ts) && t !in Writers(ts);
      assert Readers(ts) == {} && Writers(ts) == {};
    } else {
      RunInv(run, k - 1);
      assert Next(run[k - 1], run[k - 1 + 1]);
      var t :| Step(run[k - 1], run[k], t);
      StepAdmits(run[k - 1], run[k], t);
    }
  }

  /** In every run of any number of threads there is at most one writer, and no reader is in together
      with a writer. */
  lemma RunExclusive(run: seq<Lock>, k: nat)
    requires IsRun(run) && k < |run|
    ensures forall t, u :: 0 <= t < |run[k].threads| && 0 <= u < |run[k].threads| && run[k].threads[t] == Writing ==>
              run[k].threads[u] != Reading && (run[k].threads[u] == Writing ==> t == u)
  {
    RunInv(run, k);
    InvExcludes(run[k]);
  }

  lemma InvExcludes(s: Lock)
    requires Inv(s)
    ensures forall t, u :: 0 <= t < |s.threads| && 0 <= u < |s.threads| && s.threads[t] == Writing ==>
              s.threads[u] != Reading && (s.threads[u] == Writing ==> t == u)
  {
    var R, W := Readers(s.threads), Writers(s.threads);
    forall t, u | 0 <= t < |s.threads| && 0 <= u < |s.threads| && s.threads[t] == Writing
      ensures s.threads[u] != Reading && (s.threads[u] == Writing ==> t == u)
    {
      assert t in W;
      Cardinality(W, t);
      assert W - {t} == {};
      assert s.threads[u] == Reading ==> u in R;
      assert s.threads[u] == Writing ==> u in W;
      assert u in W && u != t ==> u in W - {t};
    }
  }

  // ------------------------------------------------ how many threads is too many

  /** With `n` threads, the word counts who is in, in every state of every run. */
  ghost predicate AlwaysTells(n: nat) {
    forall run: seq<Lock>, k: nat :: IsRun(run) && |run[0].threads| == n && k < |run| ==> Tells(run[k])
  }

  /** The first `k` of `n` threads are reading, and thread `k` does `a`. */
  function Crowd(n: nat, k: nat, a: Activity): Lock {
    Lock((1 + k) % WORD, seq(n, t => if t < k then Reading else if t == k then a else Outside))
  }

  /** Thread `k` enters after the first `k`. */
  lemma OneEnters(n: nat, k: nat)
    requires k < n && k + 1 < WORD
    ensures Step(Crowd(n, k, Outside), Crowd(n, k, WantRead), k)
    ensures Step(Crowd(n, k, WantRead), Crowd(n, k, SwapRead(k + 1)), k)
    ensures Step(Crowd(n, k, SwapRead(k + 1)), Crowd(n, k + 1, Outside), k)
  {
    var s0, s1, s2 := Crowd(n, k, Outside), Crowd(n, k, WantRead), Crowd(n, k, SwapRead(k + 1));
    var s3 := Crowd(n, k + 1, Outside);
    assert s0.count == k + 1;
    assert s1.threads == s0.threads[k := WantRead];
    assert s2.threads == s1.threads[k := SwapRead(k + 1)];
    assert s3.threads == s2.threads[k := Reading];
  }

  lemma RunGrows(run: seq<Lock>, s: Lock, t: nat)
    requires IsRun(run) && Step(run[|run| - 1], s, t)
    ensures IsRun(run + [s]) && (run + [s])[0] == run[0]
  {
    var longer := run + [s];
    forall i | 0 <= i < |longer| - 1 ensures Next(longer[i], longer[i + 1]) {
      if i < |run| - 1 {
        assert Next(run[i], run[i + 1]);
      } else {
        assert Step(longer[i], longer[i + 1], t);
      }
    }
  }

  /** A run in which the first `k` threads enter one after the other and stay. */
  lemma {:induction false} CrowdRun(n: nat, k: nat) returns (run: seq<Lock>)
    requires k <= n && k < WORD
    ensures IsRun(run) && |run[0].threads| == n && run[|run| - 1] == Crowd(n, k, Outside)
    decreases k
  {
    if k == 0 {
      run := [Crowd(n, 0, Outside)];
    } else {
      run := CrowdRun(n, k - 1);
      OneEnters(n, k - 1);
      RunGrows(run, Crowd(n, k - 1, WantRead), k - 1);
      run := run + [Crowd(n, k - 1, WantRead)];
      RunGrows(run, Crowd(n, k - 1, SwapRead(k)), k - 1);
      run := run + [Crowd(n, k - 1, SwapRead(k))];
      RunGrows(run, Crowd(n, k, Outside), k - 1);
      run := run + [Crowd(n, k, Outside)];
    }
  }

  /** The word counts who is in exactly if it can count one more than there are threads: with
      2^64 - 1 readers in, it says that a writer is in, and keeps everybody out. */
  lemma ExactlyWhen(n: nat)
    ensures AlwaysTells(n) <==> n + 1 < WORD
  {
    if n + 1 < WORD {
      forall run: seq<Lock>, k: nat | IsRun(run) && |run[0].threads| == n && k < |run| ensures Tells(run[k]) {
        RunInv(run, k);
        Bounds(run[k].threads);
      }
    } else {
      var run := CrowdRun(n, WORD - 1);
      CrowdWraps(n);
      assert !Tells(run[|run| - 1]);
    }
  }

  lemma CrowdWraps(n: nat)
    requires n + 1 >= WORD
    ensures var s := Crowd(n, WORD - 1, Outside);
            s.count == 0 && Writers(s.threads) == {} && Readers(s.threads) != {} && !Tells(s)
  {
    var s := Crowd(n, WORD - 1, Outside);
    assert s.threads[0] == Reading && 0 in Readers(s.threads);
    assert forall t :: t !in Writers(s.threads);
    assert Writers(s.threads) == {};
  }

  /** Thread `t` of `n` does `a`, the others are outside. */
  function Alone(n: nat, t: nat, a: Activity, count: nat): Lock {
    Lock(count, seq(n, u => if u == t then a else Outside))
  }

  /** The lock can be had: there is a run in which thread `t` writes and leaves again, after which the word is
      as in the beginning. */
  lemma WriterRun(n: nat, t: nat) returns (run: seq<Lock>, k: nat)
    requires t < n
    ensures IsRun(run) && |run[0].threads| == n && 0 < k < |run| - 1
    ensures t < |run[k].threads| && run[k].threads[t] == Writing && run[k].count == 0
    ensures run[|run| - 1] == run[0]
  {
    var out, want := Alone(n, t, Outside, 1), Alone(n, t, WantWrite, 1);
    var swap, writing := Alone(n, t, SwapWrite(1), 1), Alone(n, t, Writing, 0);
    assert want.threads == out.threads[t := WantWrite];
    assert swap.threads == want.threads[t := SwapWrite(1)];
    assert writing.threads == swap.threads[t := Writing];
    assert out.threads == writing.threads[t := Outside];
    run, k := [out], 3;
    RunGrows(run, want, t);
    run := run + [want];
    RunGrows(run, swap, t);
    run := run + [swap];
    RunGrows(run, writing, t);
    run := run + [writing];
    RunGrows(run, out, t);
    run := run + [out];
  }
}
