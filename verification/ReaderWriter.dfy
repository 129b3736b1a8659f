/** The readers-writer protocol of cache.c: exclusion and no lost wakeup, in every reachable
    state and for any number of threads. */
module ReaderWriter {
  import opened ObjectCache

  /** read_cnt and write_cnt count what they are meant to. */
  ghost predicate Counted(s: State) {
    s.readCnt == Count(InSrc, s.threads) && s.writeCnt == Count(Writing, s.threads)
  }

  /** A writer excludes every other writer and every reader past its wait loop. */
  ghost predicate Exclusive(ts: seq<Thread>) {
    forall j, k | 0 <= j < |ts| && 0 <= k < |ts| && Writing(ts[j]) && (Writing(ts[k]) || Reading(ts[k])) :: j == k
  }

  /** Whoever sleeps without a wakeup on the way can name who will send one. */
  ghost predicate NoLostWakeup(s: State) {
    && (forall j | 0 <= j < |s.threads| :: s.threads[j].SrcAsleep? && Unnotified(s.threads[j]) ==> s.writeCnt > 0)
    && (forall j | 0 <= j < |s.threads| :: s.threads[j].AddAsleep? && Unnotified(s.threads[j]) ==>
          s.readCnt > 0 || s.writeCnt > 0 || exists k | 0 <= k < |s.threads| :: Notified(s.threads[k]))
  }

  ghost predicate Locked(s: State) {
    Counted(s) && Exclusive(s.threads) && NoLostWakeup(s)
  }

  /** The others only ever get notified. */
  ghost predicate Others(ts: seq<Thread>, ts': seq<Thread>, t: nat) {
    && |ts'| == |ts| && t < |ts|
    && forall j | 0 <= j < |ts| && j != t :: ts'[j] == ts[j] || ts'[j] == Notify(ts[j])
  }

  function One(b: bool): int { if b then 1 else 0 }

  /** What a step of thread t does to the counters and to who may be where. */
  ghost predicate Effect(s: State, s': State, t: nat) {
    && Others(s.threads, s'.threads, t)
    && var th, th' := s.threads[t], s'.threads[t];
    && s'.readCnt == s.readCnt - One(InSrc(th)) + One(InSrc(th'))
    && s'.writeCnt == s.writeCnt - One(Writing(th)) + One(Writing(th'))
    && (Writing(th') && !Writing(th) ==> s.readCnt <= 0 && s.writeCnt <= 0)
    && (Reading(th') && !Reading(th) ==> s.writeCnt <= 0)
    && (Asleep(th) ==> Unnotified(th') || Writing(th') || Reading(th'))
    && (Unnotified(th') ==> s'.writeCnt > 0 || (th'.AddAsleep? && s'.readCnt > 0))
    && (Writing(th) && !Writing(th') ==> forall j | 0 <= j < |s'.threads| :: !Unnotified(s'.threads[j]))
    && (InSrc(th) && !InSrc(th') && s'.readCnt == 0 && (exists j | 0 <= j < |s.threads| :: Unnotified(s.threads[j])) ==>
          exists k | 0 <= k < |s.threads| :: Notified(s'.threads[k]))
  }

  lemma SrcEffect(s: State, s': State, t: nat)
    requires t < |s.threads| && SrcStep(s, s', t)
    ensures Effect(s, s', t)
  {
    if s.threads[t].SrcLeave? {
      var mid := s.threads[t := Idle];
      if s'.readCnt == 0 && exists j | 0 <= j < |s.threads| :: Unnotified(s.threads[j]) {
        var j :| 0 <= j < |s.threads| && Unnotified(s.threads[j]);
        assert Unnotified(mid[j]);
      }
    }
  }

  lemma AddEffect(s: State, s': State, t: nat)
    requires t < |s.threads| && AddStep(s, s', t)
    ensures Effect(s, s', t)
  {
  }

  lemma StepEffect(s: State, s': State, t: nat)
    requires Step(s, s', t)
    ensures Effect(s, s', t)
  {
    hide SrcStep, AddStep;
    if s.threads[t].Idle? || s.threads[t].Relaying? {
    } else if SrcStep(s, s', t) {
      SrcEffect(s, s', t);
    } else {
      AddEffect(s, s', t);
    }
  }

  lemma CountedStep(s: State, s': State, t: nat)
    requires Effect(s, s', t) && Counted(s)
    ensures Counted(s')
  {
    RolesKept(s, s', t);
    hide SameBut, Others;
    CountStep(InSrc, s.threads, s'.threads, t);
    CountStep(Writing, s.threads, s'.threads, t);
  }

  /** A notification does not change where a thread is counted. */
  lemma RolesKept(s: State, s': State, t: nat)
    requires Others(s.threads, s'.threads, t)
    ensures SameBut(InSrc, s.threads, s'.threads, t) && SameBut(Writing, s.threads, s'.threads, t)
  {
  }

  lemma NobodyCounted(s: State)
    requires Counted(s)
    ensures s.readCnt <= 0 <==> forall j | 0 <= j < |s.threads| :: !InSrc(s.threads[j])
    ensures s.writeCnt <= 0 <==> forall j | 0 <= j < |s.threads| :: !Writing(s.threads[j])
  {
    CountNone(InSrc, s.threads);
    CountNone(Writing, s.threads);
  }

  lemma ExclusiveStep(s: State, s': State, t: nat)
    requires Effect(s, s', t) && Counted(s) && Exclusive(s.threads)
    ensures Exclusive(s'.threads)
  {
    hide Counted, Count;
    NobodyCounted(s);
  }

  lemma {:induction false} LeavingNotifies(s: State, s': State, t: nat)
    requires Effect(s, s', t) && Counted(s) && s.writeCnt > 0 && s'.writeCnt <= 0
    ensures forall j | 0 <= j < |s'.threads| :: !Unnotified(s'.threads[j])
  {
    hide Counted, Count;
    CountedStep(s, s', t);
    NobodyCounted(s);
    NobodyCounted(s');
  }

  lemma SleepersStep(s: State, s': State, t: nat)
    requires Effect(s, s', t) && Counted(s) && NoLostWakeup(s)
    ensures NoLostWakeup(s')
  {
    hide Counted, Count;
    CountedStep(s, s', t);
    NobodyCounted(s);
    NobodyCounted(s');
    forall j | 0 <= j < |s'.threads| && Unnotified(s'.threads[j])
      ensures if s'.threads[j].SrcAsleep? then s'.writeCnt > 0
              else s'.readCnt > 0 || s'.writeCnt > 0 || exists k | 0 <= k < |s'.threads| :: Notified(s'.threads[k])
    {
      if s'.writeCnt <= 0 && j != t {
        assert s'.threads[j] == s.threads[j];
        if s.writeCnt > 0 {
          LeavingNotifies(s, s', t);
        } else {
          SleeperKept(s, s', t, j);
        }
      }
    }
  }

  /** A sleeping writer whose reader, or whose notified colleague, has just moved. */
  lemma SleeperKept(s: State, s': State, t: nat, j: nat)
    requires Effect(s, s', t) && Counted(s) && Counted(s') && NoLostWakeup(s)
    requires j < |s.threads| && j != t && s'.threads[j] == s.threads[j] && Unnotified(s.threads[j])
    requires s.writeCnt <= 0 && s'.writeCnt <= 0
    ensures s.threads[j].AddAsleep?
    ensures s'.readCnt > 0 || exists k | 0 <= k < |s'.threads| :: Notified(s'.threads[k])
  {
    hide Counted, Count;
    if s'.readCnt <= 0 {
      NobodyCounted(s');
      NobodyCounted(s);
      if s.readCnt <= 0 {
        var k :| 0 <= k < |s.threads| && Notified(s.threads[k]);
        if k != t {
          assert Notified(s'.threads[k]);
        }
      }
    }
  }

  lemma LockedInit(s: State)
    requires Init(s)
    ensures Locked(s)
  {
    CountNone(InSrc, s.threads);
    CountNone(Writing, s.threads);
  }

  lemma LockedStep(s: State, s': State, t: nat)
    requires Locked(s) && Step(s, s', t)
    ensures Locked(s')
  {
    hide Step, Effect, Counted, Exclusive, NoLostWakeup;
    StepEffect(s, s', t);
    CountedStep(s, s', t);
    ExclusiveStep(s, s', t);
    SleepersStep(s, s', t);
  }

  /** The step by which the last writer leaves notifies every sleeper, reader or writer. */
  lemma LastWriterLeaves(s: State, s': State, t: nat)
    requires Locked(s) && Step(s, s', t) && s.writeCnt > 0 && s'.writeCnt <= 0
    ensures forall j | 0 <= j < |s'.threads| :: !Unnotified(s'.threads[j])
  {
    hide Step, Effect, Counted, Exclusive, NoLostWakeup;
    StepEffect(s, s', t);
    LeavingNotifies(s, s', t);
  }

  lemma {:induction false} RunLocked(b: seq<State>)
    requires Run(b)
    ensures forall n | 0 <= n < |b| :: Locked(b[n])
  {
    hide Locked, Step, Init;
    if |b| == 1 {
      LockedInit(b[0]);
    } else {
      var m := |b| - 1;
      RunPrefix(b);
      RunLocked(b[..m]);
      var t :| Step(b[m - 1], b[m], t);
      assert b[..m][m - 1] == b[m - 1];
      LockedStep(b[m - 1], b[m], t);
      forall n | 0 <= n < |b| ensures Locked(b[n]) {
        if n < m { assert b[..m][n] == b[n]; }
      }
    }
  }

  /** In every state of every run, a writer between its critical sections is alone: there is no
      other writer there and no reader past its wait loop. */
  lemma WriterAlone(b: seq<State>, n: nat, j: nat, k: nat)
    requires Run(b) && n < |b| && j < |b[n].threads| && k < |b[n].threads| && j != k
    requires Writing(b[n].threads[j])
    ensures !Writing(b[n].threads[k]) && !Reading(b[n].threads[k])
  {
    hide Run, Counted, NoLostWakeup;
    RunLocked(b);
    assert Locked(b[n]);
  }

  /** Inside cache_src or cache_add. */
  predicate InProtocol(th: Thread) {
    !th.Idle? && !th.Relaying?
  }

  /** In every state of every run in which some call of cache_src or cache_add is under way, a thread
      in such a call is awake or has been notified: the protocol never sleeps for good. */
  lemma SomeoneAwake(b: seq<State>, n: nat, j: nat)
    requires Run(b) && n < |b| && j < |b[n].threads| && InProtocol(b[n].threads[j])
    ensures exists k | 0 <= k < |b[n].threads| :: InProtocol(b[n].threads[k]) && !Unnotified(b[n].threads[k])
  {
    hide Run, Counted, Exclusive;
    RunLocked(b);
    assert Locked(b[n]);
    NobodyCounted(b[n]);
    var s := b[n];
    if Unnotified(s.threads[j]) {
      if s.writeCnt > 0 {
        var k :| 0 <= k < |s.threads| && Writing(s.threads[k]);
      } else if s.readCnt > 0 {
        var k :| 0 <= k < |s.threads| && InSrc(s.threads[k]);
      }
    }
  }
}
