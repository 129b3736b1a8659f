/** The proxy's bounded queue of connections (proxy.c): a ring buffer under one mutex and one
    condition variable, used by any number of pushers and poppers. */
module BoundedQueue {

  /** The fields of queue_t. A negative capacity never gets this far: its allocation fails, which
      ends the process. */
  datatype Ring = Ring(buf: seq<int>, front: int, rear: int, cap: int, size: int)

  ghost predicate RingOk(q: Ring) {
    && |q.buf| == q.cap
    && if q.cap == 0 then q.front == 0 && q.rear == 0 && q.size == 0
       else 0 <= q.front < q.cap && 0 <= q.size <= q.cap && q.rear == (q.front + q.size) % q.cap
  }

  /** The values in the queue, oldest first. */
  ghost function Contents(q: Ring): (s: seq<int>)
    requires RingOk(q)
    ensures |s| == q.size
  {
    seq(q.size, k requires 0 <= k < q.size && q.cap > 0 && |q.buf| == q.cap => q.buf[(q.front + k) % q.cap])
  }

  function Insert(q: Ring, fd: int): Ring
    requires 0 <= q.size < q.cap == |q.buf| && q.rear >= 0
  {
    q.(buf := q.buf[q.rear % q.cap := fd], size := q.size + 1, rear := (q.rear + 1) % q.cap)
  }

  function Oldest(q: Ring): int
    requires 0 < q.cap == |q.buf| && q.front >= 0
  {
    q.buf[q.front % q.cap]
  }

  function Remove(q: Ring): Ring
    requires 0 < q.cap == |q.buf|
  {
    q.(size := q.size - 1, front := (q.front + 1) % q.cap)
  }

  /** Reduction of an index that has left the buffer by less than one turn. */
  lemma Wrap(x: int, n: int)
    requires 0 <= x < 2 * n
    ensures x % n == if x < n then x else x - n
  {
    if x < n {
      assert x == 0 * n + x;
    } else {
      assert x == 1 * n + (x - n);
    }
  }

  lemma InsertAppends(q: Ring, fd: int)
    requires RingOk(q) && q.size < q.cap
    ensures q.rear >= 0 && RingOk(Insert(q, fd))
    ensures Contents(Insert(q, fd)) == Contents(q) + [fd]
  {
    var q', n := Insert(q, fd), q.cap;
    Wrap(q.front + q.size, n);
    Wrap(q.rear, n);
    Wrap(q.rear + 1, n);
    Wrap(q.front + q.size + 1, n);
    forall k | 0 <= k <= q.size ensures Contents(q')[k] == (Contents(q) + [fd])[k] {
      Wrap(q.front + k, n);
    }
  }

  lemma RemoveTakesOldest(q: Ring)
    requires RingOk(q) && q.size > 0
    ensures RingOk(Remove(q))
    ensures Contents(q) == [Oldest(q)] + Contents(Remove(q))
  {
    var q', n := Remove(q), q.cap;
    Wrap(q.front, n);
    Wrap(q.front + 1, n);
    Wrap(q.front + q.size, n);
    Wrap(q'.front + q'.size, n);
    forall k | 0 <= k < q.size ensures Contents(q)[k] == ([Oldest(q)] + Contents(q'))[k] {
      if k > 0 {
        var m := k - 1;
        Wrap(q.front + k, n);
        Wrap(q'.front + m, n);
        assert Contents(q')[m] == q.buf[(q'.front + m) % n];
      }
    }
  }

  /** queue_t itself, with the bodies of the two critical sections. */
  class FdQueue {
    var buf: array<int>
    var front: int
    var rear: int
    var cap: int
    var size: int

    ghost function Value(): Ring
      reads this, buf
    {
      Ring(buf[..], front, rear, cap, size)
    }

    ghost predicate Valid()
      reads this, buf
    {
      RingOk(Value())
    }

    /** queue_init. */
    constructor (capacity: nat)
      ensures Valid() && fresh(buf) && cap == capacity && Contents(Value()) == []
    {
      front, rear, size, cap := 0, 0, 0, capacity;
      buf := new int[capacity];
      new;
      if capacity > 0 { Wrap(0, capacity); }
    }

    /** queue_push once its wait is over. */
    method Put(fd: int)
      requires Valid() && size < cap
      modifies this`rear, this`size, buf
      ensures Valid() && Value() == Insert(old(Value()), fd)
      ensures Contents(Value()) == old(Contents(Value())) + [fd]
    {
      InsertAppends(Value(), fd);
      buf[rear % cap] := fd;
      size := size + 1;
      rear := (rear + 1) % cap;
    }

    /** queue_pop once its wait is over. */
    method Get() returns (fd: int)
      requires Valid() && size > 0
      modifies this`front, this`size
      ensures Valid() && Value() == Remove(old(Value()))
      ensures old(Contents(Value())) == [fd] + Contents(Value())
    {
      RemoveTakesOldest(Value());
      fd := buf[front % cap];
      size := size - 1;
      front := (front + 1) % cap;
    }
  }

  // ----- Any number of threads -----

  datatype Thread =
    | Idle
    | PushEnter(fd: int)
    | PushAsleep(fd: int, notified: bool)
    | PopEnter
    | PopAsleep(notified: bool)

  /** The queue, the threads, and all values pushed and popped so far, in order. */
  datatype State = State(q: Ring, threads: seq<Thread>, pushed: seq<int>, popped: seq<int>)

  predicate Unnotified(th: Thread) { (th.PushAsleep? || th.PopAsleep?) && !th.notified }

  function Notify(th: Thread): Thread {
    if th.PushAsleep? || th.PopAsleep? then th.(notified := true) else th
  }

  /** pthread_cond_broadcast: every waiter is notified. */
  ghost predicate Broadcast(ts: seq<Thread>, r: seq<Thread>) {
    |r| == |ts| && forall j | 0 <= j < |ts| :: r[j] == Notify(ts[j])
  }

  ghost predicate PushStep(s: State, s': State, t: nat, fd: int)
    requires t < |s.threads|
  {
    if s.q.size >= s.q.cap then s' == s.(threads := s.threads[t := PushAsleep(fd, false)])
    else
      && 0 <= s.q.size < s.q.cap == |s.q.buf| && s.q.rear >= 0
      && s' == s.(q := Insert(s.q, fd), pushed := s.pushed + [fd], threads := s'.threads)
      && Broadcast(s.threads[t := Idle], s'.threads)
  }

  ghost predicate PopStep(s: State, s': State, t: nat)
    requires t < |s.threads|
  {
    if s.q.size <= 0 then s' == s.(threads := s.threads[t := PopAsleep(false)])
    else
      && 0 < s.q.cap == |s.q.buf| && s.q.front >= 0
      && s' == s.(q := Remove(s.q), popped := s.popped + [Oldest(s.q)], threads := s'.threads)
      && Broadcast(s.threads[t := Idle], s'.threads)
  }

  /** Thread t begins a call, or runs its critical section up to the wait or to the end. A thread
      asleep may wake up notified or not. */
  ghost predicate Step(s: State, s': State, t: nat) {
    t < |s.threads| &&
    match s.threads[t]
    case Idle =>
      || s' == s.(threads := s.threads[t := PopEnter])
      || exists fd :: s' == s.(threads := s.threads[t := PushEnter(fd)])
    case PushEnter(fd) => PushStep(s, s', t, fd)
    case PushAsleep(fd, _) => PushStep(s, s', t, fd)
    case PopEnter => PopStep(s, s', t)
    case PopAsleep(_) => PopStep(s, s', t)
  }

  ghost predicate Next(s: State, s': State) {
    exists t :: Step(s, s', t)
  }

  /** State n of a run comes from the one before. */
  ghost predicate Follows(b: seq<State>, n: int) {
    1 <= n < |b| && Next(b[n - 1], b[n])
  }

  ghost predicate Init(s: State, cap: int) {
    && (forall t | 0 <= t < |s.threads| :: s.threads[t].Idle?)
    && s.q.cap == cap && s.q.front == 0 && s.q.rear == 0 && s.q.size == 0
    && |s.q.buf| == cap
    && s.pushed == [] && s.popped == []
  }

  ghost predicate Run(b: seq<State>, cap: int) {
    && |b| > 0 && Init(b[0], cap)
    && forall n | 1 <= n < |b| :: Follows(b, n)
  }

  ghost predicate Fifo(s: State) {
    RingOk(s.q) && s.pushed == s.popped + Contents(s.q)
  }

  /** Nobody sleeps, not yet notified, although it could go on. */
  ghost predicate NoLostWakeup(s: State) {
    forall j | 0 <= j < |s.threads| && Unnotified(s.threads[j]) ::
      if s.threads[j].PushAsleep? then s.q.size >= s.q.cap else s.q.size <= 0
  }

  /** A call ends with its next step if and only if there is room, or something to take: a push has then
      appended its value and nothing else, a pop has taken the oldest value and nothing else. */
  lemma CallEnds(s: State, s': State, t: nat)
    requires Step(s, s', t) && Fifo(s) && !s.threads[t].Idle?
    ensures t < |s'.threads|
    ensures var th := s.threads[t];
            if th.PushEnter? || th.PushAsleep? then
              && (s'.threads[t].Idle? <==> s.q.size < s.q.cap)
              && s'.pushed == (if s'.threads[t].Idle? then s.pushed + [th.fd] else s.pushed) && s'.popped == s.popped
            else
              && (s'.threads[t].Idle? <==> |s.popped| < |s.pushed|) && s'.pushed == s.pushed
              && s'.popped == if s'.threads[t].Idle? then s.pushed[..|s.popped| + 1] else s.popped
  {
    hide Insert, Remove;
    if s.q.size > 0 {
      RemoveTakesOldest(s.q);
      assert s.pushed == s.popped + Contents(s.q);
    }
  }

  lemma FifoStep(s: State, s': State, t: nat)
    requires Step(s, s', t) && Fifo(s)
    ensures Fifo(s') && s'.q.cap == s.q.cap
  {
    hide RingOk, Contents, Broadcast, Insert, Remove, Oldest;
    var th := s.threads[t];
    if (th.PushEnter? || th.PushAsleep?) && s.q.size < s.q.cap {
      PushKeeps(s, s', th.fd);
    } else if (th.PopEnter? || th.PopAsleep?) && s.q.size > 0 {
      PopKeeps(s, s');
    }
  }

  lemma PushKeeps(s: State, s': State, fd: int)
    requires Fifo(s) && s.q.size < s.q.cap && s.q.rear >= 0 && |s.q.buf| == s.q.cap && s.q.size >= 0
    requires s'.q == Insert(s.q, fd) && s'.pushed == s.pushed + [fd] && s'.popped == s.popped
    ensures Fifo(s') && s'.q.cap == s.q.cap
  {
    hide Contents;
    InsertAppends(s.q, fd);
    assert s.popped + (Contents(s.q) + [fd]) == (s.popped + Contents(s.q)) + [fd];
  }

  lemma PopKeeps(s: State, s': State)
    requires Fifo(s) && s.q.size > 0
    requires s'.q == Remove(s.q) && s'.pushed == s.pushed && s'.popped == s.popped + [Oldest(s.q)]
    ensures Fifo(s') && s'.q.cap == s.q.cap
  {
    hide Contents, Oldest;
    RemoveTakesOldest(s.q);
    assert s.popped + ([Oldest(s.q)] + Contents(s'.q)) == (s.popped + [Oldest(s.q)]) + Contents(s'.q);
  }

  lemma SleepersStep(s: State, s': State, t: nat)
    requires Step(s, s', t) && NoLostWakeup(s)
    ensures NoLostWakeup(s')
  {
  }

  ghost predicate Kept(s: State, cap: int) {
    Fifo(s) && NoLostWakeup(s) && s.q.cap == cap
  }

  lemma {:induction false} RunKeeps(b: seq<State>, cap: int)
    requires Run(b, cap)
    ensures forall n | 0 <= n < |b| :: Kept(b[n], cap)
  {
    hide Step, Init, Kept;
    if |b| == 1 {
      InitKeeps(b[0], cap);
    } else {
      var m := |b| - 1;
      RunPrefix(b, cap);
      RunKeeps(b[..m], cap);
      var t :| Step(b[m - 1], b[m], t);
      assert b[..m][m - 1] == b[m - 1];
      KeptStep(b[m - 1], b[m], t, cap);
      forall n | 0 <= n < |b| ensures Kept(b[n], cap) {
        if n < m { assert b[..m][n] == b[n]; }
      }
    }
  }

  lemma KeptStep(s: State, s': State, t: nat, cap: int)
    requires Step(s, s', t) && Kept(s, cap)
    ensures Kept(s', cap)
  {
    hide Step, Fifo, NoLostWakeup;
    FifoStep(s, s', t);
    SleepersStep(s, s', t);
  }

  lemma InitKeeps(s: State, cap: int)
    requires Init(s, cap)
    ensures Kept(s, cap)
  {
    if cap > 0 { Wrap(0, cap); }
  }

  lemma RunPrefix(b: seq<State>, cap: int)
    requires Run(b, cap) && |b| > 1
    ensures Run(b[..|b| - 1], cap)
    ensures Next(b[|b| - 2], b[|b| - 1])
  {
    hide Next, Init;
    var m := |b| - 1;
    assert b[..m][0] == b[0];
    forall n | 1 <= n < m ensures Follows(b[..m], n) {
      assert Follows(b, n) && b[..m][n - 1] == b[n - 1] && b[..m][n] == b[n];
    }
    assert Follows(b, m);
  }

  // ----- What holds in every state of every run -----

  /** Values come out in the order they went in, none lost and none twice: what has been popped is
      the front of what has been pushed, and the buffer holds exactly the rest. */
  lemma FirstInFirstOut(b: seq<State>, cap: int, n: nat)
    requires Run(b, cap) && n < |b|
    ensures b[n].popped <= b[n].pushed
    ensures RingOk(b[n].q) && Contents(b[n].q) == b[n].pushed[|b[n].popped|..]
    ensures cap > 0 ==> b[n].q.rear == (b[n].q.front + b[n].q.size) % cap
  {
    hide Run, Contents;
    RunKeeps(b, cap);
    assert Kept(b[n], cap);
  }

  function Woken(ts: seq<Thread>): seq<Thread> {
    seq(|ts|, j requires 0 <= j < |ts| => Notify(ts[j]))
  }

  /** Every thread under way can make its next step. */
  lemma CanStep(b: seq<State>, cap: int, n: nat, t: nat)
    requires Run(b, cap) && n < |b| && t < |b[n].threads| && !b[n].threads[t].Idle?
    ensures exists s' :: Step(b[n], s', t)
  {
    hide Run, Contents, NoLostWakeup, Insert, Remove, Oldest;
    RunKeeps(b, cap);
    assert Kept(b[n], cap);
    var s, th, idle := b[n], b[n].threads[t], Woken(b[n].threads[t := Idle]);
    assert Broadcast(s.threads[t := Idle], idle);
    hide Woken;
    RearInside(s.q);
    var s' := match th
      case PushEnter(fd) => Pushed(s, t, fd, idle)
      case PushAsleep(fd, _) => Pushed(s, t, fd, idle)
      case PopEnter => Popped(s, t, idle)
      case PopAsleep(_) => Popped(s, t, idle)
      case Idle => s;
    assert Step(s, s', t);
  }

  lemma RearInside(q: Ring)
    requires RingOk(q)
    ensures q.rear >= 0 && q.front >= 0 && q.cap == |q.buf| && 0 <= q.size <= q.cap
  {
  }

  function Pushed(s: State, t: nat, fd: int, idle: seq<Thread>): State
    requires t < |s.threads| && s.q.cap == |s.q.buf| && s.q.rear >= 0 && s.q.size >= 0
  {
    if s.q.size >= s.q.cap then s.(threads := s.threads[t := PushAsleep(fd, false)])
    else s.(q := Insert(s.q, fd), pushed := s.pushed + [fd], threads := idle)
  }

  function Popped(s: State, t: nat, idle: seq<Thread>): State
    requires t < |s.threads| && s.q.cap == |s.q.buf| && s.q.front >= 0 && s.q.size <= s.q.cap
  {
    if s.q.size <= 0 then s.(threads := s.threads[t := PopAsleep(false)])
    else s.(q := Remove(s.q), popped := s.popped + [Oldest(s.q)], threads := idle)
  }

  /** A pusher and a popper both asleep with no wakeup on the way. */
  ghost predicate Stuck(s: State) {
    exists j, k | 0 <= j < |s.threads| && 0 <= k < |s.threads| ::
      && s.threads[j].PushAsleep? && Unnotified(s.threads[j])
      && s.threads[k].PopAsleep? && Unnotified(s.threads[k])
  }

  ghost predicate NeverStuck(cap: int) {
    forall b, n: nat {:trigger Run(b, cap), b[n]} | Run(b, cap) && n < |b| :: !Stuck(b[n])
  }

  lemma SleepersDiffer(b: seq<State>, cap: int, n: nat)
    requires Run(b, cap) && n < |b| && cap > 0
    ensures !Stuck(b[n])
  {
    hide Run, Fifo;
    RunKeeps(b, cap);
    assert Kept(b[n], cap);
  }

  /** With no room at all, one pusher and one popper wait for each other for good. */
  lemma NoRoomSticks()
    ensures !NeverStuck(0)
  {
    var cap := 0;
    var q := Ring([], 0, 0, cap, 0);
    var s0 := State(q, [Idle, Idle], [], []);
    var s1 := State(q, [PushEnter(7), Idle], [], []);
    var s2 := State(q, [PushAsleep(7, false), Idle], [], []);
    var s3 := State(q, [PushAsleep(7, false), PopEnter], [], []);
    var s4 := State(q, [PushAsleep(7, false), PopAsleep(false)], [], []);
    var b := [s0, s1, s2, s3, s4];
    assert Step(s0, s1, 0) && Step(s1, s2, 0) && Step(s2, s3, 1) && Step(s3, s4, 1);
    hide Step;
    assert Run(b, cap);
    assert s4.threads[0].PushAsleep? && s4.threads[1].PopAsleep?;
    assert Stuck(b[4]);
  }

  /** No reachable state has a pusher and a popper both asleep un-notified, exactly when the queue
      has room for something. */
  lemma NeverStuckIffRoom(cap: nat)
    ensures NeverStuck(cap) <==> cap > 0
  {
    hide Stuck, Run;
    if cap > 0 {
      forall b, n: nat {:trigger Run(b, cap), b[n]} | Run(b, cap) && n < |b| ensures !Stuck(b[n]) {
        SleepersDiffer(b, cap, n);
      }
    } else {
      NoRoomSticks();
    }
  }
}
