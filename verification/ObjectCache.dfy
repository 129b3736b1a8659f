/** The proxy's shared object cache (cache.c): cache_src, and cache_add after the copy loop of
    do_request (proxy.c), run by any number of threads. A critical section of the mutex is one
    step, since nothing inside it blocks; every access outside the mutex is a step of its own. A
    thread in pthread_cond_wait is asleep, and notified or not; it may wake up either way. */
module ObjectCache {
  import Relay

  const MAX_CACHE_SIZE := 10
  const MAX_OBJECT_SIZE := Relay.MAX_OBJECT_SIZE
  const URILEN := 1024

  type Content = string

  /** One cache slot: a buffer of which the first size bytes count. */
  datatype Entry = Entry(url: string, size: int, stamp: int, buf: Content)

  datatype Thread =
    | Idle
    | SrcEnter(url: string)
    | SrcAsleep(url: string, notified: bool)
    | SrcScan(url: string, i: nat)
    | SrcStamp(url: string, i: nat)
    | SrcSend(url: string, i: nat)
    | SrcLeave(url: string, found: bool)
    | Relaying(url: string, response: string, n: nat, buf: Content)
    | AddEnter(url: string, content: Content)
    | AddAsleep(url: string, content: Content, notified: bool)
    | AddChoose(url: string, content: Content)
    | AddScan(url: string, content: Content, i: nat, oldTime: int, index: nat)
    | AddUrl(url: string, content: Content, i: nat, grow: bool)
    | AddContent(url: string, content: Content, i: nat, grow: bool)
    | AddSize(url: string, content: Content, i: nat, grow: bool)
    | AddStamp(url: string, content: Content, i: nat, grow: bool)
    | AddBump(url: string, content: Content, i: nat)
    | AddLeave(url: string, content: Content, i: nat)

  /** The shared variables, the threads, and four histories: the whole responses that copy loops
      have received, the objects stored by completed calls of cache_add, the objects sent by
      cache_src, and the slots stamped, in order. */
  datatype State = State(
    threads: seq<Thread>,
    readCnt: int, writeCnt: int, timestp: int, cacheSize: nat, caches: seq<Entry>,
    received: set<(string, string)>, stored: set<(string, Content)>, sent: seq<(string, Content)>, uses: seq<nat>)

  predicate Asleep(th: Thread) { th.SrcAsleep? || th.AddAsleep? }

  predicate Unnotified(th: Thread) { Asleep(th) && !th.notified }

  predicate Notified(th: Thread) { Asleep(th) && th.notified }

  function Notify(th: Thread): Thread {
    if Asleep(th) then th.(notified := true) else th
  }

  /** pthread_cond_broadcast: every waiter is notified. */
  ghost predicate Broadcast(ts: seq<Thread>, r: seq<Thread>) {
    |r| == |ts| && forall j | 0 <= j < |ts| :: r[j] == Notify(ts[j])
  }

  /** pthread_cond_signal: if there is a waiter, at least one is now notified. */
  ghost predicate Signal(ts: seq<Thread>, r: seq<Thread>) {
    && |r| == |ts|
    && (forall j | 0 <= j < |ts| :: r[j] == ts[j] || r[j] == Notify(ts[j]))
    && ((exists j | 0 <= j < |ts| :: Unnotified(ts[j])) ==> exists j | 0 <= j < |ts| :: Notified(r[j]))
  }

  /** Past the wait loop of cache_src and not yet out. */
  predicate Reading(th: Thread) { th.SrcScan? || th.SrcStamp? || th.SrcSend? || th.SrcLeave? }

  /** Counted in read_cnt. */
  predicate InSrc(th: Thread) { th.SrcAsleep? || Reading(th) }

  predicate WritesEntry(th: Thread) {
    th.AddUrl? || th.AddContent? || th.AddSize? || th.AddStamp? || th.AddBump? || th.AddLeave?
  }

  /** Counted in write_cnt: between the two critical sections of cache_add. */
  predicate Writing(th: Thread) {
    th.AddChoose? || th.AddScan? || WritesEntry(th)
  }

  function SrcWait(s: State, url: string): Thread {
    if s.writeCnt > 0 then SrcAsleep(url, false) else SrcScan(url, 0)
  }

  ghost predicate AddWait(s: State, s': State, t: nat, url: string, content: Content)
    requires t < |s.threads|
  {
    if s.readCnt > 0 || s.writeCnt > 0 then s' == s.(threads := s.threads[t := AddAsleep(url, content, false)])
    else s' == s.(writeCnt := s.writeCnt + 1, threads := s.threads[t := AddChoose(url, content)])
  }

  /** memcpy of the object into the slot's buffer. */
  function Overwrite(buf: Content, content: Content): Content
    requires |content| <= |buf|
  {
    content + buf[|content|..]
  }

  /** Only thread t moves on its own, to th. */
  ghost predicate Goes(s: State, s': State, t: nat, th: Thread)
    requires t < |s.threads|
  {
    s' == s.(threads := s.threads[t := th])
  }

  /** Thread t writes slot i and goes to th. */
  ghost predicate Writes(s: State, s': State, t: nat, th: Thread, i: nat, e: Entry)
    requires t < |s.threads|
  {
    i < |s.caches| && s' == s.(threads := s.threads[t := th], caches := s.caches[i := e])
  }

  /** Thread t stamps slot i under the mutex and goes to th. */
  ghost predicate Stamps(s: State, s': State, t: nat, th: Thread, i: nat)
    requires t < |s.threads|
  {
    && i < |s.caches|
    && s' == s.(threads := s.threads[t := th], caches := s.caches[i := s.caches[i].(stamp := s.timestp)],
                timestp := s.timestp + 1, uses := s.uses + [i])
  }

  /** A url and its terminator fit the array that a slot has for them. */
  predicate UrlFits(url: string) { |url| < URILEN }

  function Scanned(s: State, url: string, i: nat): Thread
    requires i < s.cacheSize ==> i < |s.caches|
  {
    if i >= s.cacheSize then SrcLeave(url, false)
    else if s.caches[i].url == url then SrcStamp(url, i) else SrcScan(url, i + 1)
  }

  function Searched(s: State, th: Thread): Thread
    requires th.AddScan? && (th.i < MAX_CACHE_SIZE ==> th.i < |s.caches|)
  {
    if th.i >= MAX_CACHE_SIZE then AddUrl(th.url, th.content, th.index, false)
    else if s.caches[th.i].stamp < th.oldTime then
      AddScan(th.url, th.content, th.i + 1, s.caches[th.i].stamp, th.i)
    else AddScan(th.url, th.content, th.i + 1, th.oldTime, th.index)
  }

  /** What the source reads of a slot when it sends it. */
  predicate Readable(e: Entry) { 0 <= e.size <= |e.buf| }

  function Body(e: Entry): Content
    requires Readable(e)
  {
    e.buf[..e.size]
  }

  /** A request begins: with a look into the cache, or, after a miss, with the response that the
      server is going to send and a buffer of any content. */
  ghost predicate StartStep(s: State, s': State, t: nat)
    requires t < |s.threads|
  {
    || (exists url: string {:trigger SrcEnter(url)} :: Goes(s, s', t, SrcEnter(url)))
    || (exists url: string, response: string, buf: Content {:trigger Relaying(url, response, 0, buf)} ::
          |buf| == MAX_OBJECT_SIZE && Goes(s, s', t, Relaying(url, response, 0, buf)))
  }

  /** What follows the copy loop: only a response that is shorter than the buffer is added. */
  function Copied(url: string, response: string, buf: Content): Thread
    requires |response| < MAX_OBJECT_SIZE ==> |response| <= |buf|
  {
    if |response| < MAX_OBJECT_SIZE then AddEnter(url, buf[..|response|]) else Idle
  }

  /** A round of the copy loop, or its end. */
  ghost predicate RelayStep(s: State, s': State, t: nat)
    requires t < |s.threads|
  {
    match s.threads[t]
    case Relaying(url, response, n, buf) =>
      n <= |response| &&
      var piece := Relay.NextPiece(response[n..]);
      if piece != "" then
        && Relay.Holds(buf, n + |piece|)
        && Goes(s, s', t, Relaying(url, response, n + |piece|, Relay.Kept(buf, n, piece)))
      else
        && Relay.Holds(buf, |response|)
        && s' == s.(received := s.received + {(url, response)}, threads := s.threads[t := Copied(url, response, buf)])
    case _ => false
  }

  ghost predicate SrcStep(s: State, s': State, t: nat)
    requires t < |s.threads|
  {
    match s.threads[t]
    case SrcEnter(url) => s' == s.(readCnt := s.readCnt + 1, threads := s.threads[t := SrcWait(s, url)])
    case SrcAsleep(url, _) => Goes(s, s', t, SrcWait(s, url))
    case SrcScan(url, i) =>
      (i < s.cacheSize ==> i < |s.caches| && UrlFits(s.caches[i].url)) && Goes(s, s', t, Scanned(s, url, i))
    case SrcStamp(url, i) => Stamps(s, s', t, SrcSend(url, i), i)
    case SrcSend(url, i) =>
      i < |s.caches| && Readable(s.caches[i]) &&
      s' == s.(sent := s.sent + [(url, Body(s.caches[i]))], threads := s.threads[t := SrcLeave(url, true)])
    case SrcLeave(_, _) =>
      && s' == s.(readCnt := s.readCnt - 1, threads := s'.threads)
      && (if s'.readCnt == 0 then Signal(s.threads[t := Idle], s'.threads) else s'.threads == s.threads[t := Idle])
    case _ => false
  }

  ghost predicate AddStep(s: State, s': State, t: nat)
    requires t < |s.threads|
  {
    var th := s.threads[t];
    match th
    case AddEnter(url, content) => AddWait(s, s', t, url, content)
    case AddAsleep(url, content, _) => AddWait(s, s', t, url, content)
    case AddChoose(url, content) =>
      Goes(s, s', t, if s.cacheSize < MAX_CACHE_SIZE then AddUrl(url, content, s.cacheSize, true)
                     else AddScan(url, content, 0, s.timestp, 0))
    case AddScan(url, content, i, oldTime, index) =>
      (i < MAX_CACHE_SIZE ==> i < |s.caches|) && Goes(s, s', t, Searched(s, th))
    case AddUrl(url, content, i, grow) =>
      i < |s.caches| && UrlFits(url) &&
      Writes(s, s', t, AddContent(url, content, i, grow), i, s.caches[i].(url := url))
    case AddContent(url, content, i, grow) =>
      i < |s.caches| && |content| <= |s.caches[i].buf| &&
      Writes(s, s', t, AddSize(url, content, i, grow), i, s.caches[i].(buf := Overwrite(s.caches[i].buf, content)))
    case AddSize(url, content, i, grow) =>
      i < |s.caches| && Writes(s, s', t, AddStamp(url, content, i, grow), i, s.caches[i].(size := |content|))
    case AddStamp(url, content, i, grow) =>
      Stamps(s, s', t, if grow then AddBump(url, content, i) else AddLeave(url, content, i), i)
    case AddBump(url, content, i) =>
      s' == s.(cacheSize := s.cacheSize + 1, threads := s.threads[t := AddLeave(url, content, i)])
    case AddLeave(url, content, _) =>
      && s' == s.(writeCnt := s.writeCnt - 1, threads := s'.threads, stored := s.stored + {(url, content)})
      && Broadcast(s.threads[t := Idle], s'.threads)
    case _ => false
  }

  /** Thread t makes its next step. An access outside its array or past the end of a buffer is not a
      step: a thread that is about to make one is stuck. */
  ghost predicate Step(s: State, s': State, t: nat)
  {
    t < |s.threads| &&
    if s.threads[t].Idle? then StartStep(s, s', t)
    else if s.threads[t].Relaying? then RelayStep(s, s', t)
    else SrcStep(s, s', t) || AddStep(s, s', t)
  }

  ghost predicate Next(s: State, s': State) {
    exists t :: Step(s, s', t)
  }

  /** State n of a run comes from the one before. */
  ghost predicate Follows(b: seq<State>, n: int) {
    1 <= n < |b| && Next(b[n - 1], b[n])
  }

  ghost predicate Init(s: State) {
    && (forall t | 0 <= t < |s.threads| :: s.threads[t].Idle?)
    && s.readCnt == 0 && s.writeCnt == 0 && s.timestp == 0 && s.cacheSize == 0
    && |s.caches| == MAX_CACHE_SIZE
    && (forall i | 0 <= i < MAX_CACHE_SIZE ::
          s.caches[i].url == "" && s.caches[i].size == 0 && |s.caches[i].buf| == MAX_OBJECT_SIZE)
    && s.received == {} && s.stored == {} && s.sent == [] && s.uses == []
  }

  /** A run: states from an initial one, each reached from the one before by a step of a thread. */
  ghost predicate Run(b: seq<State>) {
    && |b| > 0 && Init(b[0])
    && forall n | 1 <= n < |b| :: Follows(b, n)
  }

  lemma RunPrefix(b: seq<State>)
    requires Run(b) && |b| > 1
    ensures Run(b[..|b| - 1])
    ensures Next(b[|b| - 2], b[|b| - 1])
  {
    hide Next, Init;
    var m := |b| - 1;
    assert b[..m][0] == b[0];
    forall n | 1 <= n < m ensures Follows(b[..m], n) {
      assert Follows(b, n) && b[..m][n - 1] == b[n - 1] && b[..m][n] == b[n];
    }
    assert Follows(b, m);
  }

  // ----- Who is counted -----

  function Count(p: Thread -> bool, ts: seq<Thread>): (c: nat) {
    if ts == [] then 0 else Count(p, ts[1..]) + if p(ts[0]) then 1 else 0
  }

  /** Two thread lists that differ, as p sees it, at most at t. */
  ghost predicate SameBut(p: Thread -> bool, ts: seq<Thread>, ts': seq<Thread>, t: nat) {
    |ts| == |ts'| && t < |ts| && forall j | 0 <= j < |ts| && j != t :: p(ts'[j]) == p(ts[j])
  }

  lemma {:induction false} CountSame(p: Thread -> bool, ts: seq<Thread>, ts': seq<Thread>)
    requires |ts| == |ts'| && forall j | 0 <= j < |ts| :: p(ts'[j]) == p(ts[j])
    ensures Count(p, ts') == Count(p, ts)
  {
    if ts != [] {
      CountSame(p, ts[1..], ts'[1..]);
    }
  }

  lemma {:induction false} CountStep(p: Thread -> bool, ts: seq<Thread>, ts': seq<Thread>, t: nat)
    requires SameBut(p, ts, ts', t)
    ensures Count(p, ts') - (if p(ts'[t]) then 1 else 0) == Count(p, ts) - (if p(ts[t]) then 1 else 0)
  {
    if t == 0 {
      CountSame(p, ts[1..], ts'[1..]);
    } else {
      CountStep(p, ts[1..], ts'[1..], t - 1);
    }
  }

  lemma {:induction false} CountNone(p: Thread -> bool, ts: seq<Thread>)
    ensures Count(p, ts) == 0 <==> forall j | 0 <= j < |ts| :: !p(ts[j])
  {
    if ts != [] {
      CountNone(p, ts[1..]);
      assert forall j | 0 <= j < |ts[1..]| :: ts[1..][j] == ts[j + 1];
      assert forall j | 1 <= j < |ts| :: ts[j] == ts[1..][j - 1];
    }
  }
}
