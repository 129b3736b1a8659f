/** What single calls achieve, in every run: what cache_src returns and sends, what the copy loop
    hands to cache_add, and what cache_add leaves in the cache. */
module CacheCalls {
  import opened ObjectCache
  import opened ReaderWriter
  import opened Coherence
  import opened RecentUse
  import Relay

  /** An idle thread can begin with any request: a look into the cache, or a response to copy. */
  lemma AnyRequest(s: State, t: nat, url: string, response: string, buf: Content)
    requires t < |s.threads| && s.threads[t].Idle? && |buf| == MAX_OBJECT_SIZE
    ensures Step(s, s.(threads := s.threads[t := SrcEnter(url)]), t)
    ensures Step(s, s.(threads := s.threads[t := Relaying(url, response, 0, buf)]), t)
  {
    assert Goes(s, s.(threads := s.threads[t := SrcEnter(url)]), t, SrcEnter(url));
    var th := Relaying(url, response, 0, buf);
    assert Goes(s, s.(threads := s.threads[t := th]), t, th);
  }

  /** Slot i is in use and has this url. */
  predicate Offers(s: State, i: nat, url: string) {
    i < s.cacheSize && i < |s.caches| && s.caches[i].url == url && Readable(s.caches[i])
  }

  /** Step n sends an object under the url of thread t: that of a slot in use with this url. */
  ghost predicate Sends(b: seq<State>, n: int, t: nat, url: string) {
    Moves(b, n, t) && SendsOne(b[n - 1], b[n], url)
  }

  ghost predicate SendsOne(s: State, s': State, url: string) {
    exists i: nat | Offers(s, i, url) :: s'.sent == s.sent + [(url, Body(s.caches[i]))]
  }

  lemma SendStep(s: State, s': State, t: nat)
    requires Step(s, s', t) && s.threads[t].SrcSend?
    ensures var i := s.threads[t].i;
            && i < |s.caches| && Readable(s.caches[i])
            && s'.sent == s.sent + [(s.threads[t].url, Body(s.caches[i]))]
  {
  }

  /** A call that is past its section in cache_src sends the object of a slot with its url. */
  lemma SendsObject(b: seq<State>, n: int, t: nat)
    requires Run(b) && Moves(b, n, t) && t < |b[n - 1].threads| && b[n - 1].threads[t].SrcSend?
    ensures Sends(b, n, t, b[n - 1].threads[t].url)
  {
    hide Run, Step, Stamped, EntriesStored, SentStored, Body;
    RunCoherent(b);
    assert Coherent(b[n - 1]);
    assert ThreadOk(b[n - 1], b[n - 1].threads[t]);
    SendStep(b[n - 1], b[n], t);
    assert Offers(b[n - 1], b[n - 1].threads[t].i, b[n - 1].threads[t].url);
  }

  /** Nobody else sends: what is sent grows only so. */
  lemma OnlySends(b: seq<State>, n: int, t: nat)
    requires Run(b) && Moves(b, n, t) && t < |b[n - 1].threads| && !b[n - 1].threads[t].SrcSend?
    ensures b[n].sent == b[n - 1].sent
  {
  }

  lemma FoundStep(s: State, s': State, t: nat)
    requires Step(s, s', t) && t < |s.threads| == |s'.threads| && s'.threads[t].SrcLeave? && s'.threads[t].found
    ensures s.threads[t].SrcSend? && s'.threads[t].url == s.threads[t].url
  {
    hide AddStep, Relay.NextPiece, Relay.Kept, Relay.Holds;
    if !(s.threads[t].Idle? || s.threads[t].Relaying?) && !SrcStep(s, s', t) {
      NoAddLeaves(s, s', t);
    }
  }

  lemma NoAddLeaves(s: State, s': State, t: nat)
    requires t < |s.threads| == |s'.threads| && AddStep(s, s', t)
    ensures !s'.threads[t].SrcLeave?
  {
  }

  /** A call of cache_src that returns true has sent an object under its url. */
  lemma {:induction false} FoundMeansSent(b: seq<State>, n: int, t: nat) returns (p: int)
    requires Run(b) && 0 <= n < |b| && t < |b[n].threads| && b[n].threads[t].SrcLeave? && b[n].threads[t].found
    ensures 1 <= p <= n && Sends(b, p, t, b[n].threads[t].url)
    ensures forall q | p <= q <= n :: t < |b[q].threads| && b[q].threads[t] == b[n].threads[t]
    decreases n
  {
    if n > 0 {
      hide Run, Step, Sends;
      var u := StepExists(b, n);
      if u != t {
        OthersStay(b[n - 1].threads, b[n].threads, u, t);
        p := FoundMeansSent(b, n - 1, t);
      } else {
        FoundStep(b[n - 1], b[n], t);
        SendsObject(b, n, t);
        p := n;
      }
    }
  }

  /** The copy loop hands exactly the whole response to cache_add, if it is short enough. */
  lemma RelayEnds(b: seq<State>, n: int, t: nat)
    requires Run(b) && Moves(b, n, t) && t < |b[n - 1].threads| == |b[n].threads|
    requires b[n - 1].threads[t].Relaying? && !b[n].threads[t].Relaying?
    ensures var th := b[n - 1].threads[t];
            && (th.url, th.response) in b[n].received
            && b[n].threads[t] == if |th.response| < MAX_OBJECT_SIZE then AddEnter(th.url, th.response) else Idle
  {
    hide Run, Stamped, Shaped, EntriesStored, SentStored, Relay.NextPiece, Relay.Kept;
    RunCoherent(b);
    assert Coherent(b[n - 1]);
    var th := b[n - 1].threads[t];
    assert ThreadOk(b[n - 1], th);
    PieceIs(th.response, th.n);
    WholeRelayed(th.response, th.buf, th.n);
  }

  /** When a call of cache_add ends, a slot in use holds the url and the whole object. */
  lemma AddEnds(b: seq<State>, n: int, t: nat)
    requires Run(b) && Moves(b, n, t) && t < |b[n - 1].threads| && b[n - 1].threads[t].AddLeave?
    ensures var th, s := b[n - 1].threads[t], b[n];
            && th.i < s.cacheSize && th.i < |s.caches| && Readable(s.caches[th.i])
            && s.caches[th.i].url == th.url && Body(s.caches[th.i]) == th.content
            && (th.url, th.content) in s.stored
  {
    hide Run, Stamped, Shaped, EntriesStored, SentStored;
    RunCoherent(b);
    assert Coherent(b[n - 1]);
    assert ThreadOk(b[n - 1], b[n - 1].threads[t]);
    assert Shaped(b[n - 1]);
    LeaveStep(b[n - 1], b[n], t);
  }

  lemma LeaveStep(s: State, s': State, t: nat)
    requires Step(s, s', t) && s.threads[t].AddLeave?
    ensures s'.caches == s.caches && s'.cacheSize == s.cacheSize
    ensures s'.stored == s.stored + {(s.threads[t].url, s.threads[t].content)}
  {
  }

  /** A call of cache_add keeps its url and its object from the copy loop to the end. */
  lemma AddKeeps(s: State, s': State, t: nat)
    requires t < |s.threads| == |s'.threads| && AddStep(s, s', t) && !s.threads[t].AddLeave?
    ensures (s'.threads[t].AddAsleep? || Writing(s'.threads[t]))
            && s'.threads[t].url == s.threads[t].url && s'.threads[t].content == s.threads[t].content
  {
  }

  /** How many steps of its own a call can still make once it has got through its wait. */
  function Rank(th: Thread): nat {
    match th
    case Idle => 0
    case SrcLeave(_, _) => 1
    case SrcSend(_, _) => 2
    case SrcStamp(_, _) => 3
    case SrcScan(_, i) => 4 + if i < MAX_CACHE_SIZE then MAX_CACHE_SIZE - i else 0
    case AddLeave(_, _, _) => 1
    case AddBump(_, _, _) => 2
    case AddStamp(_, _, _, _) => 3
    case AddSize(_, _, _, _) => 4
    case AddContent(_, _, _, _) => 5
    case AddUrl(_, _, _, _) => 6
    case AddScan(_, _, i, _, _) => 7 + if i < MAX_CACHE_SIZE then MAX_CACHE_SIZE - i else 0
    case AddChoose(_, _) => 18
    case SrcEnter(_) => 15
    case SrcAsleep(_, _) => 15
    case AddEnter(_, _) => 19
    case AddAsleep(_, _, _) => 19
    case Relaying(_, response, n, _) => 20 + if n < |response| then |response| - n else 0
  }

  /** Every step of a call brings it nearer to its end, except one that goes to sleep, and that happens
      only while someone is in the way. */
  lemma CallsEnd(b: seq<State>, n: int, t: nat)
    requires Run(b) && Moves(b, n, t) && t < |b[n - 1].threads| == |b[n].threads| && !b[n - 1].threads[t].Idle?
    ensures Rank(b[n].threads[t]) < Rank(b[n - 1].threads[t])
            || (Asleep(b[n].threads[t]) && Rank(b[n].threads[t]) == Rank(b[n - 1].threads[t])
                && (b[n - 1].writeCnt > 0 || (b[n].threads[t].AddAsleep? && b[n - 1].readCnt > 0)))
  {
    hide Run, Stamped, EntriesStored, SentStored, ThreadOk;
    RunCoherent(b);
    assert Coherent(b[n - 1]);
    var s, s', th := b[n - 1], b[n], b[n - 1].threads[t];
    assert ThreadOk(s, th);
    if th.Relaying? {
      RelayRank(s, s', t);
    } else if SrcStep(s, s', t) {
      SrcRank(s, s', t);
    } else {
      AddRank(s, s', t);
    }
  }

  lemma RelayRank(s: State, s': State, t: nat)
    requires t < |s.threads| == |s'.threads| && RelayStep(s, s', t)
    ensures Rank(s'.threads[t]) < Rank(s.threads[t])
  {
    hide Relay.Kept, Relay.Holds, Relay.NextPiece;
    var th := s.threads[t];
    PieceIs(th.response, th.n);
  }

  lemma SrcRank(s: State, s': State, t: nat)
    requires t < |s.threads| == |s'.threads| && SrcStep(s, s', t) && Shaped(s)
    ensures Rank(s'.threads[t]) < Rank(s.threads[t])
            || (Asleep(s'.threads[t]) && Rank(s'.threads[t]) == Rank(s.threads[t]) && s.writeCnt > 0)
  {
  }

  lemma AddRank(s: State, s': State, t: nat)
    requires t < |s.threads| == |s'.threads| && AddStep(s, s', t)
    ensures Rank(s'.threads[t]) < Rank(s.threads[t])
            || (Asleep(s'.threads[t]) && Rank(s'.threads[t]) == Rank(s.threads[t])
                && (s.writeCnt > 0 || (s'.threads[t].AddAsleep? && s.readCnt > 0)))
  {
  }
}
