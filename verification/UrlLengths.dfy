/** Which requests make the object cache copy a url past the end of its slot: do_request passes on
    urls of up to a whole line, and a slot has room for 1024 characters. */
module UrlLengths {
  import opened ObjectCache
  import opened ReaderWriter
  import opened Coherence
  import Relay

  /** Every copy loop of the run is for one of these urls. */
  ghost predicate RelaysOnly(b: seq<State>, urls: iset<string>) {
    forall n: nat, t: nat | n < |b| && t < |b[n].threads| && b[n].threads[t].Relaying? :: b[n].threads[t].url in urls
  }

  /** No thread of the run is about to access anything outside its array. */
  ghost predicate InBounds(b: seq<State>) {
    forall n: nat, t: nat | n < |b| && t < |b[n].threads| :: !OutOfBounds(b[n], b[n].threads[t])
  }

  ghost predicate ReceivedIn(s: State, urls: iset<string>) {
    forall p | p in s.received :: p.0 in urls
  }

  lemma ReceivedStep(s: State, s': State, t: nat, urls: iset<string>)
    requires Step(s, s', t) && ReceivedIn(s, urls)
    requires s.threads[t].Relaying? ==> s.threads[t].url in urls
    ensures ReceivedIn(s', urls)
  {
  }

  lemma {:induction false} RunReceived(b: seq<State>, urls: iset<string>)
    requires Run(b) && RelaysOnly(b, urls)
    ensures forall n | 0 <= n < |b| :: ReceivedIn(b[n], urls)
  {
    hide Step, Init, ReceivedIn;
    if |b| == 1 {
      assert ReceivedIn(b[0], urls) by { NothingReceived(b[0], urls); }
    } else {
      var m := |b| - 1;
      RunPrefix(b);
      RunReceived(b[..m], urls);
      var t :| Step(b[m - 1], b[m], t);
      assert b[..m][m - 1] == b[m - 1];
      StepOf(b[m - 1], b[m], t);
      ReceivedStep(b[m - 1], b[m], t, urls);
      forall n | 0 <= n < |b| ensures ReceivedIn(b[n], urls) {
        if n < m { assert b[..m][n] == b[n]; }
      }
    }
  }

  lemma NothingReceived(s: State, urls: iset<string>)
    requires Init(s)
    ensures ReceivedIn(s, urls)
  {
  }

  lemma StepOf(s: State, s': State, t: nat)
    requires Step(s, s', t)
    ensures t < |s.threads|
  {
  }

  /** If every url that is relayed fits, no access is ever out of bounds. */
  lemma FittingUrlsInBounds(b: seq<State>, urls: iset<string>)
    requires Run(b) && RelaysOnly(b, urls) && forall u | u in urls :: UrlFits(u)
    ensures InBounds(b)
  {
    forall n: nat, t: nat | n < |b| && t < |b[n].threads| ensures !OutOfBounds(b[n], b[n].threads[t]) {
      var th := b[n].threads[t];
      if !th.Idle? {
        hide Run, OutOfBounds;
        NeverStuck(b, n, t);
      }
      if th.AddUrl? {
        hide Run, OutOfBounds;
        RunReceived(b, urls);
        AddedIsReceived(b, n, t);
        assert ReceivedIn(b[n], urls);
      }
    }
  }

  lemma AddedIsReceived(b: seq<State>, n: nat, t: nat)
    requires Run(b) && n < |b| && t < |b[n].threads| && b[n].threads[t].AddUrl?
    ensures (b[n].threads[t].url, b[n].threads[t].content) in b[n].received
  {
    hide Run, Shaped, Stamped, EntriesStored, SentStored, SlotOk;
    RunCoherent(b);
    assert Coherent(b[n]);
    assert ThreadOk(b[n], b[n].threads[t]);
  }

  // ----- A run that ends in an overlong copy -----

  function Fresh(th: Thread): State {
    State([th], 0, 0, 0, 0, seq(MAX_CACHE_SIZE, _ => Entry("", 0, 0, Zeros())), {}, {}, [], [])
  }

  function Zeros(): Content { seq(MAX_OBJECT_SIZE, _ => '\0') }

  /** One request for url, answered by an empty response. */
  function OneRequest(url: string): seq<State> {
    var s := Fresh(Idle).(received := {(url, "")});
    [Fresh(Idle), Fresh(Relaying(url, "", 0, Zeros())), s.(threads := [AddEnter(url, "")]),
     s.(threads := [AddChoose(url, "")], writeCnt := 1), s.(threads := [AddUrl(url, "", 0, true)], writeCnt := 1)]
  }

  lemma OneRequestRuns(url: string)
    ensures Run(OneRequest(url))
  {
    var b := OneRequest(url);
    FirstSteps(url);
    assert Step(b[2], b[3], 0);
    assert Step(b[3], b[4], 0);
    hide Step, Init;
    assert Follows(b, 1) && Follows(b, 2) && Follows(b, 3) && Follows(b, 4);
  }

  lemma FirstSteps(url: string)
    ensures var b := OneRequest(url); Init(b[0]) && Step(b[0], b[1], 0) && Step(b[1], b[2], 0)
  {
    var b := OneRequest(url);
    assert Goes(b[0], b[1], 0, Relaying(url, "", 0, Zeros()));
    PieceIs("", 0);
    assert b[1].threads[0].response[0..] == "";
    assert Zeros()[..0] == "";
  }

  lemma OneRequestRelays(url: string)
    ensures RelaysOnly(OneRequest(url), iset{url})
  {
  }

  /** Every url that does not fit can bring a thread to copy it past the end of a slot. */
  lemma OverlongUrlReached(url: string)
    requires !UrlFits(url)
    ensures Run(OneRequest(url)) && RelaysOnly(OneRequest(url), iset{url}) && !InBounds(OneRequest(url))
  {
    OneRequestRuns(url);
    OneRequestRelays(url);
    var b := OneRequest(url);
    assert OutOfBounds(b[4], b[4].threads[0]);
  }

  /** A url of 1028 characters; do_request takes it, since its line and url buffers have MAXLINE. */
  function LongUrl(): string {
    "http://example.com/" + seq(1009, _ => 'a')
  }

  lemma LongUrlReached()
    ensures |LongUrl()| < Relay.MAXLINE && Run(OneRequest(LongUrl())) && !InBounds(OneRequest(LongUrl()))
  {
    OverlongUrlReached(LongUrl());
  }

  /** All runs for given urls stay within the arrays if and only if each of these urls fits into
      1024 characters with its terminator. */
  lemma InBoundsIffUrlsFit(urls: iset<string>)
    ensures (forall b | Run(b) && RelaysOnly(b, urls) :: InBounds(b)) <==> forall u | u in urls :: |u| + 1 <= 1024
  {
    if forall u | u in urls :: UrlFits(u) {
      forall b | Run(b) && RelaysOnly(b, urls) ensures InBounds(b) {
        FittingUrlsInBounds(b, urls);
      }
    } else {
      var u :| u in urls && !UrlFits(u);
      OverlongUrlReached(u);
      assert RelaysOnly(OneRequest(u), urls);
    }
  }
}
