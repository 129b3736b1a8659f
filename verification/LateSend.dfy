/** A run in which the slot that is evicted is the one sent from last: cache_src stamps under the mutex
    and sends after it, so a call that overlaps with others may send long after its stamp. */
module LateSend {
  import opened ObjectCache
  import opened ReaderWriter
  import opened Coherence
  import opened RecentUse
  import Relay

  ghost predicate Reachable(s: State) {
    exists b :: Run(b) && Last(b, s)
  }

  ghost predicate Last(b: seq<State>, s: State) {
    b != [] && b[|b| - 1] == s
  }

  lemma RunOn(b: seq<State>, s: State, t: nat)
    requires Run(b) && Step(b[|b| - 1], s, t)
    ensures Run(b + [s])
  {
    hide Step, Init;
    var c := b + [s];
    forall n | 1 <= n < |c| ensures Follows(c, n) {
      if n < |b| { assert Follows(b, n); }
    }
  }

  lemma ReachStep(s: State, s': State, t: nat)
    requires Reachable(s) && Step(s, s', t)
    ensures Reachable(s')
  {
    hide Step, Run;
    var b :| Run(b) && Last(b, s);
    RunOn(b, s', t);
    assert Last(b + [s'], s');
  }

  // ----- Ten objects are added -----

  /** Different urls, by their lengths. */
  function Url(i: nat): string { seq(i + 1, _ => 'a') }

  function Zeros(): (z: Content)
    ensures |z| == MAX_OBJECT_SIZE
  {
    seq(MAX_OBJECT_SIZE, _ => '\0')
  }

  function Added(k: nat): set<(string, Content)> {
    set i: nat | i < k :: (Url(i), "")
  }

  /** Nobody is under way, and slots 0 to k - 1 have been filled in this order. */
  function Quiet(k: nat): State {
    State([Idle, Idle], 0, 0, k, k,
          seq(MAX_CACHE_SIZE, i => if 0 <= i < k then Entry(Url(i), 0, i, Zeros()) else Entry("", 0, 0, Zeros())),
          Added(k), Added(k), [], seq(k, i => i))
  }

  lemma Start()
    ensures Reachable(Quiet(0))
  {
    var q := Quiet(0);
    assert forall i | 0 <= i < MAX_CACHE_SIZE :: q.caches[i] == Entry("", 0, 0, Zeros());
    hide Url, Zeros;
    assert Init(q);
    assert Run([q]) && Last([q], q);
  }

  /** Thread 0 at th, with the other idle. */
  function At(s: State, th: Thread): State {
    s.(threads := [th, Idle])
  }

  lemma Fill(k: nat)
    requires k < MAX_CACHE_SIZE && Reachable(Quiet(k))
    ensures Reachable(Quiet(k + 1))
  {
    hide Step, Reachable;
    FillBegins(k);
    FillWrites(k);
    FillEnds(k);
  }

  /** Thread 0 between the critical sections of cache_add, with the response received. */
  function Filling(k: nat, th: Thread): State {
    At(Quiet(k), th).(received := Added(k) + {(Url(k), "")}, writeCnt := 1)
  }

  lemma FillBegins(k: nat)
    requires k < MAX_CACHE_SIZE && Reachable(Quiet(k))
    ensures Reachable(Filling(k, AddUrl(Url(k), "", k, true)))
  {
    hide Reachable, Added, Url;
    var q, u := Quiet(k), Url(k);
    var s1 := At(q, Relaying(u, "", 0, Zeros()));
    assert Goes(q, s1, 0, Relaying(u, "", 0, Zeros()));
    assert s1.threads[0].response[0..] == "";
    PieceIs("", 0);
    assert Zeros()[..0] == "";
    var s2 := At(q, AddEnter(u, "")).(received := Added(k) + {(u, "")});
    assert RelayStep(s1, s2, 0);
    var s3 := Filling(k, AddChoose(u, ""));
    var s4 := Filling(k, AddUrl(u, "", k, true));
    assert Step(q, s1, 0) && Step(s1, s2, 0) && Step(s2, s3, 0) && Step(s3, s4, 0);
    hide Step;
    ReachStep(q, s1, 0);
    ReachStep(s1, s2, 0);
    ReachStep(s2, s3, 0);
    ReachStep(s3, s4, 0);
  }

  /** The slot once its url has been copied. */
  function Named(k: nat, th: Thread): State
    requires k < MAX_CACHE_SIZE
  {
    var s := Filling(k, th);
    s.(caches := s.caches[k := Entry(Url(k), 0, 0, Zeros())])
  }

  lemma FillWrites(k: nat)
    requires k < 10 == MAX_CACHE_SIZE && Reachable(Filling(k, AddUrl(Url(k), "", k, true)))
    ensures Reachable(Named(k, AddStamp(Url(k), "", k, true)))
  {
    hide Reachable, Added;
    var u := Url(k);
    var s4, s5 := Filling(k, AddUrl(u, "", k, true)), Named(k, AddContent(u, "", k, true));
    var s6, s7 := Named(k, AddSize(u, "", k, true)), Named(k, AddStamp(u, "", k, true));
    assert Overwrite(Zeros(), "") == Zeros();
    assert Step(s4, s5, 0) && Step(s5, s6, 0) && Step(s6, s7, 0);
    hide Step;
    ReachStep(s4, s5, 0);
    ReachStep(s5, s6, 0);
    ReachStep(s6, s7, 0);
  }

  lemma QuietNext(k: nat)
    requires k < MAX_CACHE_SIZE
    ensures var s, q := Named(k, AddStamp(Url(k), "", k, true)), Quiet(k + 1);
            && q.caches == s.caches[k := Entry(Url(k), 0, k, Zeros())] && q.uses == s.uses + [k]
            && Added(k + 1) == Added(k) + {(Url(k), "")}
  {
    hide Zeros;
    assert Added(k + 1) == Added(k) + {(Url(k), "")};
    hide Added, Url;
  }

  lemma FillEnds(k: nat)
    requires k < MAX_CACHE_SIZE && Reachable(Named(k, AddStamp(Url(k), "", k, true)))
    ensures Reachable(Quiet(k + 1))
  {
    hide Reachable, Added, Url, Zeros;
    QuietNext(k);
    var u, q := Url(k), Quiet(k + 1);
    var s7 := Named(k, AddStamp(u, "", k, true));
    var s8 := At(q, AddBump(u, "", k)).(writeCnt := 1, stored := Added(k), cacheSize := k);
    var s9 := At(q, AddLeave(u, "", k)).(writeCnt := 1, stored := Added(k));
    assert Step(s7, s8, 0) && Step(s8, s9, 0);
    assert Broadcast(s9.threads[0 := Idle], q.threads);
    assert Step(s9, q, 0);
    hide Step;
    ReachStep(s7, s8, 0);
    ReachStep(s8, s9, 0);
    ReachStep(s9, q, 0);
  }

  lemma {:induction false} FillAll(k: nat)
    requires k <= MAX_CACHE_SIZE
    ensures Reachable(Quiet(k))
  {
    hide Reachable, Quiet;
    if k == 0 {
      Start();
    } else {
      FillAll(k - 1);
      Fill(k - 1);
    }
  }

  // ----- Thread 0 stamps slot 0; thread 1 finds, stamps and sends the others -----

  /** Thread 0 is about to send from slot 0, and slots 1 to j have been stamped and sent from since its
      stamp. */
  function Mid(j: nat): State {
    Quiet(MAX_CACHE_SIZE).(
      threads := [SrcSend(Url(0), 0), Idle], readCnt := 1, timestp := 11 + j,
      caches := seq(MAX_CACHE_SIZE, i requires 0 <= i => Entry(Url(i), 0, if i <= j then 10 + i else i, Zeros())),
      sent := seq(j, v requires 0 <= v => (Url(v + 1), "")),
      uses := seq(11 + j, v => if v < 10 then v else v - 10))
  }

  lemma FirstStamps()
    requires Reachable(Quiet(MAX_CACHE_SIZE))
    ensures Reachable(Mid(0))
  {
    hide Reachable, Added;
    var q, u := Quiet(MAX_CACHE_SIZE), Url(0);
    var s1, s2 := At(q, SrcEnter(u)), At(q, SrcScan(u, 0)).(readCnt := 1);
    var s3, s4 := At(q, SrcStamp(u, 0)).(readCnt := 1), Mid(0);
    assert q.caches[0].url == u;
    assert s4.caches == q.caches[0 := q.caches[0].(stamp := 10)] && s4.uses == q.uses + [0];
    assert s4.sent == [];
    hide Url, Zeros;
    assert Goes(q, s1, 0, SrcEnter(u));
    assert Step(q, s1, 0) && Step(s1, s2, 0) && Step(s2, s3, 0) && Step(s3, s4, 0);
    hide Step;
    ReachStep(q, s1, 0);
    ReachStep(s1, s2, 0);
    ReachStep(s2, s3, 0);
    ReachStep(s3, s4, 0);
  }

  /** Thread 1 at th, in cache_src. */
  function Second(j: nat, th: Thread): State {
    Mid(j).(threads := [SrcSend(Url(0), 0), th], readCnt := 2)
  }

  lemma {:induction false} SecondScans(j: nat, i: nat)
    requires j < 9 && i <= j + 1 && Reachable(Mid(j))
    ensures Reachable(Second(j, SrcScan(Url(j + 1), i)))
  {
    hide Reachable, Added, Zeros;
    var u := Url(j + 1);
    if i == 0 {
      var s0, s1, s2 := Mid(j), Mid(j).(threads := [SrcSend(Url(0), 0), SrcEnter(u)]), Second(j, SrcScan(u, 0));
      hide Url;
      assert Goes(s0, s1, 1, SrcEnter(u));
      assert Step(s0, s1, 1) && Step(s1, s2, 1);
      hide Step;
      ReachStep(s0, s1, 1);
      ReachStep(s1, s2, 1);
    } else {
      SecondScans(j, i - 1);
      var s, s' := Second(j, SrcScan(u, i - 1)), Second(j, SrcScan(u, i));
      assert s.caches[i - 1].url == Url(i - 1) && |Url(i - 1)| == i < |u|;
      assert Step(s, s', 1);
      hide Step;
      ReachStep(s, s', 1);
    }
  }

  lemma SecondSends(j: nat)
    requires j < 9 && Reachable(Mid(j))
    ensures Reachable(Mid(j + 1))
  {
    SecondScans(j, j + 1);
    hide Reachable, Added, Zeros;
    var u, i := Url(j + 1), j + 1;
    var s1, s2 := Second(j, SrcScan(u, i)), Second(j, SrcStamp(u, i));
    var m := Mid(j + 1);
    var s3 := Second(j + 1, SrcSend(u, i)).(sent := Mid(j).sent);
    var s4 := Second(j + 1, SrcLeave(u, true));
    assert s1.caches[i].url == u && |u| == j + 2;
    assert s3.caches == s2.caches[i := s2.caches[i].(stamp := 11 + j)] && s3.uses == s2.uses + [i];
    assert s4.sent == s3.sent + [(u, "")] && Body(s3.caches[i]) == "";
    hide Url;
    assert Step(s1, s2, 1) && Step(s2, s3, 1) && Step(s3, s4, 1) && Step(s4, m, 1);
    hide Step;
    ReachStep(s1, s2, 1);
    ReachStep(s2, s3, 1);
    ReachStep(s3, s4, 1);
    ReachStep(s4, m, 1);
  }

  lemma {:induction false} AllSent(j: nat)
    requires j <= 9
    ensures Reachable(Mid(j))
  {
    hide Reachable, Mid, Quiet;
    if j == 0 {
      FillAll(MAX_CACHE_SIZE);
      FirstStamps();
    } else {
      AllSent(j - 1);
      SecondSends(j - 1);
    }
  }

  // ----- Thread 0 sends at last, and the next object evicts its slot -----

  /** The k-th state from then on. */
  function Tail(k: nat): State {
    var s, u := Mid(9), Url(10);
    var sent := s.(sent := s.sent + [(Url(0), "")], threads := [SrcLeave(Url(0), true), Idle]);
    var got := sent.(readCnt := 0, received := Added(10) + {(u, "")});
    if k == 0 then s
    else if k == 1 then sent
    else if k == 2 then At(sent, Idle).(readCnt := 0)
    else if k == 3 then At(sent, Relaying(u, "", 0, Zeros())).(readCnt := 0)
    else if k == 4 then At(got, AddEnter(u, ""))
    else if k == 5 then At(got, AddChoose(u, "")).(writeCnt := 1)
    else if k == 6 then At(got, AddScan(u, "", 0, 20, 0)).(writeCnt := 1)
    else if k <= 16 then At(got, AddScan(u, "", k - 6, 10, 0)).(writeCnt := 1)
    else At(got, AddUrl(u, "", 0, false)).(writeCnt := 1)
  }

  lemma TailSends(k: nat)
    requires k < 4
    ensures Step(Tail(k), Tail(k + 1), 0)
  {
    hide Added;
    var s, s' := Tail(k), Tail(k + 1);
    if k == 0 {
      assert Body(s.caches[0]) == "";
    } else if k == 2 {
      assert Goes(s, s', 0, Relaying(Url(10), "", 0, Zeros()));
    } else if k == 3 {
      assert s.threads[0].response[0..] == "";
      PieceIs("", 0);
      assert Zeros()[..0] == "";
    }
  }

  lemma TailScans(k: nat)
    requires 4 <= k < 17
    ensures Step(Tail(k), Tail(k + 1), 0)
  {
    hide Added, Zeros, Url;
    var s := Tail(k);
    assert |s.caches| == 10;
    if 6 <= k < 16 {
      assert s.caches[k - 6].stamp == 10 + (k - 6);
    }
  }

  lemma {:induction false} TailRuns(b: seq<State>, k: nat) returns (c: seq<State>)
    requires Run(b) && Last(b, Tail(0)) && k <= 17
    ensures Run(c) && |c| == |b| + k && forall i | 0 <= i <= k :: c[|b| - 1 + i] == Tail(i)
  {
    hide Run, Step, Tail;
    if k == 0 {
      c := b;
    } else {
      var d := TailRuns(b, k - 1);
      assert d[|b| - 1 + (k - 1)] == Tail(k - 1);
      if k <= 4 { TailSends(k - 1); } else { TailScans(k - 1); }
      RunOn(d, Tail(k), 0);
      c := d + [Tail(k)];
    }
  }

  lemma NothingCompletes(k: nat, w: nat)
    requires 1 <= k < 17 && w < |Tail(k).threads|
    ensures !Tail(k).threads[w].SrcSend? && !Tail(k).threads[w].AddLeave?
  {
  }

  /** The slot about to be overwritten at n has been sent from at m, and from then on no slot has been
      sent from or stored into. */
  lemma EvictedWasSentLast() returns (b: seq<State>, n: nat, m: int)
    ensures Run(b) && m < n < |b| && b[n].threads != [] && b[n].threads[0].AddUrl?
    ensures b[n].threads[0].i == 0 < b[n].cacheSize
    ensures Completes(b, m, 0, 0) && forall p, w: nat, i: nat | m < p <= n :: !Completes(b, p, w, i)
  {
    hide Run, Step, Reachable;
    var a := TailReached();
    b := TailRuns(a, 17);
    m, n := |a|, |a| + 16;
    assert b[|a| - 1 + 0] == Tail(0) && b[|a| - 1 + 1] == Tail(1);
    TailSends(0);
    assert b[|a| - 1 + 17] == Tail(17);
    forall p, w: nat, i: nat | m < p <= n ensures !Completes(b, p, w, i) {
      var k := p - |a|;
      assert b[|a| - 1 + k] == Tail(k);
      if w < |Tail(k).threads| { NothingCompletes(k, w); }
    }
  }

  lemma TailReached() returns (a: seq<State>)
    ensures Run(a) && Last(a, Tail(0))
  {
    hide Run, Mid;
    AllSent(9);
    a :| Run(a) && Last(a, Mid(9));
  }
}
