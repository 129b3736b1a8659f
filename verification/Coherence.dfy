/** What the readers-writer protocol buys the object cache: slots are whole whenever they are
    read, stamps order the slots by their last use, and the eviction scan finds the oldest. */
module Coherence {
  import opened ObjectCache
  import opened ReaderWriter
  import Relay

  /** The slot's stamp is the position of its last use in the history. */
  ghost predicate StampOk(s: State, i: nat) {
    && i < |s.caches|
    && var v := s.caches[i].stamp;
    && 0 <= v < |s.uses| && s.uses[v] == i
    && forall k {:trigger s.uses[k]} | v < k < |s.uses| :: s.uses[k] != i
  }

  ghost predicate Shaped(s: State) {
    && |s.caches| == MAX_CACHE_SIZE && s.cacheSize <= MAX_CACHE_SIZE && s.timestp == |s.uses|
    && forall i | 0 <= i < MAX_CACHE_SIZE ::
         0 <= s.caches[i].size <= |s.caches[i].buf| == MAX_OBJECT_SIZE && UrlFits(s.caches[i].url)
  }

  ghost predicate Stamped(s: State) {
    forall i: nat | i < s.cacheSize :: StampOk(s, i)
  }

  ghost predicate IsStored(s: State, i: nat) {
    i < |s.caches| && Readable(s.caches[i]) && (s.caches[i].url, Body(s.caches[i])) in s.stored
  }

  predicate WritesAt(th: Thread, i: nat) { WritesEntry(th) && th.i == i }

  ghost predicate Untouched(s: State, i: nat) {
    forall j | 0 <= j < |s.threads| :: !WritesAt(s.threads[j], i)
  }

  ghost predicate EntriesStored(s: State) {
    forall i: nat | i < s.cacheSize && Untouched(s, i) :: IsStored(s, i)
  }

  /** No slot below n is older than slot i. */
  ghost predicate Oldest(s: State, i: nat, n: nat) {
    i < |s.caches| && forall k | 0 <= k < n && k < |s.caches| :: s.caches[i].stamp <= s.caches[k].stamp
  }

  ghost predicate Absent(s: State, url: string, n: nat) {
    forall k | 0 <= k < n && k < s.cacheSize && k < |s.caches| :: s.caches[k].url != url
  }

  ghost predicate ScanOk(s: State, th: Thread)
    requires th.AddScan?
  {
    && s.cacheSize == MAX_CACHE_SIZE && th.i <= MAX_CACHE_SIZE && th.index < MAX_CACHE_SIZE
    && if th.i == 0 then th.oldTime == s.timestp
       else Oldest(s, th.index, th.i) && th.oldTime == s.caches[th.index].stamp
  }

  predicate Grows(th: Thread)
    requires WritesEntry(th)
  {
    th.AddBump? || (!th.AddLeave? && th.grow)
  }

  /** How far the write of the slot has come. */
  ghost predicate SlotOk(s: State, th: Thread)
    requires WritesEntry(th)
  {
    && th.i < MAX_CACHE_SIZE && th.i < |s.caches|
    && (if Grows(th) then th.i == s.cacheSize else th.i < s.cacheSize)
    && (th.AddUrl? && !th.grow ==> s.cacheSize == MAX_CACHE_SIZE && Oldest(s, th.i, MAX_CACHE_SIZE))
    && var e := s.caches[th.i];
    && (!th.AddUrl? ==> e.url == th.url)
    && (th.AddSize? || th.AddStamp? || th.AddBump? || th.AddLeave? ==> th.content <= e.buf)
    && (th.AddStamp? || th.AddBump? || th.AddLeave? ==> e.size == |th.content|)
    && (th.AddBump? ==> StampOk(s, th.i))
  }

  ghost predicate ThreadOk(s: State, th: Thread) {
    && (th.Relaying? ==>
          && |th.buf| == MAX_OBJECT_SIZE && th.n <= |th.response|
          && Relay.Relayed(th.response[..th.n], th.buf, th.n))
    && (th.AddEnter? || th.AddAsleep? || Writing(th) ==>
          |th.content| < MAX_OBJECT_SIZE && (th.url, th.content) in s.received)
    && (th.SrcScan? ==> Absent(s, th.url, th.i))
    && (th.SrcLeave? && !th.found ==> Absent(s, th.url, s.cacheSize))
    && (th.SrcStamp? || th.SrcSend? ==> th.i < s.cacheSize && th.i < |s.caches| && s.caches[th.i].url == th.url)
    && (th.AddScan? ==> ScanOk(s, th))
    && (WritesEntry(th) ==> SlotOk(s, th))
  }

  ghost predicate ThreadsOk(s: State) {
    forall j | 0 <= j < |s.threads| :: ThreadOk(s, s.threads[j])
  }

  ghost predicate SentStored(s: State) {
    forall m | 0 <= m < |s.sent| :: s.sent[m] in s.stored
  }

  /** Only whole responses are stored. */
  ghost predicate StoredReceived(s: State) {
    s.stored <= s.received
  }

  ghost predicate Coherent(s: State) {
    Shaped(s) && Stamped(s) && EntriesStored(s) && ThreadsOk(s) && SentStored(s) && StoredReceived(s)
  }

  // ----- What a step leaves alone -----

  ghost predicate SameData(s: State, s': State) {
    s'.caches == s.caches && s'.cacheSize == s.cacheSize && s'.timestp == s.timestp && s'.uses == s.uses
  }

  /** Only stamps may differ. */
  ghost predicate SameButStamps(s: State, s': State) {
    && s'.cacheSize == s.cacheSize && |s'.caches| == |s.caches|
    && forall i | 0 <= i < |s.caches| :: s'.caches[i] == s.caches[i].(stamp := s'.caches[i].stamp)
  }

  ghost predicate Quiet(s: State, s': State, t: nat) {
    && t < |s.threads| && s.received <= s'.received
    && (!Writing(s.threads[t]) ==> SameButStamps(s, s') && s'.stored == s.stored)
    && (!Writing(s.threads[t]) && !Reading(s.threads[t]) ==> SameData(s, s'))
  }

  lemma StepQuiet(s: State, s': State, t: nat)
    requires Step(s, s', t)
    ensures Quiet(s, s', t)
  {
    if s.threads[t].Idle? {
    } else if SrcStep(s, s', t) {
    } else {
    }
  }

  lemma OtherOk(s: State, s': State, t: nat, j: nat)
    requires Quiet(s, s', t) && Others(s.threads, s'.threads, t) && Exclusive(s.threads)
    requires j < |s.threads| && j != t && ThreadOk(s, s.threads[j])
    ensures ThreadOk(s', s'.threads[j])
  {
    if Writing(s.threads[j]) {
      hide StampOk, Oldest, Absent;
      assert SameData(s, s');
      assert s'.threads[j] == s.threads[j];
      SameDataSameOk(s, s', s.threads[j]);
    } else if Reading(s.threads[j]) {
      assert !Writing(s.threads[t]);
    }
  }

  lemma SameDataSameOk(s: State, s': State, th: Thread)
    requires SameData(s, s') && s.received <= s'.received && ThreadOk(s, th)
    ensures ThreadOk(s', th)
  {
    hide Writing;
    if WritesEntry(th) && StampOk(s, th.i) {
      assert StampOk(s', th.i);
    }
  }

  // ----- What a step does for its own thread -----

  lemma SrcOk(s: State, s': State, t: nat)
    requires t < |s.threads| && SrcStep(s, s', t) && Shaped(s) && ThreadOk(s, s.threads[t])
    ensures ThreadOk(s', s'.threads[t])
  {
    hide StampOk, ScanOk, SlotOk, Shaped;
  }

  lemma AddOk(s: State, s': State, t: nat)
    requires t < |s.threads| && AddStep(s, s', t) && Shaped(s) && Stamped(s) && ThreadOk(s, s.threads[t])
    ensures ThreadOk(s', s'.threads[t])
  {
    var th := s.threads[t];
    if th.AddScan? {
      hide Shaped, Stamped, ThreadOk, AddStep;
      ScanStep(s, s', t);
    } else if th.AddStamp? {
      hide StampOk, Absent, Oldest;
      StampFresh(s, s', t, s'.threads[t], th.i);
    } else if th.AddAsleep? || th.AddEnter? || th.AddChoose? {
      hide StampOk, Absent, SlotOk;
    } else {
      hide Shaped, Stamped, ThreadOk, AddStep;
      FillOk(s, s', t);
    }
  }

  /** The steps that fill a slot, other than its stamp, and the last ones. */
  lemma FillOk(s: State, s': State, t: nat)
    requires t < |s.threads| && AddStep(s, s', t) && Shaped(s) && Stamped(s) && ThreadOk(s, s.threads[t])
    requires Filling(s.threads[t])
    ensures ThreadOk(s', s'.threads[t])
  {
    hide StampOk, Absent, Oldest;
  }

  ghost predicate Filling(th: Thread) {
    th.AddUrl? || th.AddContent? || th.AddSize? || th.AddBump? || th.AddLeave?
  }

  /** The scan keeps the oldest slot it has seen, and sees them all. */
  lemma ScanStep(s: State, s': State, t: nat)
    requires t < |s.threads| && s.threads[t].AddScan? && AddStep(s, s', t)
    requires Shaped(s) && Stamped(s) && ThreadOk(s, s.threads[t])
    ensures ThreadOk(s', s'.threads[t])
  {
    var th := s.threads[t];
    if th.i == 0 {
      assert StampOk(s, 0);
    }
  }

  lemma RelayOk(s: State, s': State, t: nat)
    requires t < |s.threads| && RelayStep(s, s', t) && ThreadOk(s, s.threads[t])
    ensures ThreadOk(s', s'.threads[t])
  {
    hide StampOk, ScanOk, SlotOk, Absent, Relay.Relayed, Relay.Kept, Relay.NextPiece;
    var th := s.threads[t];
    var piece := Relay.NextPiece(th.response[th.n..]);
    PieceIs(th.response, th.n);
    if piece != "" {
      Relay.KeptRelayed(th.response[..th.n], th.buf, th.n, piece);
      assert th.response[..th.n] + piece == th.response[..th.n + |piece|];
    } else {
      WholeRelayed(th.response, th.buf, th.n);
    }
  }

  /** A round takes the next bytes of the response, and none only at its end. */
  lemma PieceIs(response: string, n: nat)
    requires n <= |response|
    ensures var piece := Relay.NextPiece(response[n..]);
      n + |piece| <= |response| && piece == response[n..n + |piece|] && (piece == "" <==> n == |response|)
  {
  }

  lemma WholeRelayed(response: string, buf: Content, n: nat)
    requires n == |response| && Relay.Relayed(response[..n], buf, n)
    ensures n < MAX_OBJECT_SIZE ==> n <= |buf| && buf[..n] == response
  {
    assert response[..n] == response;
  }

  lemma ShapedStep(s: State, s': State, t: nat)
    requires Step(s, s', t) && Shaped(s) && ThreadOk(s, s.threads[t])
    ensures Shaped(s')
  {
    hide StampOk, Oldest, Absent, ScanOk;
    if s.threads[t].Idle? {
    } else if SrcStep(s, s', t) {
    } else {
    }
  }

  /** A stamp makes its slot the last used, and the others keep their last use. */
  lemma StampFresh(s: State, s': State, t: nat, th: Thread, i: nat)
    requires t < |s.threads| && Stamps(s, s', t, th, i) && Shaped(s)
    ensures StampOk(s', i)
    ensures forall k: nat | k != i && StampOk(s, k) :: StampOk(s', k)
  {
  }

  lemma StampedStep(s: State, s': State, t: nat)
    requires Step(s, s', t) && Shaped(s) && Stamped(s) && ThreadOk(s, s.threads[t])
    ensures Stamped(s')
  {
    hide Absent, Oldest, ScanOk, Shaped;
    var th := s.threads[t];
    if th.SrcStamp? || th.AddStamp? {
      hide StampOk;
      StampFresh(s, s', t, s'.threads[t], th.i);
    } else if th.Idle? || th.Relaying? {
      StampsKept(s, s');
    } else if SrcStep(s, s', t) {
      StampsKept(s, s');
    } else {
      hide StampOk;
      AddStamped(s, s', t);
    }
  }

  lemma AddStamped(s: State, s': State, t: nat)
    requires t < |s.threads| && AddStep(s, s', t) && !s.threads[t].AddStamp?
    requires Stamped(s) && ThreadOk(s, s.threads[t])
    ensures Stamped(s')
  {
    hide Stamped, Absent, Oldest, ScanOk;
    var th := s.threads[t];
    StampsKept(s, s');
    if th.AddBump? {
      assert StampOk(s', th.i);
      StampedAppend(s', s.cacheSize);
    }
  }

  lemma StampedAppend(s: State, n: nat)
    requires s.cacheSize == n + 1 && StampOk(s, n) && Stamped(s.(cacheSize := n))
    ensures Stamped(s)
  {
    forall i: nat | i < s.cacheSize ensures StampOk(s, i) {
      if i < n { assert StampOk(s.(cacheSize := n), i); }
    }
  }

  /** If neither stamps nor uses change, neither does what the stamps mean. */
  lemma StampsKept(s: State, s': State)
    requires Stamped(s) && s'.uses == s.uses && |s'.caches| == |s.caches|
    requires forall i | 0 <= i < |s.caches| :: s'.caches[i].stamp == s.caches[i].stamp
    ensures Stamped(s'.(cacheSize := s.cacheSize))
    ensures forall i: nat | StampOk(s, i) :: StampOk(s', i)
  {
    forall i: nat | i < s.cacheSize ensures StampOk(s'.(cacheSize := s.cacheSize), i) {
      assert StampOk(s, i);
    }
  }

  lemma SentStep(s: State, s': State, t: nat)
    requires Step(s, s', t) && SentStored(s) && Shaped(s) && EntriesStored(s)
    requires Exclusive(s.threads) && ThreadOk(s, s.threads[t])
    ensures SentStored(s')
  {
    hide SrcWait, Scanned, Searched, Broadcast, Signal;
    var th := s.threads[t];
    if th.SrcSend? {
      assert Untouched(s, th.i);
      assert IsStored(s, th.i);
    }
  }

  lemma EntriesStep(s: State, s': State, t: nat)
    requires Step(s, s', t) && EntriesStored(s) && Shaped(s) && Exclusive(s.threads)
    requires ThreadOk(s, s.threads[t]) && Others(s.threads, s'.threads, t)
    ensures EntriesStored(s')
  {
    hide Oldest, Absent, ScanOk, StampOk;
    forall i: nat | i < s'.cacheSize && Untouched(s', i) ensures IsStored(s', i) {
      EntryStep(s, s', t, i);
    }
  }

  lemma EntryStep(s: State, s': State, t: nat, i: nat)
    requires Step(s, s', t) && EntriesStored(s) && Shaped(s) && Exclusive(s.threads)
    requires ThreadOk(s, s.threads[t]) && Others(s.threads, s'.threads, t)
    requires i < s'.cacheSize && Untouched(s', i)
    ensures IsStored(s', i)
  {
    hide Oldest, Absent, ScanOk, StampOk;
    var th := s.threads[t];
    if WritesAt(th, i) {
      LeaverStores(s, s', t);
    } else {
      OthersUntouched(s, s', t, i);
      SlotKept(s, s', t, i);
    }
  }

  lemma OthersUntouched(s: State, s': State, t: nat, i: nat)
    requires Others(s.threads, s'.threads, t) && Untouched(s', i) && !WritesAt(s.threads[t], i)
    ensures Untouched(s, i)
  {
    forall j | 0 <= j < |s.threads| ensures !WritesAt(s.threads[j], i) {
      assert !WritesAt(s'.threads[j], i);
    }
  }

  /** A writer gives up its slot only by completing it. */
  lemma LeaverStores(s: State, s': State, t: nat)
    requires t < |s.threads| && Step(s, s', t) && Shaped(s) && WritesEntry(s.threads[t]) && ThreadOk(s, s.threads[t])
    requires |s'.threads| == |s.threads| && !WritesAt(s'.threads[t], s.threads[t].i)
    ensures IsStored(s', s.threads[t].i)
  {
    hide Oldest, Absent, ScanOk, StampOk, Stamps, Writes, Signal;
    var th := s.threads[t];
    assert AddStep(s, s', t);
    if th.AddLeave? {
      assert Body(s'.caches[th.i]) == th.content;
    } else {
      WriterStays(s, s', t);
    }
  }

  lemma WriterStays(s: State, s': State, t: nat)
    requires t < |s.threads| && AddStep(s, s', t) && WritesEntry(s.threads[t]) && !s.threads[t].AddLeave?
    ensures |s'.threads| == |s.threads| && WritesAt(s'.threads[t], s.threads[t].i)
  {
  }

  lemma SlotKept(s: State, s': State, t: nat, i: nat)
    requires Step(s, s', t) && Shaped(s) && ThreadOk(s, s.threads[t]) && EntriesStored(s)
    requires i < s'.cacheSize && Untouched(s, i) && !WritesAt(s.threads[t], i)
    ensures IsStored(s', i)
  {
    hide Oldest, Absent, ScanOk, StampOk, Broadcast, Signal;
    if s.threads[t].Idle? {
      assert IsStored(s, i);
    } else if SrcStep(s, s', t) {
      hide AddStep;
      assert IsStored(s, i);
    } else {
      hide SrcStep;
      assert i < s.cacheSize;
      assert IsStored(s, i);
    }
  }

  lemma ThreadsStep(s: State, s': State, t: nat)
    requires Step(s, s', t) && Coherent(s) && Exclusive(s.threads) && Others(s.threads, s'.threads, t)
    ensures ThreadsOk(s')
  {
    hide ThreadOk, StartStep, SrcStep, AddStep, Shaped, Stamped, EntriesStored, SentStored, Others, Exclusive;
    StepQuiet(s, s', t);
    hide Quiet;
    assert ThreadOk(s, s.threads[t]);
    SelfOk(s, s', t);
    SameLength(s, s', t);
    forall j | 0 <= j < |s'.threads| ensures ThreadOk(s', s'.threads[j]) {
      if j != t {
        OtherOk(s, s', t, j);
      }
    }
  }

  lemma StartOk(s: State, s': State, t: nat)
    requires t < |s.threads| && StartStep(s, s', t)
    ensures t < |s'.threads| && ThreadOk(s', s'.threads[t])
  {
  }

  lemma StoredStep(s: State, s': State, t: nat)
    requires Step(s, s', t) && StoredReceived(s) && ThreadOk(s, s.threads[t])
    ensures StoredReceived(s')
  {
    hide StampOk, Oldest, Absent, ScanOk, SlotOk;
  }

  lemma SelfOk(s: State, s': State, t: nat)
    requires Step(s, s', t) && Coherent(s)
    ensures t < |s'.threads| && ThreadOk(s', s'.threads[t])
  {
    hide SrcStep, AddStep, Stamped, Shaped, EntriesStored, SentStored;
    StepEffect(s, s', t);
    hide Effect;
    if s.threads[t].Idle? {
      StartOk(s, s', t);
    } else if s.threads[t].Relaying? {
      hide ThreadOk;
      assert ThreadOk(s, s.threads[t]);
      RelayOk(s, s', t);
    } else if SrcStep(s, s', t) {
      hide ThreadOk;
      assert ThreadOk(s, s.threads[t]);
      SrcOk(s, s', t);
    } else {
      hide ThreadOk;
      assert ThreadOk(s, s.threads[t]);
      AddOk(s, s', t);
    }
  }

  lemma SameLength(s: State, s': State, t: nat)
    requires Others(s.threads, s'.threads, t)
    ensures |s'.threads| == |s.threads|
  {
  }

  lemma CoherentInit(s: State)
    requires Init(s)
    ensures Coherent(s)
  {
  }

  lemma CoherentStep(s: State, s': State, t: nat)
    requires Step(s, s', t) && Locked(s) && Coherent(s)
    ensures Coherent(s')
  {
    hide Step, ThreadOk, Shaped, Stamped, EntriesStored, SentStored, StoredReceived, Counted, NoLostWakeup, Exclusive;
    StepEffect(s, s', t);
    ThreadsStep(s, s', t);
    assert ThreadOk(s, s.threads[t]);
    ShapedStep(s, s', t);
    StampedStep(s, s', t);
    EntriesStep(s, s', t);
    SentStep(s, s', t);
    StoredStep(s, s', t);
  }

  lemma {:induction false} RunCoherent(b: seq<State>)
    requires Run(b)
    ensures forall n | 0 <= n < |b| :: Coherent(b[n])
  {
    hide Locked, Coherent, Step, Init;
    if |b| == 1 {
      CoherentInit(b[0]);
    } else {
      var m := |b| - 1;
      RunPrefix(b);
      RunCoherent(b[..m]);
      RunLocked(b);
      var t :| Step(b[m - 1], b[m], t);
      assert b[..m][m - 1] == b[m - 1];
      CoherentStep(b[m - 1], b[m], t);
      forall n | 0 <= n < |b| ensures Coherent(b[n]) {
        if n < m { assert b[..m][n] == b[n]; }
      }
    }
  }

  // ----- What holds in every state of every run -----
  //
  // A run does not get past the copy of an overlong url into a slot (NeverStuck), so these theorems are
  // about the program up to the first such copy.

  /** Whatever cache_src has sent, some completed cache_add had stored under that same url. */
  lemma SendsOnlyStored(b: seq<State>, n: nat, m: nat)
    requires Run(b) && n < |b| && m < |b[n].sent|
    ensures b[n].sent[m] in b[n].stored
  {
    hide Run, Shaped, Stamped, EntriesStored, ThreadsOk;
    RunCoherent(b);
    assert Coherent(b[n]);
  }

  /** Every body that cache_src has sent under a url is the whole response that some copy loop
      received for that url. */
  lemma SendsWholeResponses(b: seq<State>, n: nat, m: nat)
    requires Run(b) && n < |b| && m < |b[n].sent|
    ensures b[n].sent[m] in b[n].received
  {
    hide Run, Shaped, Stamped, EntriesStored, ThreadsOk;
    RunCoherent(b);
    assert Coherent(b[n]);
  }

  /** Two slots never carry the same stamp, and the larger stamp is the later use. */
  lemma StampsDistinct(b: seq<State>, n: nat, i: nat, j: nat)
    requires Run(b) && n < |b| && i < b[n].cacheSize && j < b[n].cacheSize && i != j
    ensures i < |b[n].caches| && j < |b[n].caches|
    ensures 0 <= b[n].caches[i].stamp < b[n].timestp
    ensures b[n].caches[i].stamp != b[n].caches[j].stamp
  {
    hide Run, EntriesStored, ThreadsOk, SentStored;
    RunCoherent(b);
    assert Coherent(b[n]);
    assert StampOk(b[n], i) && StampOk(b[n], j);
  }

  /** A slot in use is replaced only when the cache is full, and then every other slot has been
      stamped since its last stamp. */
  lemma EvictedIsOldest(b: seq<State>, n: nat, t: nat, j: nat) returns (p: int)
    requires Run(b) && n < |b| && t < |b[n].threads| && b[n].threads[t].AddUrl?
    requires b[n].threads[t].i < b[n].cacheSize
    requires j < MAX_CACHE_SIZE && j != b[n].threads[t].i
    ensures b[n].cacheSize == MAX_CACHE_SIZE
    ensures 0 <= p < |b[n].uses| && b[n].uses[p] == j && b[n].threads[t].i !in b[n].uses[p..]
  {
    hide Run, EntriesStored, SentStored;
    RunCoherent(b);
    var s, i := b[n], b[n].threads[t].i;
    assert Coherent(s);
    assert ThreadOk(s, s.threads[t]);
    assert StampOk(s, i) && StampOk(s, j);
    p := s.caches[j].stamp;
    assert i !in s.uses[p..];
  }

  /** A miss is a miss: when a call of cache_src leaves and returns false, no slot holds the url. */
  lemma MissMeansAbsent(b: seq<State>, n: nat, t: nat, j: nat)
    requires Run(b) && n < |b| && t < |b[n].threads|
    requires b[n].threads[t].SrcLeave? && !b[n].threads[t].found
    requires j < b[n].cacheSize
    ensures j < |b[n].caches| && b[n].caches[j].url != b[n].threads[t].url
  {
    hide Run, Stamped, EntriesStored, SentStored;
    RunCoherent(b);
    assert Coherent(b[n]);
    assert ThreadOk(b[n], b[n].threads[t]);
  }

  ghost predicate Enabled(s: State, t: nat) {
    exists s' :: Step(s, s', t)
  }

  lemma Possible(s: State, s': State, t: nat)
    requires Step(s, s', t)
    ensures Enabled(s, t)
  {
  }

  function Woken(ts: seq<Thread>): seq<Thread> {
    seq(|ts|, j requires 0 <= j < |ts| => Notify(ts[j]))
  }

  lemma SrcCanStep(s: State, t: nat)
    requires t < |s.threads| && Shaped(s) && ThreadOk(s, s.threads[t])
    requires s.threads[t].SrcEnter? || InSrc(s.threads[t])
    ensures Enabled(s, t)
  {
    hide Enabled, AddStep, StartStep, Absent;
    var th, ts := s.threads[t], s.threads;
    var idle := ts[t := Idle];
    var s' := match th
      case SrcEnter(url) => s.(readCnt := s.readCnt + 1, threads := ts[t := SrcWait(s, url)])
      case SrcAsleep(url, _) => s.(threads := ts[t := SrcWait(s, url)])
      case SrcScan(url, i) => s.(threads := ts[t := Scanned(s, url, i)])
      case SrcStamp(url, i) =>
        s.(threads := ts[t := SrcSend(url, i)], caches := s.caches[i := s.caches[i].(stamp := s.timestp)],
           timestp := s.timestp + 1, uses := s.uses + [i])
      case SrcSend(url, i) => s.(sent := s.sent + [(url, Body(s.caches[i]))], threads := ts[t := SrcLeave(url, true)])
      case _ => s.(readCnt := s.readCnt - 1, threads := if s.readCnt == 1 then Woken(idle) else idle);
    AllWoken(idle);
    hide Broadcast, Signal, Woken;
    assert SrcStep(s, s', t);
    Possible(s, s', t);
  }

  lemma RelayCanStep(s: State, t: nat)
    requires t < |s.threads| && s.threads[t].Relaying? && ThreadOk(s, s.threads[t])
    ensures Enabled(s, t)
  {
    hide Enabled, SrcStep, AddStep, StartStep, Relay.NextPiece, Relay.Kept, Relay.Relayed;
    var th, ts := s.threads[t], s.threads;
    var piece := Relay.NextPiece(th.response[th.n..]);
    var s' := if piece != ""
      then s.(threads := ts[t := Relaying(th.url, th.response, th.n + |piece|, Relay.Kept(th.buf, th.n, piece))])
      else s.(received := s.received + {(th.url, th.response)},
              threads := ts[t := Copied(th.url, th.response, th.buf)]);
    assert RelayStep(s, s', t);
    Possible(s, s', t);
  }

  lemma AllWoken(ts: seq<Thread>)
    ensures Broadcast(ts, Woken(ts)) && Signal(ts, Woken(ts))
  {
    if exists j | 0 <= j < |ts| :: Unnotified(ts[j]) {
      var j :| 0 <= j < |ts| && Unnotified(ts[j]);
      assert Notified(Woken(ts)[j]);
    }
  }

  lemma AddCanStep(s: State, t: nat)
    requires t < |s.threads| && Shaped(s) && ThreadOk(s, s.threads[t])
    requires s.threads[t].AddEnter? || s.threads[t].AddAsleep? || Writing(s.threads[t])
    requires s.threads[t].AddUrl? ==> UrlFits(s.threads[t].url)
    ensures Enabled(s, t)
  {
    hide Enabled, SrcStep, StartStep, Absent, Oldest, StampOk, ScanOk;
    var th, ts := s.threads[t], s.threads;
    var idle := ts[t := Idle];
    var s' := match th
      case AddEnter(url, content) => AddWaited(s, t, url, content)
      case AddAsleep(url, content, _) => AddWaited(s, t, url, content)
      case AddChoose(url, content) =>
        s.(threads := ts[t := if s.cacheSize < MAX_CACHE_SIZE then AddUrl(url, content, s.cacheSize, true)
                              else AddScan(url, content, 0, s.timestp, 0)])
      case AddScan(_, _, _, _, _) => s.(threads := ts[t := Searched(s, th)])
      case AddUrl(url, content, i, grow) =>
        s.(threads := ts[t := AddContent(url, content, i, grow)], caches := s.caches[i := s.caches[i].(url := url)])
      case AddContent(url, content, i, grow) =>
        s.(threads := ts[t := AddSize(url, content, i, grow)],
           caches := s.caches[i := s.caches[i].(buf := Overwrite(s.caches[i].buf, content))])
      case AddSize(url, content, i, grow) =>
        s.(threads := ts[t := AddStamp(url, content, i, grow)],
           caches := s.caches[i := s.caches[i].(size := |content|)])
      case AddStamp(url, content, i, grow) =>
        s.(threads := ts[t := if grow then AddBump(url, content, i) else AddLeave(url, content, i)],
           caches := s.caches[i := s.caches[i].(stamp := s.timestp)], timestp := s.timestp + 1, uses := s.uses + [i])
      case AddBump(url, content, i) =>
        s.(cacheSize := s.cacheSize + 1, threads := ts[t := AddLeave(url, content, i)])
      case AddLeave(url, content, _) =>
        s.(writeCnt := s.writeCnt - 1, threads := Woken(idle), stored := s.stored + {(url, content)})
      case _ => s;
    AllWoken(idle);
    hide Broadcast, Signal, Woken;
    assert AddStep(s, s', t);
    Possible(s, s', t);
  }

  function AddWaited(s: State, t: nat, url: string, content: Content): State
    requires t < |s.threads|
  {
    if s.readCnt > 0 || s.writeCnt > 0 then s.(threads := s.threads[t := AddAsleep(url, content, false)])
    else s.(writeCnt := s.writeCnt + 1, threads := s.threads[t := AddChoose(url, content)])
  }

  /** The next access of the thread is outside the array of slots, or past the end of a buffer. */
  ghost predicate OutOfBounds(s: State, th: Thread) {
    match th
    case Relaying(_, response, n, buf) =>
      n > |response| || !Relay.Holds(buf, n + |Relay.NextPiece(response[n..])|)
    case SrcScan(_, i) => i < s.cacheSize && (|s.caches| <= i || !UrlFits(s.caches[i].url))
    case SrcStamp(_, i) => |s.caches| <= i
    case SrcSend(_, i) => |s.caches| <= i || !Readable(s.caches[i])
    case AddScan(_, _, i, _, _) => |s.caches| <= i < MAX_CACHE_SIZE
    case AddUrl(url, _, i, _) => |s.caches| <= i || !UrlFits(url)
    case AddContent(_, content, i, _) => |s.caches| <= i || |s.caches[i].buf| < |content|
    case AddSize(_, _, i, _) => |s.caches| <= i
    case AddStamp(_, _, i, _) => |s.caches| <= i
    case _ => false
  }

  lemma OutOfBoundsSticks(s: State, t: nat)
    requires t < |s.threads| && OutOfBounds(s, s.threads[t])
    ensures !Enabled(s, t)
  {
    hide Relay.NextPiece, Relay.Holds, Relay.Kept;
    if s.threads[t].Relaying? && s.threads[t].n <= |s.threads[t].response| {
      var th := s.threads[t];
      PieceIs(th.response, th.n);
    }
  }

  /** The thread is about to copy a url that is too long for its slot. */
  predicate Overlong(th: Thread) { th.AddUrl? && !UrlFits(th.url) }

  /** A thread under way can make its next step, and that step accesses nothing outside its array,
      if and only if it is not about to copy an overlong url into a slot. */
  lemma NeverStuck(b: seq<State>, n: nat, t: nat)
    requires Run(b) && n < |b| && t < |b[n].threads| && !b[n].threads[t].Idle?
    ensures Enabled(b[n], t) <==> !Overlong(b[n].threads[t])
    ensures OutOfBounds(b[n], b[n].threads[t]) <==> Overlong(b[n].threads[t])
  {
    if OutOfBounds(b[n], b[n].threads[t]) {
      OutOfBoundsSticks(b[n], t);
    }
    if !Overlong(b[n].threads[t]) {
      hide Run, OutOfBounds;
      InBoundsSteps(b, n, t);
    }
  }

  lemma InBoundsSteps(b: seq<State>, n: nat, t: nat)
    requires Run(b) && n < |b| && t < |b[n].threads| && !b[n].threads[t].Idle? && !Overlong(b[n].threads[t])
    ensures Enabled(b[n], t)
  {
    hide Run, Stamped, EntriesStored, SentStored, Enabled;
    RunCoherent(b);
    assert Coherent(b[n]);
    assert ThreadOk(b[n], b[n].threads[t]);
    if b[n].threads[t].SrcEnter? || InSrc(b[n].threads[t]) {
      SrcCanStep(b[n], t);
    } else if b[n].threads[t].Relaying? {
      RelayCanStep(b[n], t);
    } else {
      AddCanStep(b[n], t);
    }
  }
}
