/** Least recently used, told by the calls of cache_src and cache_add and not by the stamps: which
    calls have found or filled which slot, when they have sent or finished, and what is evicted. */
module RecentUse {
  import opened ObjectCache
  import opened ReaderWriter
  import opened Coherence
  import Relay

  /** Step n of the run is one of thread t. */
  ghost predicate Moves(b: seq<State>, n: int, t: nat) {
    1 <= n < |b| && Step(b[n - 1], b[n], t)
  }

  /** Step n is that of a call that has found its url in slot i, or has filled slot i, and now goes
      through its short critical section. */
  ghost predicate Touches(b: seq<State>, n: int, t: nat, i: nat) {
    && Moves(b, n, t) && t < |b[n - 1].threads|
    && (b[n - 1].threads[t].SrcStamp? || b[n - 1].threads[t].AddStamp?) && b[n - 1].threads[t].i == i
  }

  /** The call is past that section, and has not yet sent, or not yet left. */
  predicate Past(th: Thread, i: nat) {
    (th.SrcSend? || th.AddBump? || th.AddLeave?) && th.i == i
  }

  /** Step n sends the object in slot i, or ends a call of cache_add that has stored one there. */
  ghost predicate Completes(b: seq<State>, n: int, t: nat, i: nat) {
    && Moves(b, n, t) && t < |b[n - 1].threads|
    && (b[n - 1].threads[t].SrcSend? || b[n - 1].threads[t].AddLeave?) && b[n - 1].threads[t].i == i
  }

  // ----- Steps -----

  lemma StepExists(b: seq<State>, n: int) returns (t: nat)
    requires Run(b) && 1 <= n < |b|
    ensures Moves(b, n, t) && t < |b[n - 1].threads| == |b[n].threads|
    ensures Others(b[n - 1].threads, b[n].threads, t)
  {
    assert Follows(b, n);
    t :| Step(b[n - 1], b[n], t);
    StepEffect(b[n - 1], b[n], t);
  }

  lemma UsesStep(s: State, s': State, t: nat)
    requires Step(s, s', t)
    ensures t < |s.threads|
    ensures var th := s.threads[t];
            s'.uses == if th.SrcStamp? || th.AddStamp? then s.uses + [th.i] else s.uses
  {
  }

  /** To be past the section a call must go through it. */
  lemma PastStep(s: State, s': State, t: nat, i: nat)
    requires Step(s, s', t) && t < |s.threads| == |s'.threads| && Past(s'.threads[t], i)
    ensures var th := s.threads[t]; Past(th, i) || ((th.SrcStamp? || th.AddStamp?) && th.i == i)
  {
    hide SrcStep, AddStep, Relay.NextPiece, Relay.Kept, Relay.Holds;
    if s.threads[t].Idle? || s.threads[t].Relaying? {
    } else if SrcStep(s, s', t) {
      SrcPast(s, s', t, i);
    } else {
      AddPast(s, s', t, i);
    }
  }

  lemma SrcPast(s: State, s': State, t: nat, i: nat)
    requires t < |s.threads| == |s'.threads| && SrcStep(s, s', t) && Past(s'.threads[t], i)
    ensures s.threads[t].SrcStamp? && s.threads[t].i == i
  {
  }

  lemma AddPast(s: State, s': State, t: nat, i: nat)
    requires t < |s.threads| == |s'.threads| && AddStep(s, s', t) && Past(s'.threads[t], i)
    ensures (Past(s.threads[t], i) || s.threads[t].AddStamp?) && s.threads[t].i == i
  {
  }

  /** And it gets out of there only by sending or by leaving. */
  lemma OutStep(s: State, s': State, t: nat, i: nat)
    requires Step(s, s', t) && t < |s.threads| == |s'.threads| && Past(s.threads[t], i)
    ensures Past(s'.threads[t], i) || s.threads[t].SrcSend? || s.threads[t].AddLeave?
  {
  }

  lemma IntoStep(s: State, s': State, t: nat)
    requires Step(s, s', t) && t < |s.threads| == |s'.threads|
    requires s.threads[t].SrcStamp? || s.threads[t].AddStamp?
    ensures Past(s'.threads[t], s.threads[t].i)
  {
  }

  lemma OthersStay(ts: seq<Thread>, ts': seq<Thread>, t: nat, u: nat)
    requires Others(ts, ts', t) && u < |ts| && u != t
    ensures (!Asleep(ts[u]) ==> ts'[u] == ts[u]) && Asleep(ts'[u]) == Asleep(ts[u])
  {
  }

  // ----- Runs -----

  lemma {:induction false} UsesGrow(b: seq<State>, m: int, n: int)
    requires Run(b) && 0 <= m <= n < |b|
    ensures b[m].uses <= b[n].uses && |b[m].threads| == |b[n].threads|
    decreases n - m
  {
    if m < n {
      hide Run, Step;
      UsesGrow(b, m, n - 1);
      var t := StepExists(b, n);
      UsesStep(b[n - 1], b[n], t);
    }
  }

  /** Every entry of the history of uses was written when a call touched that slot. */
  lemma {:induction false} UseIsTouch(b: seq<State>, n: int, v: int) returns (p: int, t: nat)
    requires Run(b) && 0 <= n < |b| && 0 <= v < |b[n].uses|
    ensures 1 <= p <= n && Touches(b, p, t, b[n].uses[v]) && |b[p - 1].uses| == v
    decreases n
  {
    if n > 0 {
      hide Run, Step;
      t := StepExists(b, n);
      UsesStep(b[n - 1], b[n], t);
      if v < |b[n - 1].uses| {
        p, t := UseIsTouch(b, n - 1, v);
      } else {
        p := n;
      }
    }
  }

  /** And whoever is past its section has touched its slot, and has been past it since. */
  lemma {:induction false} PastMeansTouched(b: seq<State>, n: int, t: nat, i: nat) returns (p: int)
    requires Run(b) && 0 <= n < |b| && t < |b[n].threads| && Past(b[n].threads[t], i)
    ensures 1 <= p <= n && Touches(b, p, t, i)
    ensures forall q | p <= q <= n :: t < |b[q].threads| && Past(b[q].threads[t], i)
    decreases n
  {
    if n > 0 {
      hide Run, Step;
      var u := StepExists(b, n);
      if u != t {
        OthersStay(b[n - 1].threads, b[n].threads, u, t);
      } else {
        PastStep(b[n - 1], b[n], t, i);
      }
      if Past(b[n - 1].threads[t], i) {
        p := PastMeansTouched(b, n - 1, t, i);
      } else {
        p := n;
      }
    }
  }

  /** A call that is past its section and later is not has sent or left in between. */
  lemma {:induction false} PastCompletes(b: seq<State>, p: int, n: int, t: nat, i: nat) returns (m: int)
    requires Run(b) && 0 <= p <= n < |b| && t < |b[p].threads| && Past(b[p].threads[t], i)
    requires t < |b[n].threads| && !Past(b[n].threads[t], i)
    ensures p < m <= n && Completes(b, m, t, i)
    decreases n
  {
    hide Run, Step;
    assert p < n;
    var u := StepExists(b, n);
    if Past(b[n - 1].threads[t], i) {
      if u != t {
        OthersStay(b[n - 1].threads, b[n].threads, u, t);
      } else {
        OutStep(b[n - 1], b[n], t, i);
      }
      m := n;
    } else {
      m := PastCompletes(b, p, n - 1, t, i);
    }
  }

  // ----- Eviction -----

  /** After step p no call touches slot i up to state n. */
  ghost predicate UntouchedSince(b: seq<State>, p: int, n: int, i: nat) {
    forall m, u: nat | p < m <= n :: !Touches(b, m, u, i)
  }

  lemma TouchIsUse(b: seq<State>, n: int, i: nat, v: int, m: int, u: nat)
    requires Run(b) && 1 <= m <= n < |b| && Touches(b, m, u, i) && 0 <= v <= |b[m - 1].uses|
    ensures v < |b[n].uses| && i in b[n].uses[v..]
  {
    hide Run, Step;
    UsesStep(b[m - 1], b[m], u);
    UsesGrow(b, m, n);
    var w := |b[m - 1].uses|;
    assert b[m].uses[w] == i && b[n].uses[w] == i;
    assert b[n].uses[v..][w - v] == i;
  }

  lemma UntouchedFrom(b: seq<State>, n: int, i: nat, v: int, p: int)
    requires Run(b) && 1 <= p <= n < |b| && 0 <= v < |b[n].uses| && i !in b[n].uses[v..]
    requires |b[p].uses| > v
    ensures UntouchedSince(b, p, n, i)
  {
    hide Run, Step;
    forall m, u: nat | p < m <= n ensures !Touches(b, m, u, i) {
      if Touches(b, m, u, i) {
        UsesGrow(b, p, m - 1);
        TouchIsUse(b, n, i, v, m, u);
      }
    }
  }

  lemma PastIn(b: seq<State>, p: int, t: nat, i: nat)
    requires Run(b) && Touches(b, p, t, i)
    ensures t < |b[p].threads| && Past(b[p].threads[t], i)
  {
    hide Run;
    StepEffect(b[p - 1], b[p], t);
    hide Effect;
    IntoStep(b[p - 1], b[p], t);
  }

  /** Since p, slot i has been sent from, or stored into, only by calls that were past their section
      at p already. */
  ghost predicate OnlyInFlight(b: seq<State>, p: int, n: int, i: nat)
    requires 0 <= p < |b|
  {
    forall m, w: nat | p < m <= n && Completes(b, m, w, i) :: w < |b[p].threads| && Past(b[p].threads[w], i)
  }

  lemma InFlight(b: seq<State>, p: int, n: int, i: nat)
    requires Run(b) && 0 <= p <= n < |b| && UntouchedSince(b, p, n, i)
    ensures OnlyInFlight(b, p, n, i)
  {
    hide Run, Step;
    forall m, w: nat | p < m <= n && Completes(b, m, w, i)
      ensures w < |b[p].threads| && Past(b[p].threads[w], i)
    {
      var q := PastMeansTouched(b, m - 1, w, i);
    }
  }

  /** Before a slot i in use is overwritten the cache is full, and every other slot j has been touched,
      and sent from or stored into, by a call since whose touch no call has touched slot i; since then
      slot i has at most been sent from or stored into by calls that were past their touch already. */
  lemma EvictsLeastRecent(b: seq<State>, n: nat, t: nat, j: nat) returns (p: int, u: nat, m: int)
    requires Run(b) && n < |b| && t < |b[n].threads| && b[n].threads[t].AddUrl?
    requires b[n].threads[t].i < b[n].cacheSize
    requires j < MAX_CACHE_SIZE && j != b[n].threads[t].i
    ensures b[n].cacheSize == MAX_CACHE_SIZE
    ensures 1 <= p < m <= n && Touches(b, p, u, j) && Completes(b, m, u, j)
    ensures UntouchedSince(b, p, n, b[n].threads[t].i) && OnlyInFlight(b, p, n, b[n].threads[t].i)
  {
    hide Run, Step;
    var i := b[n].threads[t].i;
    var v := EvictedIsOldest(b, n, t, j);
    p, u := UseIsTouch(b, n, v);
    UsesGrow(b, p, n);
    TouchGrows(b, p, u, j);
    UntouchedFrom(b, n, i, v, p);
    InFlight(b, p, n, i);
    PastIn(b, p, u, j);
    NobodyElse(b, n, t, u, j);
    m := PastCompletes(b, p, n, u, j);
  }

  lemma TouchGrows(b: seq<State>, p: int, u: nat, j: nat)
    requires Run(b) && Touches(b, p, u, j)
    ensures |b[p].uses| == |b[p - 1].uses| + 1
  {
    hide Run, Step;
    UsesStep(b[p - 1], b[p], u);
  }

  /** A thread about to overwrite a slot is alone past a wait loop. */
  lemma NobodyElse(b: seq<State>, n: nat, t: nat, u: nat, j: nat)
    requires Run(b) && n < |b| && t < |b[n].threads| && b[n].threads[t].AddUrl? && u < |b[n].threads|
    ensures !Past(b[n].threads[u], j)
  {
    hide Run;
    if u != t {
      WriterAlone(b, n, t, u);
    }
  }
}
