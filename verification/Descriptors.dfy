/** What the RIO package sees of read() and write(): a descriptor delivers or accepts a byte stream
    in pieces of any size, with interrupts and failures in between. */
module Descriptors {

  /** One future answer of the operating system. A count is cut down to what is legal; after the
      last scripted answer, calls transfer as much as they can. */
  datatype Answer = Interrupted | Failed | Count(k: nat)

  /** Answers that are still to come were to come before. */
  ghost predicate Later(now: seq<Answer>, before: seq<Answer>) {
    forall a | a in now :: a in before
  }

  function Min(a: int, b: int): (m: int)
    ensures m <= a && m <= b && (m == a || m == b)
  {
    if a < b then a else b
  }

  /** The piece a read of n > 0 bytes delivers: at least one byte unless the stream has ended. */
  function Piece(script: seq<Answer>, n: nat, left: nat): (k: nat)
    ensures k <= n && k <= left && (n > 0 && left > 0 ==> k > 0)
  {
    if script == [] || !script[0].Count? || script[0].k == 0 then Min(n, left) else Min(script[0].k, Min(n, left))
  }

  /** The piece goes to the buffer, from position at on. */
  method Deliver(usr: array<char>, at: nat, piece: string)
    requires at + |piece| <= usr.Length
    modifies usr
    ensures usr[at..at + |piece|] == piece
    ensures forall k | 0 <= k < usr.Length && (k < at || k >= at + |piece|) :: usr[k] == old(usr[k])
  {
    for k := 0 to |piece|
      invariant usr[at..at + k] == piece[..k]
      invariant forall i | 0 <= i < usr.Length && (i < at || i >= at + k) :: usr[i] == old(usr[i])
    {
      usr[at + k] := piece[k];
      assert usr[at..at + k + 1] == usr[at..at + k] + [piece[k]];
    }
  }

  /** The readable side of a descriptor: the bytes still to come. */
  class Source {
    var stream: string
    var script: seq<Answer>
    var interrupted: bool  // errno == EINTR, as the last failing call left it

    constructor (bytes: string, answers: seq<Answer>)
      ensures stream == bytes && script == answers && !interrupted
    {
      stream, script, interrupted := bytes, answers, false;
    }

    /** A read of up to n bytes into the buffer from position at on. */
    method Read(usr: array<char>, at: nat, n: nat) returns (got: int)
      requires at + n <= usr.Length
      modifies this, usr
      ensures -1 <= got <= n && got <= |old(stream)|
      ensures got < 0 ==> stream == old(stream) && usr[..] == old(usr[..]) && old(script) != []
      ensures got < 0 ==> old(script)[0] == if interrupted then Interrupted else Failed
      ensures got >= 0 ==> stream == old(stream)[got..] && (n > 0 ==> (got == 0 <==> old(stream) == []))
      ensures got >= 0 ==> usr[at..at + got] == old(stream)[..got]
      ensures forall k | 0 <= k < usr.Length && (k < at || k >= at + n) :: usr[k] == old(usr[k])
      ensures script == if old(script) == [] then [] else old(script)[1..]
    {
      if script != [] && !script[0].Count? {
        interrupted := script[0].Interrupted?;
        got := -1;
      } else {
        got := Piece(script, n, |stream|);
        Deliver(usr, at, stream[..got]);
        stream := stream[got..];
      }
      script := if script == [] then [] else script[1..];
    }
  }

  /** The writable side of a descriptor: the bytes accepted so far. */
  class Sink {
    var written: string
    var script: seq<Answer>
    var interrupted: bool

    constructor (answers: seq<Answer>)
      ensures written == "" && script == answers && !interrupted
    {
      written, script, interrupted := "", answers, false;
    }

    /** A write of up to n bytes of the buffer from position at on. A write of no bytes leaves errno as it was. */
    method Write(usr: array<char>, at: nat, n: nat) returns (put: int)
      requires at + n <= usr.Length
      modifies this
      ensures -1 <= put <= n
      ensures put < 0 ==> written == old(written) && old(script) != []
      ensures put < 0 ==> old(script)[0] == if interrupted then Interrupted else Failed
      ensures put >= 0 ==> written == old(written) + usr[at..at + put] && interrupted == old(interrupted)
      ensures put == 0 < n ==> old(script) != [] && old(script)[0] == Count(0)
      ensures put < 0 <==> old(script) != [] && !old(script)[0].Count?
      ensures old(script) != [] && old(script)[0].Count? ==> put == Min(old(script)[0].k, n)
      ensures script == if old(script) == [] then [] else old(script)[1..]
    {
      if script != [] && !script[0].Count? {
        interrupted := script[0].Interrupted?;
        put := -1;
      } else {
        put := if script == [] then n else Min(script[0].k, n);
        written := written + usr[at..at + put];
      }
      script := if script == [] then [] else script[1..];
    }
  }
}
