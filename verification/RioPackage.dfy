/** The RIO package (csapp.c): buffered and unbuffered transfers that do not depend on how the
    operating system cuts the byte stream. */
module RioPackage {
  import opened Descriptors

  const RIO_BUFSIZE := 8192

  /** rio_readn. */
  method Readn(fd: Source, usr: array<char>, n: nat) returns (r: int, ghost got: nat)
    requires n <= usr.Length
    modifies fd, usr
    ensures r == -1 || r == Min(n, |old(fd.stream)|)
    ensures r >= 0 ==> got == r
    ensures r == -1 ==> Failed in old(fd.script)
    ensures got <= n && got <= |old(fd.stream)|
    ensures usr[..got] == old(fd.stream)[..got] && fd.stream == old(fd.stream)[got..]
  {
    var nleft, at := n, 0;
    ghost var p := fd.stream;
    got := 0;
    while nleft > 0
      invariant 0 <= nleft <= n && at == got == n - nleft && got <= |p|
      invariant usr[..got] == p[..got] && fd.stream == p[got..]
      invariant Later(fd.script, old(fd.script))
      decreases nleft, |fd.script|
    {
      ghost var before := fd.script;
      var nread := fd.Read(usr, at, nleft);
      if nread < 0 {
        if fd.interrupted {
          nread := 0;
        } else {
          assert before[0] == Failed;
          return -1, got;
        }
      } else if nread == 0 {
        break;
      } else {
        Longer(usr[..], p, at, nread);
      }
      nleft := nleft - nread;
      at := at + nread;
      got := got + nread;
    }
    r := n - nleft;
  }

  /** The next answer is a failure, or a write that accepts nothing and is not taken for an interrupt. */
  ghost predicate Refuses(script: seq<Answer>, interrupted: bool) {
    script != [] && (script[0] == Failed || (script[0] == Count(0) && !interrupted))
  }

  /** rio_writen: all n bytes or an error, and never a byte out of place. A write that accepts
      nothing is taken for an interrupt if the last failure was one. */
  method Writen(fd: Sink, usr: array<char>, n: nat) returns (r: int, ghost put: nat)
    requires n <= usr.Length
    modifies fd
    ensures r == n || (r == -1 && put < n)
    ensures r == n ==> put == n
    ensures r == -1 ==> Failed in old(fd.script) || Count(0) in old(fd.script)
    ensures n > 0 && Refuses(old(fd.script), old(fd.interrupted)) ==> r == -1 && put == 0
    ensures put <= n && fd.written == old(fd.written) + usr[..put]
    ensures Later(fd.script, old(fd.script))
  {
    var nleft, at := n, 0;
    put := 0;
    while nleft > 0
      invariant 0 <= nleft <= n && at == put == n - nleft
      invariant fd.written == old(fd.written) + usr[..put]
      invariant Later(fd.script, old(fd.script))
      invariant !Refuses(old(fd.script), old(fd.interrupted))
                || (nleft == n && fd.script == old(fd.script) && fd.interrupted == old(fd.interrupted))
      decreases nleft, |fd.script|
    {
      ghost var before := fd.script;
      var nwritten := fd.Write(usr, at, nleft);
      assert usr[..put] + usr[at..at + Max(nwritten, 0)] == usr[..at + Max(nwritten, 0)];
      if nwritten <= 0 {
        if fd.interrupted {
          nwritten := 0;
        } else {
          assert before[0] == Failed || before[0] == Count(0);
          return -1, put;
        }
      }
      nleft := nleft - nwritten;
      at := at + nwritten;
      put := put + nwritten;
    }
    r := n;
  }

  function Max(a: int, b: int): (m: int)
    ensures a <= m && b <= m && (m == a || m == b)
  {
    if a > b then a else b
  }

  lemma Longer(u: string, p: string, a: nat, b: nat)
    requires a + b <= |u| && a + b <= |p| && u[..a] == p[..a] && u[a..a + b] == p[a..][..b]
    ensures u[..a + b] == p[..a + b] && p[a..][b..] == p[a + b..]
  {
    assert u[..a + b] == u[..a] + u[a..a + b];
  }

  lemma Shorter(p: string, k: nat, c: char, rest: string)
    requires k <= |p| && p[k..] == [c] + rest
    ensures k < |p| && p[k] == c && p[..k + 1] == p[..k] + [c] && p[k + 1..] == rest
  {
    assert p[k..][0] == c;
    assert p[k..][1..] == rest;
  }

  /** How many bytes a line of p takes, the newline included, if at most limit may be taken. */
  function LineLength(p: string, limit: int): (n: nat)
    ensures n <= |p| && n <= Max(limit, 0)
    ensures forall k | 0 <= k < n - 1 :: p[k] != '\n'
    ensures n == |p| || n == Max(limit, 0) || (n > 0 && p[n - 1] == '\n')
    decreases |p|
  {
    if p == "" || limit <= 0 then 0 else if p[0] == '\n' then 1 else 1 + LineLength(p[1..], limit - 1)
  }

  lemma {:induction false} LineGoesOn(p: string, limit: int, n: nat)
    requires n <= |p| && n <= limit && forall k | 0 <= k < n :: p[k] != '\n'
    ensures LineLength(p, limit) == n + LineLength(p[n..], limit - n)
  {
    if n == 0 {
      assert p[0..] == p;
    } else {
      assert forall k | 0 <= k < n - 1 :: p[1..][k] == p[k + 1];
      LineGoesOn(p[1..], limit - 1, n - 1);
      assert p[1..][n - 1..] == p[n..];
    }
  }

  lemma LineEnds(p: string, limit: int, n: nat)
    requires n <= |p| && n <= Max(limit, 0)
    requires forall k | 0 <= k < n - 1 :: p[k] != '\n'
    requires || (n > 0 && p[n - 1] == '\n')
             || ((forall k | 0 <= k < n :: p[k] != '\n') && (n == |p| || n == Max(limit, 0)))
    ensures LineLength(p, limit) == n
  {
    if n > 0 {
      LineGoesOn(p, limit, if p[n - 1] == '\n' then n - 1 else n);
    }
  }

  // ----- A mix of calls on one stream -----

  datatype Request = Bytes(n: nat) | Line(maxlen: nat)

  /** How many of the pending bytes a successful call delivers. */
  function Served(q: Request, p: string): (k: nat)
    ensures k <= |p|
  {
    match q
    case Bytes(n) => Min(n, |p|)
    case Line(maxlen) => LineLength(p, maxlen - 1)
  }

  /** What the requests deliver, one after the other. */
  function Delivered(qs: seq<Request>, p: string): (r: seq<string>)
    ensures |r| == |qs|
  {
    if qs == [] then [] else [p[..Served(qs[0], p)]] + Delivered(qs[1..], p[Served(qs[0], p)..])
  }

  function Left(qs: seq<Request>, p: string): string {
    if qs == [] then p else Left(qs[1..], p[Served(qs[0], p)..])
  }

  function Concat(ss: seq<string>): string {
    if ss == [] then "" else ss[0] + Concat(ss[1..])
  }

  /** A line request comes back empty only at the end of the stream. */
  lemma EmptyLineMeansEnd(p: string, maxlen: nat)
    requires maxlen > 1
    ensures LineLength(p, maxlen - 1) == 0 <==> p == ""
  {
  }

  /** The first k bytes of a line are in the buffer, and the rest of p is pending. */
  ghost predicate OnLine(usr: seq<char>, p: string, k: nat, pending: string) {
    && k <= |p| && k <= |usr| && usr[..k] == p[..k] && pending == p[k..]
    && forall i | 0 <= i < k :: p[i] != '\n'
  }

  lemma OnLineStart(usr: seq<char>, p: string)
    ensures OnLine(usr, p, 0, p)
  {
  }

  lemma OnLineMeans(usr: seq<char>, p: string, k: nat, pending: string)
    requires OnLine(usr, p, k, pending)
    ensures k <= |p| && k <= |usr| && usr[..k] == p[..k] && pending == p[k..]
    ensures forall i | 0 <= i < k :: p[i] != '\n'
    ensures pending == "" <==> k == |p|
  {
  }

  /** One more byte: the line goes on unless it was a newline. */
  lemma OnLineMore(before: seq<char>, usr: seq<char>, p: string, k: nat, c: char, pending: string, rest: string)
    requires OnLine(before, p, k, pending) && pending == [c] + rest
    requires |usr| == |before| && k < |usr| && usr[..k + 1] == before[..k] + [c]
    ensures k < |p| && p[k] == c && usr[..k + 1] == p[..k + 1] && rest == p[k + 1..]
    ensures forall i | 0 <= i < k :: p[i] != '\n'
    ensures c != '\n' ==> OnLine(usr, p, k + 1, rest)
  {
    Shorter(p, k, c, rest);
  }

  /** The first k bytes of p are in the buffer, and the rest is pending. */
  ghost predicate Taken(usr: seq<char>, p: string, k: nat, pending: string) {
    k <= |p| && k <= |usr| && usr[..k] == p[..k] && pending == p[k..]
  }

  lemma NothingTaken(usr: seq<char>, p: string)
    ensures Taken(usr, p, 0, p)
  {
  }

  lemma TakenMeans(usr: seq<char>, p: string, k: nat, pending: string)
    requires Taken(usr, p, k, pending)
    ensures k <= |p| && k <= |usr| && usr[..k] == p[..k] && pending == p[k..] && (pending == "" <==> k == |p|)
  {
  }

  lemma TakenMore(before: seq<char>, usr: seq<char>, p: string, k: nat, pending: string, n: nat, rest: string)
    requires Taken(before, p, k, pending) && |usr| == |before| && k + n <= |usr| && n <= |pending|
    requires usr[k..k + n] == pending[..n] && rest == pending[n..]
    requires forall i | 0 <= i < k :: usr[i] == before[i]
    ensures Taken(usr, p, k + n, rest)
  {
    assert usr[..k] == before[..k];
    Longer(usr, p, k, n);
  }

  lemma CutFront(held: string, rest: string, r: nat)
    requires r <= |held|
    ensures held[..r] == (held + rest)[..r] && held[r..] + rest == (held + rest)[r..]
  {
  }

  /** rio_t. */
  class Rio {
    var fd: Source
    var cnt: int
    var bufptr: nat
    var buf: array<char>

    ghost predicate Valid()
      reads this, buf
    {
      buf.Length == RIO_BUFSIZE && bufptr + Max(cnt, 0) <= buf.Length
    }

    /** The bytes read() has delivered and nobody has taken, and then those still to come. */
    ghost function Pending(): string
      requires Valid()
      reads this, buf, fd
    {
      buf[bufptr..bufptr + Max(cnt, 0)] + fd.stream
    }

    /** rio_readinitb. */
    constructor (source: Source)
      ensures Valid() && fd == source && fresh(buf) && Pending() == source.stream
    {
      fd, cnt, bufptr := source, 0, 0;
      buf := new char[RIO_BUFSIZE];
    }

    /** The loop at the head of rio_read. It returns a positive count, 0 at the end of the stream or
        -1 on failure. */
    method Refill() returns (r: int)
      requires Valid()
      modifies this`cnt, this`bufptr, buf, fd
      ensures Valid() && Pending() == old(Pending())
      ensures r == -1 ==> Failed in old(fd.script)
      ensures r == 0 ==> Pending() == ""
      ensures r > 0 ==> r == cnt && buf[bufptr..bufptr + cnt] <= Pending()
      ensures r >= -1 && Later(fd.script, old(fd.script))
    {
      while cnt <= 0
        invariant Valid() && Pending() == old(Pending())
        invariant Later(fd.script, old(fd.script))
        decreases cnt <= 0, |fd.script|
      {
        ghost var before := fd.script;
        cnt := fd.Read(buf, 0, buf.Length);
        if cnt < 0 {
          if !fd.interrupted {
            assert before[0] == Failed;
            return -1;
          }
        } else if cnt == 0 {
          return 0;
        } else {
          bufptr := 0;
        }
      }
      r := cnt;
    }

    /** rio_read. */
    method Read(usr: array<char>, at: nat, n: nat) returns (r: int)
      requires Valid() && at + n <= usr.Length && usr != buf
      modifies this`cnt, this`bufptr, buf, fd, usr
      ensures Valid() && -1 <= r <= n && r <= |old(Pending())|
      ensures r == -1 ==> Failed in old(fd.script) && Pending() == old(Pending())
      ensures n > 0 && r >= 0 ==> (r == 0 <==> old(Pending()) == "")
      ensures r >= 0 ==> usr[at..at + r] == old(Pending())[..r] && Pending() == old(Pending())[r..]
      ensures forall k | 0 <= k < usr.Length && (k < at || k >= at + n) :: usr[k] == old(usr[k])
      ensures Later(fd.script, old(fd.script))
    {
      var have := Refill();
      if have <= 0 {
        ghost var p := Pending();
        assert p[0..] == p;
        return have;
      }
      r := Take(usr, at, n);
    }

    /** The copy at the end of rio_read. */
    method Take(usr: array<char>, at: nat, n: nat) returns (r: int)
      requires Valid() && cnt > 0 && at + n <= usr.Length && usr != buf
      modifies this`cnt, this`bufptr, usr
      ensures Valid() && r == Min(n, old(cnt)) <= |old(Pending())|
      ensures usr[at..at + r] == old(Pending())[..r] && Pending() == old(Pending())[r..]
      ensures forall k | 0 <= k < usr.Length && (k < at || k >= at + n) :: usr[k] == old(usr[k])
    {
      r := n;
      if cnt < n {
        r := cnt;
      }
      ghost var p, held := Pending(), buf[bufptr..bufptr + cnt];
      CutFront(held, fd.stream, r);
      CopyOut(usr, at, r);
      assert held[..r] == buf[bufptr..bufptr + r];
      bufptr := bufptr + r;
      cnt := cnt - r;
      assert buf[bufptr..bufptr + cnt] == held[r..];
    }

    /** memcpy from the buffer. */
    method CopyOut(usr: array<char>, at: nat, r: nat)
      requires bufptr + r <= buf.Length && at + r <= usr.Length && usr != buf
      modifies usr
      ensures usr[at..at + r] == buf[bufptr..bufptr + r]
      ensures forall k | 0 <= k < usr.Length && (k < at || k >= at + r) :: usr[k] == old(usr[k])
    {
      forall k | 0 <= k < r { usr[at + k] := buf[bufptr + k]; }
      ghost var u, v := usr[at..at + r], buf[bufptr..bufptr + r];
      forall k | 0 <= k < r ensures u[k] == v[k] {
        assert usr[at + k] == buf[bufptr + k];
      }
    }

    /** rio_read of one byte. */
    method ReadChar() returns (rc: int, c: char)
      requires Valid()
      modifies this`cnt, this`bufptr, buf, fd
      ensures Valid() && (rc == -1 || rc == 0 || rc == 1)
      ensures rc == -1 ==> Failed in old(fd.script) && Pending() == old(Pending())
      ensures rc == 0 ==> old(Pending()) == "" && Pending() == ""
      ensures rc == 1 ==> old(Pending()) == [c] + Pending()
      ensures Later(fd.script, old(fd.script))
    {
      var one := new char[1];
      ghost var p := Pending();
      rc := Read(one, 0, 1);
      c := one[0];
      if rc == 1 {
        assert one[0..1] == p[..1];
        assert p == p[..1] + p[1..];
      }
    }

    /** rio_readnb: the next n bytes, or what is left if that is less. */
    method Readnb(usr: array<char>, n: nat) returns (r: int, ghost got: nat)
      requires Valid() && n <= usr.Length && usr != buf
      modifies this`cnt, this`bufptr, buf, fd, usr
      ensures Valid() && (r == -1 || r == Min(n, |old(Pending())|))
      ensures r == -1 ==> Failed in old(fd.script)
      ensures r >= 0 ==> got == r
      ensures got <= n && got <= |old(Pending())|
      ensures usr[..got] == old(Pending())[..got] && Pending() == old(Pending())[got..]
      ensures Later(fd.script, old(fd.script))
    {
      hide Pending, Valid, Taken;
      var nleft, at := n, 0;
      ghost var p := Pending();
      got := 0;
      NothingTaken(usr[..], p);
      while nleft > 0
        invariant Valid() && 0 <= nleft <= n && at == got == n - nleft
        invariant Taken(usr[..], p, got, Pending())
        invariant Later(fd.script, old(fd.script))
        decreases nleft
      {
        ghost var before, pending := usr[..], Pending();
        var nread := Read(usr, at, nleft);
        assert pending[0..] == pending;
        TakenMore(before, usr[..], p, got, pending, Max(nread, 0), Pending());
        if nread < 0 {
          TakenMeans(usr[..], p, got, Pending());
          return -1, got;
        } else if nread == 0 {
          break;
        }
        nleft := nleft - nread;
        at := at + nread;
        got := got + nread;
      }
      TakenMeans(usr[..], p, got, Pending());
      r := n - nleft;
    }

    /** The loop of rio_readlineb. It ends with status 1, or with 0 at the end of the stream before
        any byte, or with -1 on failure. */
    method GatherLine(usr: array<char>, maxlen: nat) returns (status: int, n: nat, ghost got: nat)
      requires Valid() && maxlen <= usr.Length && usr.Length > 0 && usr != buf
      modifies this`cnt, this`bufptr, buf, fd, usr
      ensures Valid() && (status == -1 || status == 0 || status == 1)
      ensures got <= usr.Length && got <= |old(Pending())|
      ensures usr[..got] == old(Pending())[..got] && Pending() == old(Pending())[got..]
      ensures Later(fd.script, old(fd.script))
      ensures status == -1 ==> Failed in old(fd.script)
      ensures got <= maxlen && got <= LineLength(old(Pending()), maxlen - 1)
      ensures status >= 0 ==> (status == 0 <==> old(Pending()) == "" && maxlen > 1)
      ensures status == 0 ==> got == 0 && usr[..] == old(usr[..])
      ensures status == 1 ==> n == got + 1 <= Max(maxlen, 1) && got == LineLength(old(Pending()), maxlen - 1)
    {
      hide LineLength, OnLine, Pending;
      n, got := 1, 0;
      ghost var p := Pending();
      OnLineStart(usr[..], p);
      while n < maxlen
        invariant Valid() && 1 <= n <= Max(maxlen, 1) && got == n - 1
        invariant OnLine(usr[..], p, got, Pending()) && (n == 1 ==> usr[..] == old(usr[..]))
        invariant Later(fd.script, old(fd.script))
      {
        ghost var pending, before := Pending(), usr[..];
        var rc, c := ReadChar();
        if rc == 1 {
          PutChar(usr, n - 1, c);
          OnLineMore(before, usr[..], p, got, c, pending, Pending());
          got := n;
          if c == '\n' {
            LineEnds(p, maxlen - 1, got);
            return 1, n + 1, got;
          }
        } else if rc == 0 {
          OnLineMeans(usr[..], p, got, pending);
          LineEnds(p, maxlen - 1, got);
          return if n == 1 then 0 else 1, n, got;
        } else {
          OnLineMeans(usr[..], p, got, pending);
          LineGoesOn(p, maxlen - 1, got);
          return -1, n, got;
        }
        n := n + 1;
      }
      OnLineMeans(usr[..], p, got, Pending());
      LineEnds(p, maxlen - 1, got);
      status := 1;
    }

    /** One char of the user's buffer is stored; the descriptor's own buffer is another one. */
    method PutChar(usr: array<char>, k: nat, c: char)
      requires Valid() && k < usr.Length && usr != buf
      modifies usr
      ensures usr[..k] == old(usr[..k]) && usr[k] == c && usr[..k + 1] == old(usr[..k]) + [c]
      ensures Valid() && Pending() == old(Pending())
    {
      usr[k] := c;
    }

    /** rio_readlineb: the bytes through the next newline, at most maxlen - 1 of them, and a
        terminator, except that at the end of the stream nothing is written. */
    method Readlineb(usr: array<char>, maxlen: nat) returns (r: int, ghost got: nat)
      requires Valid() && maxlen <= usr.Length && usr.Length > 0 && usr != buf
      modifies this`cnt, this`bufptr, buf, fd, usr
      ensures Valid() && (r == -1 || r == LineLength(old(Pending()), maxlen - 1))
      ensures r == -1 ==> Failed in old(fd.script)
      ensures r >= 0 ==> got == r && (usr[r] == '\0' || (r == 0 && old(Pending()) == ""))
      ensures r == 0 && old(Pending()) == "" && maxlen > 1 ==> usr[..] == old(usr[..])
      ensures got <= maxlen && got <= LineLength(old(Pending()), maxlen - 1)
      ensures usr[..got] == old(Pending())[..got] && Pending() == old(Pending())[got..]
      ensures Later(fd.script, old(fd.script))
    {
      var status, n;
      status, n, got := GatherLine(usr, maxlen);
      if status <= 0 {
        return status, got;
      }
      PutChar(usr, n - 1, '\0');
      r := n - 1;
    }
  }

  predicate Suits(q: Request, usr: array<char>) {
    match q
    case Bytes(n) => n <= usr.Length
    case Line(maxlen) => maxlen <= usr.Length && 0 < usr.Length
  }

  /** One call of rio_readnb or rio_readlineb. On a failure, part is what had come so far. */
  method Call(rio: Rio, usr: array<char>, q: Request) returns (ok: bool, got: string, ghost part: string)
    requires rio.Valid() && usr != rio.buf && Suits(q, usr)
    modifies rio`cnt, rio`bufptr, rio.buf, rio.fd, usr
    ensures rio.Valid() && Later(rio.fd.script, old(rio.fd.script))
    ensures ok ==> got == old(rio.Pending())[..Served(q, old(rio.Pending()))]
    ensures ok ==> rio.Pending() == old(rio.Pending())[Served(q, old(rio.Pending()))..] && part == ""
    ensures !ok ==> Failed in old(rio.fd.script) && part + rio.Pending() == old(rio.Pending())
    ensures !ok ==> part <= old(rio.Pending())[..Served(q, old(rio.Pending()))]
  {
    ghost var p := rio.Pending();
    var r: int;
    ghost var n: nat;
    match q {
      case Bytes(k) => r, n := rio.Readnb(usr, k);
      case Line(maxlen) => r, n := rio.Readlineb(usr, maxlen);
    }
    ok := r >= 0;
    got := if ok then usr[..r] else "";
    part := if ok then "" else p[..n];
    Prefix(p, n, Served(q, p));
  }

  lemma Prefix(p: string, n: nat, k: nat)
    requires n <= k <= |p|
    ensures p[..n] <= p[..k] && p[..n] + p[n..] == p
  {
  }

  /** Any mix of byte and line requests on one descriptor, until one fails: however the operating
      system cuts the stream, each delivers what it is due, in order, and no byte is lost or
      repeated, on a failure no more than otherwise. */
  method ServeMix(rio: Rio, usr: array<char>, qs: seq<Request>) returns (ok: bool, out: seq<string>, ghost part: string)
    requires rio.Valid() && usr != rio.buf && forall q | q in qs :: Suits(q, usr)
    modifies rio`cnt, rio`bufptr, rio.buf, rio.fd, usr
    ensures rio.Valid()
    ensures ok ==> out == Delivered(qs, old(rio.Pending())) && part == ""
    ensures ok ==> rio.Pending() == Left(qs, old(rio.Pending()))
    ensures !ok ==> Failed in old(rio.fd.script) && |out| < |qs|
    ensures !ok ==> out == Delivered(qs, old(rio.Pending()))[..|out|]
    ensures !ok ==> part <= Delivered(qs, old(rio.Pending()))[|out|]
    ensures Concat(out) + part + rio.Pending() == old(rio.Pending())
  {
    ghost var p := rio.Pending();
    out, part := [], "";
    while |out| < |qs|
      invariant |out| <= |qs| && rio.Valid() && Later(rio.fd.script, old(rio.fd.script))
      invariant InStep(qs, p, out, rio.Pending())
    {
      hide InStep, Served, Concat;
      ghost var here := rio.Pending();
      var got;
      ok, got, part := Call(rio, usr, qs[|out|]);
      if !ok {
        MixStops(qs, p, out, here, part, rio.Pending());
        return;
      }
      MixGoesOn(qs, p, out, here, got);
      out := out + [got];
    }
    MixEnds(qs, p, out, rio.Pending());
    ok, part := true, "";
  }

  /** The first requests are served, and the rest would be served from what is pending. */
  ghost predicate InStep(qs: seq<Request>, p: string, out: seq<string>, pending: string) {
    && |out| <= |qs|
    && out + Delivered(qs[|out|..], pending) == Delivered(qs, p)
    && Left(qs[|out|..], pending) == Left(qs, p)
    && Concat(out) + pending == p
  }

  lemma {:induction false} ConcatMore(ss: seq<string>, s: string)
    ensures Concat(ss + [s]) == Concat(ss) + s
  {
    if ss == [] {
      assert [s][1..] == [];
      assert "" + s == s && s + "" == s;
    } else {
      ConcatMore(ss[1..], s);
      assert (ss + [s])[1..] == ss[1..] + [s];
      assert ss[0] + (Concat(ss[1..]) + s) == (ss[0] + Concat(ss[1..])) + s;
    }
  }

  lemma MixGoesOn(qs: seq<Request>, p: string, out: seq<string>, here: string, got: string)
    requires InStep(qs, p, out, here) && |out| < |qs|
    requires got == here[..Served(qs[|out|], here)]
    ensures InStep(qs, p, out + [got], here[Served(qs[|out|], here)..])
  {
    hide Served;
    var rest, k := qs[|out|..], Served(qs[|out|], here);
    assert rest[0] == qs[|out|] && rest[1..] == qs[|out| + 1..];
    var d := Delivered(rest[1..], here[k..]);
    assert out + ([got] + d) == (out + [got]) + d;
    ConcatMore(out, got);
    assert here == got + here[k..];
    assert Concat(out) + (got + here[k..]) == (Concat(out) + got) + here[k..];
  }

  lemma MixStops(qs: seq<Request>, p: string, out: seq<string>, here: string, part: string, pending: string)
    requires InStep(qs, p, out, here) && |out| < |qs|
    requires part + pending == here && part <= here[..Served(qs[|out|], here)]
    ensures out == Delivered(qs, p)[..|out|] && part <= Delivered(qs, p)[|out|]
    ensures Concat(out) + part + pending == p
  {
    hide Served;
    var rest := qs[|out|..];
    assert Delivered(rest, here)[0] == here[..Served(qs[|out|], here)];
    assert Delivered(qs, p)[|out|] == Delivered(rest, here)[0];
    assert Concat(out) + (part + pending) == (Concat(out) + part) + pending;
  }

  lemma MixEnds(qs: seq<Request>, p: string, out: seq<string>, pending: string)
    requires InStep(qs, p, out, pending) && |out| == |qs|
    ensures out == Delivered(qs, p) && pending == Left(qs, p) && Concat(out) + "" + pending == p
  {
    assert qs[|out|..] == [];
    assert out + [] == out && Concat(out) + "" == Concat(out);
  }
}
