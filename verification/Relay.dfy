/** The copy loop of do_request (proxy.c): the server's response goes to the client line by line
    and, if it is small enough, into a buffer for the object cache. */
module Relay {
  import opened Descriptors
  import opened RioPackage

  const MAXLINE := 8192
  const MAX_OBJECT_SIZE := 102400

  ghost predicate Splits(s: string, front: string, back: string) { s == front + back }

  lemma SplitsOn(s: string, a: string, mid: string, b: string, c: string)
    requires Splits(s, a, mid) && Splits(mid, b, c)
    ensures Splits(s, a + b, c)
  {
    assert a + (b + c) == (a + b) + c;
  }

  lemma SplitsMore(s: string, s': string, a: string, b: string, c: string)
    requires Splits(s, a, b) && Splits(s', s, c)
    ensures Splits(s', a, b + c)
  {
    assert a + (b + c) == (a + b) + c;
  }

  /** What has been sent is n bytes, and they are in the buffer if they fit. */
  ghost predicate Relayed(sent: string, cache: seq<char>, n: nat) {
    |sent| == n && (n < MAX_OBJECT_SIZE ==> n <= |cache| && cache[..n] == sent)
  }

  /** What one round of the loop takes from the response. */
  function NextPiece(pending: string): string {
    pending[..LineLength(pending, MAXLINE - 1)]
  }

  /** The buffer has room for n bytes, if they are to be copied at all. */
  predicate Holds(cache: seq<char>, n: nat) {
    n < MAX_OBJECT_SIZE ==> n <= |cache|
  }

  /** The buffer after a round: a piece that would fill it is not kept. */
  function Kept(cache: seq<char>, n: nat, piece: string): seq<char>
    requires Holds(cache, n + |piece|)
  {
    if n + |piece| < MAX_OBJECT_SIZE then cache[..n] + piece + cache[n + |piece|..] else cache
  }

  lemma KeptRelayed(sent: string, cache: seq<char>, n: nat, piece: string)
    requires Relayed(sent, cache, n) && |cache| == MAX_OBJECT_SIZE
    ensures Relayed(sent + piece, Kept(cache, n, piece), n + |piece|)
    ensures |Kept(cache, n, piece)| == MAX_OBJECT_SIZE
  {
    var c, m := Kept(cache, n, piece), n + |piece|;
    if m < MAX_OBJECT_SIZE {
      assert c[..m] == cache[..n] + piece;
    }
  }

  /** The operating system has a failure in store, or a write that accepts nothing. */
  ghost predicate MayFail(input: seq<Answer>, output: seq<Answer>) {
    Failed in input || Failed in output || Count(0) in output
  }

  lemma FailsLater(input: seq<Answer>, input': seq<Answer>, output: seq<Answer>, output': seq<Answer>)
    requires MayFail(input, output) && Later(input, input') && Later(output, output')
    ensures MayFail(input', output')
  {
  }

  lemma LaterStill(a: seq<Answer>, b: seq<Answer>, c: seq<Answer>)
    requires Later(a, b) && Later(b, c)
    ensures Later(a, c)
  {
  }

  method CopyPiece(usr: array<char>, cache: array<char>, at: nat, n: nat)
    requires n <= usr.Length && at + n <= cache.Length && usr != cache
    modifies cache
    ensures cache[..] == old(cache[..at]) + usr[..n] + old(cache[at + n..])
  {
    forall k | 0 <= k < n { cache[at + k] := usr[k]; }
  }

  /** It returns whether all transfers succeeded, since a failed one ends the process, and whether
      the object goes to the cache, with its size. The client gets the whole response, and the
      object is added exactly if the response is shorter than MAX_OBJECT_SIZE; the buffer then
      holds all of it. */
  method CopyResponse(server: Rio, client: Sink, usr: array<char>, cache: array<char>)
    returns (ok: bool, added: bool, cacheN: nat)
    requires server.Valid() && usr.Length == MAXLINE && cache.Length == MAX_OBJECT_SIZE
    requires usr != server.buf && cache != server.buf && usr != cache
    modifies server`cnt, server`bufptr, server.buf, server.fd, client, usr, cache
    ensures server.Valid()
    ensures ok ==> client.written == old(client.written) + old(server.Pending()) && server.Pending() == ""
    ensures ok ==> cacheN == |old(server.Pending())| && (added <==> cacheN < MAX_OBJECT_SIZE)
    ensures ok && added ==> cache[..cacheN] == old(server.Pending())
    ensures !ok ==> !added && MayFail(old(server.fd.script), old(client.script))
  {
    ghost var response, sent := server.Pending(), "";
    cacheN := 0;
    var n := 1;
    while n != 0
      invariant server.Valid() && Relayed(sent, cache[..], cacheN) && (n == 0 ==> server.Pending() == "")
      invariant Splits(response, sent, server.Pending()) && Splits(client.written, old(client.written), sent)
      invariant Later(server.fd.script, old(server.fd.script)) && Later(client.script, old(client.script))
      decreases n != 0, |server.Pending()|
    {
      hide *;
      ghost var line;
      ghost var input, output := server.fd.script, client.script;
      ghost var p, written := server.Pending(), client.written;
      n, line := CopyLine(server, client, usr, cache, cacheN, sent);
      if n < 0 {
        FailsLater(input, old(server.fd.script), output, old(client.script));
        return false, false, cacheN;
      }
      SplitsOn(response, sent, p, line, server.Pending());
      SplitsMore(written, client.written, old(client.written), sent, line);
      sent := sent + line;
      LaterStill(server.fd.script, input, old(server.fd.script));
      LaterStill(client.script, output, old(client.script));
      cacheN := cacheN + n;
    }
    ok, added := true, cacheN < MAX_OBJECT_SIZE;
  }

  /** Rio_readlineb, of a buffer's length. */
  method NextLine(server: Rio, usr: array<char>) returns (n: int)
    requires server.Valid() && usr.Length == MAXLINE && usr != server.buf
    modifies server`cnt, server`bufptr, server.buf, server.fd, usr
    ensures server.Valid() && -1 <= n <= MAXLINE
    ensures n >= 0 ==> old(server.Pending()) == usr[..n] + server.Pending()
    ensures n >= 0 ==> usr[..n] == NextPiece(old(server.Pending()))
    ensures n == 0 ==> server.Pending() == ""
    ensures n < 0 ==> Failed in old(server.fd.script)
    ensures Later(server.fd.script, old(server.fd.script))
  {
    ghost var p := server.Pending();
    var r, _ := server.Readlineb(usr, MAXLINE);
    n := r;
    EmptyLineMeansEnd(p, MAXLINE);
  }

  /** One round: a line is read, kept for the cache unless that would fill the buffer, and sent. */
  method CopyLine(server: Rio, client: Sink, usr: array<char>, cache: array<char>, cacheN: nat, ghost sent: string)
    returns (n: int, ghost line: string)
    requires server.Valid() && usr.Length == MAXLINE && cache.Length == MAX_OBJECT_SIZE
    requires usr != server.buf && cache != server.buf && usr != cache
    requires Relayed(sent, cache[..], cacheN)
    modifies server`cnt, server`bufptr, server.buf, server.fd, client, usr, cache
    ensures server.Valid()
    ensures n < 0 ==> MayFail(old(server.fd.script), old(client.script))
    ensures n >= 0 ==> |line| == n && Splits(old(server.Pending()), line, server.Pending())
    ensures n >= 0 ==> Splits(client.written, old(client.written), line) && Relayed(sent + line, cache[..], cacheN + n)
    ensures n == 0 ==> server.Pending() == ""
    ensures n >= 0 ==> line == NextPiece(old(server.Pending())) && cache[..] == Kept(old(cache[..]), cacheN, line)
    ensures Later(server.fd.script, old(server.fd.script)) && Later(client.script, old(client.script))
  {
    hide Relayed, NextPiece, LineLength;
    line := "";
    n := NextLine(server, usr);
    if n >= 0 {
      line := usr[..n];
      KeptRelayed(sent, cache[..], cacheN, line);
      if cacheN + n < MAX_OBJECT_SIZE {
        CopyPiece(usr, cache, cacheN, n);
      }
      var r, _ := Writen(client, usr, n);
      if r != n { n := -1; }
    }
  }
}
