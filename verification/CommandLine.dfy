/** The command-line parser of the tiny shell (tsh.c): parseline cuts a line in place into an
    argument vector, and undoes printing. */
module CommandLine {

  const MAXLINE := 1024
  const NULL := -1

  // ----- What the words of a line are -----

  function LeadingSpaces(s: string): (k: nat)
    ensures k <= |s| && (forall j | 0 <= j < k :: s[j] == ' ') && (k < |s| ==> s[k] != ' ')
  {
    if s != "" && s[0] == ' ' then 1 + LeadingSpaces(s[1..]) else 0
  }

  /** The position of the first c, or |s|. */
  function Find(s: string, c: char): (k: nat)
    ensures k <= |s| && (forall j | 0 <= j < k :: s[j] != c) && (k < |s| ==> s[k] == c)
  {
    if s == "" || s[0] == c then 0 else 1 + Find(s[1..], c)
  }

  /** Where the next word begins and where its delimiter is. */
  datatype Cut = NoWord | Word(start: nat, end: nat)

  function NextCut(s: string): (w: Cut)
    ensures w.Word? ==> w.start <= w.end < |s|
  {
    var k := LeadingSpaces(s);
    var quoted := k < |s| && s[k] == '\'';
    var start := if quoted then k + 1 else k;
    var d := Find(s[start..], if quoted then '\'' else ' ');
    if start + d < |s| then Word(start, start + d) else NoWord
  }

  function Words(s: string): seq<string>
    decreases |s|
  {
    match NextCut(s)
    case NoWord => []
    case Word(start, end) => [s[start..end]] + Words(s[end + 1..])
  }

  /** The line as parseline sees it, with a space for its last character. */
  function Terminated(line: string): (s: string)
    requires line != ""
    ensures |s| == |line|
  {
    line[..|line| - 1] + " "
  }

  predicate Background(words: seq<string>) {
    words != [] && words[|words| - 1] != "" && words[|words| - 1][0] == '&'
  }

  // ----- Printing -----

  /** A word to print, bare or between quotes, and how many spaces follow it: none are needed after
      a closing quote. */
  datatype Item = Item(text: string, quoted: bool, gap: nat)

  predicate Printable(it: Item) {
    && (it.quoted || it.gap > 0)
    && if it.quoted then '\'' !in it.text else it.text != "" && ' ' !in it.text && it.text[0] != '\''
  }

  function Spaces(k: nat): (s: string)
    ensures |s| == k && forall j | 0 <= j < k :: s[j] == ' '
  {
    seq(k, _ => ' ')
  }

  function Shown(it: Item): string {
    if it.quoted then "'" + it.text + "'" else it.text
  }

  function Body(items: seq<Item>): string {
    if items == [] then "" else Shown(items[0]) + Spaces(items[0].gap) + Body(items[1..])
  }

  function Texts(items: seq<Item>): (r: seq<string>)
    ensures |r| == |items| && forall k | 0 <= k < |items| :: r[k] == items[k].text
  {
    seq(|items|, k requires 0 <= k < |items| => items[k].text)
  }

  /** What may stand behind the last word: nothing, or a quote that is never closed. */
  predicate Unclosed(tail: string) {
    tail == "" || (tail[0] == '\'' && '\'' !in tail[1..])
  }

  /** A printed line: leading spaces, the items with the gaps after them, possibly a quote that is never
      closed, and a newline instead of the last space. */
  ghost predicate Prints(line: string, lead: nat, items: seq<Item>, tail: string) {
    && (forall k | 0 <= k < |items| :: Printable(items[k])) && Unclosed(tail)
    && exists p: string :: line == p + "\n" && p + " " == Spaces(lead) + (Body(items) + tail)
  }

  /** Every list of items can be printed: there only must be a last space to replace. */
  lemma PrintExists(lead: nat, items: seq<Item>) returns (line: string)
    requires forall k | 0 <= k < |items| :: Printable(items[k])
    requires if items == [] then lead > 0 else items[|items| - 1].gap > 0
    ensures Prints(line, lead, items, "")
  {
    var s := Spaces(lead) + (Body(items) + "");
    if items != [] { BodyEnds(items); }
    var p := s[..|s| - 1];
    assert p + " " == s;
    line := p + "\n";
  }

  lemma {:induction false} BodyEnds(items: seq<Item>)
    requires items != [] && items[|items| - 1].gap > 0 && forall k | 0 <= k < |items| :: Printable(items[k])
    ensures Body(items) != "" && Body(items)[|Body(items)| - 1] == ' '
  {
    if |items| > 1 {
      BodyEnds(items[1..]);
    }
  }

  lemma PrintTerminated(line: string, lead: nat, items: seq<Item>, tail: string)
    requires Prints(line, lead, items, tail)
    ensures line != "" && Terminated(line) == Spaces(lead) + (Body(items) + tail)
  {
    var p: string :| line == p + "\n" && p + " " == Spaces(lead) + (Body(items) + tail);
    assert line[..|line| - 1] == p;
  }

  lemma FindIs(s: string, c: char, k: nat)
    requires k <= |s| && (k < |s| ==> s[k] == c) && forall j | 0 <= j < k :: s[j] != c
    ensures Find(s, c) == k
  {
    var f := Find(s, c);
    assert f >= k;
  }

  lemma LeadingIs(s: string, k: nat)
    requires k <= |s| && (k < |s| ==> s[k] != ' ') && forall j | 0 <= j < k :: s[j] == ' '
    ensures LeadingSpaces(s) == k
  {
    var f := LeadingSpaces(s);
    assert f >= k;
  }

  function Delimiter(it: Item): char { if it.quoted then '\'' else ' ' }

  /** What stands before the text of an item, with lead spaces in front. */
  function Opening(lead: nat, it: Item): string { if it.quoted then Spaces(lead) + "'" else Spaces(lead) }

  /** What follows the delimiter of an item. */
  function Closing(it: Item, rest: string): string
    requires Printable(it)
  {
    Spaces(if it.quoted then it.gap else it.gap - 1) + rest
  }

  lemma CutAfterSpaces(lead: nat, it: Item, rest: string)
    requires Printable(it)
    ensures var s := Spaces(lead) + (Shown(it) + Spaces(it.gap) + rest);
      var w := NextCut(s);
      w.Word? && s[w.start..w.end] == it.text && s[w.end + 1..] == Closing(it, rest)
  {
    hide Find, LeadingSpaces, Closing;
    ShownStarts(lead, it, rest);
    Arranged(lead, it, rest);
    FoundAt(Opening(lead, it), it.text, Delimiter(it), Closing(it, rest));
  }

  lemma ShownStarts(lead: nat, it: Item, rest: string)
    requires Printable(it)
    ensures var s := Spaces(lead) + (Shown(it) + Spaces(it.gap) + rest);
      lead < |s| && LeadingSpaces(s) == lead && s[lead] == Shown(it)[0]
  {
    hide LeadingSpaces;
    var s := Spaces(lead) + (Shown(it) + Spaces(it.gap) + rest);
    assert s[lead] == Shown(it)[0];
    LeadingIs(s, lead);
  }

  lemma FoundAt(front: string, text: string, c: char, tail: string)
    requires c !in text
    ensures var s := front + (text + [c] + tail);
      && Find(s[|front|..], c) == |text|
      && s[|front|..|front| + |text|] == text && s[|front| + |text| + 1..] == tail
  {
    hide Find;
    Parts(front, text, c, tail);
    var u := (front + (text + [c] + tail))[|front|..];
    assert forall j | 0 <= j < |text| :: u[j] == u[..|text|][j] == text[j];
    FindIs(u, c, |text|);
  }

  lemma Arranged(lead: nat, it: Item, rest: string)
    requires Printable(it)
    ensures Spaces(lead) + (Shown(it) + Spaces(it.gap) + rest)
         == Opening(lead, it) + (it.text + [Delimiter(it)] + Closing(it, rest))
  {
    hide Spaces, Shown;
    ShownSplits(it, Delimiter(it), rest);
    Front(Spaces(lead), it.quoted, it.text + [Delimiter(it)] + Closing(it, rest));
  }

  lemma Front(lead: string, quoted: bool, core: string)
    ensures lead + ((if quoted then "'" else "") + core) == (if quoted then lead + "'" else lead) + core
  {
  }

  /** A printed item is its text with a quote in front or not, its delimiter, and what follows. */
  lemma ShownSplits(it: Item, c: char, rest: string)
    requires Printable(it) && c == if it.quoted then '\'' else ' '
    ensures Shown(it) + Spaces(it.gap) + rest == (if it.quoted then "'" else "") + (it.text + [c] + Closing(it, rest))
  {
    if !it.quoted {
      assert Spaces(it.gap) == [' '] + Spaces(it.gap - 1);
    }
  }

  lemma Parts(front: string, text: string, c: char, tail: string)
    ensures var s := front + (text + [c] + tail);
      var u := s[|front|..];
      && u == text + [c] + tail && u[..|text|] == text && u[|text|] == c
      && s[|front|..|front| + |text|] == text && s[|front| + |text| + 1..] == tail
  {
    var s := front + (text + [c] + tail);
    assert s[|front|..] == text + [c] + tail;
    assert s[|front|..|front| + |text|] == s[|front|..][..|text|];
  }

  lemma NoWordLeft(k: nat, tail: string)
    requires Unclosed(tail)
    ensures Words(Spaces(k) + tail) == []
  {
    var s := Spaces(k) + tail;
    LeadingIs(s, k);
    assert s[k..] == tail;
    if tail != "" {
      assert s[k + 1..] == tail[1..];
      FindIs(tail[1..], '\'', |tail| - 1);
    } else {
      FindIs("", ' ', 0);
    }
  }

  lemma {:induction false} WordsOfPrint(lead: nat, items: seq<Item>, tail: string)
    requires Unclosed(tail) && forall k | 0 <= k < |items| :: Printable(items[k])
    ensures Words(Spaces(lead) + (Body(items) + tail)) == Texts(items)
    decreases |items|
  {
    hide NextCut, Shown, Spaces, Words;
    if items == [] {
      assert Body(items) + tail == tail;
      NoWordLeft(lead, tail);
    } else {
      var it := items[0];
      var rest := Body(items[1..]) + tail;
      assert Body(items) + tail == Shown(it) + Spaces(it.gap) + rest;
      CutAfterSpaces(lead, it, rest);
      WordsStep(Spaces(lead) + (Body(items) + tail));
      WordsOfPrint(if it.quoted then it.gap else it.gap - 1, items[1..], tail);
      assert Texts(items) == [it.text] + Texts(items[1..]);
    }
  }

  /** Parsing undoes printing. */
  lemma ParseUndoesPrint(line: string, lead: nat, items: seq<Item>, tail: string)
    requires Prints(line, lead, items, tail)
    ensures line != "" && Words(Terminated(line)) == Texts(items)
  {
    PrintTerminated(line, lead, items, tail);
    WordsOfPrint(lead, items, tail);
  }

  // ----- The parser -----

  /** The C string at offset at. */
  function CString(a: seq<char>, at: int): string
    requires 0 <= at
    decreases |a| - at
  {
    if at >= |a| || a[at] == '\0' then "" else [a[at]] + CString(a, at + 1)
  }

  function Strings(a: seq<char>, argv: seq<int>): (r: seq<string>)
    requires forall k | 0 <= k < |argv| :: 0 <= argv[k]
    ensures |r| == |argv|
  {
    seq(|argv|, k requires 0 <= k < |argv| => CString(a, argv[k]))
  }

  lemma {:induction false} CStringIs(a: seq<char>, at: nat, end: nat)
    requires at <= end <= |a| && (end < |a| ==> a[end] == '\0') && forall k | at <= k < end :: a[k] != '\0'
    ensures CString(a, at) == a[at..end]
    decreases end - at
  {
    if at < end {
      CStringIs(a, at + 1, end);
      assert a[at..end] == [a[at]] + a[at + 1..end];
    }
  }

  /** A C string does not see what is behind its end. */
  lemma {:induction false} CStringKept(a: seq<char>, b: seq<char>, at: nat, last: nat)
    requires at <= last < |a| && last < |b| && a[last] == '\0' && a[..last + 1] == b[..last + 1]
    ensures CString(b, at) == CString(a, at)
    decreases last - at
  {
    assert a[at] == a[..last + 1][at] == b[at];
    if at < last && a[at] != '\0' {
      CStringKept(a, b, at + 1, last);
    }
  }

  /** A text with its terminator, as it lies in the buffer from position at on. */
  ghost predicate Holds(a: seq<char>, at: nat, s: string) {
    && at + |s| < |a| && a[at + |s|] == '\0' && '\0' !in s
    && a[at..at + |s|] == s
  }

  /** Moves past the spaces at a position. */
  method SkipSpaces(a: array<char>, at: nat, ghost s: string) returns (buf: nat)
    requires Holds(a[..], at, s)
    ensures buf == at + LeadingSpaces(s)
  {
    buf := at;
    while a[buf] != '\0' && a[buf] == ' '
      invariant at <= buf <= at + |s| && forall j | 0 <= j < buf - at :: s[j] == ' '
      decreases at + |s| - buf
    {
      assert a[buf] == s[buf - at];
      buf := buf + 1;
    }
    assert buf < at + |s| ==> a[buf] == s[buf - at];
    LeadingIs(s, buf - at);
  }

  /** strchr. */
  method StrChr(a: array<char>, from: nat, c: char, ghost s: string) returns (pos: int)
    requires Holds(a[..], from, s) && c != '\0'
    ensures pos == if Find(s, c) < |s| then from + Find(s, c) else NULL
  {
    pos := from;
    while a[pos] != '\0' && a[pos] != c
      invariant from <= pos <= from + |s| && forall j | 0 <= j < pos - from :: s[j] != c
      decreases from + |s| - pos
    {
      assert a[pos] == s[pos - from];
      pos := pos + 1;
    }
    assert pos < from + |s| ==> a[pos] == s[pos - from];
    FindIs(s, c, pos - from);
    if a[pos] == '\0' {
      pos := NULL;
    }
  }

  /** The spaces are skipped, and the delimiter of the next word is looked for. */
  method NextWord(a: array<char>, at: nat, ghost s: string) returns (buf: nat, delim: int)
    requires Holds(a[..], at, s)
    ensures match NextCut(s)
            case NoWord => delim == NULL
            case Word(start, end) => buf == at + start && delim == at + end
    ensures at <= buf <= at + |s|
  {
    buf := SkipSpaces(a, at, s);
    ghost var k := LeadingSpaces(s);
    assert buf < at + |s| ==> a[buf] == s[k];
    if a[buf] == '\'' {
      buf := buf + 1;
      HoldsFrom(a[..], at, s, k + 1);
      delim := StrChr(a, buf, '\'', s[k + 1..]);
    } else {
      HoldsFrom(a[..], at, s, k);
      delim := StrChr(a, buf, ' ', s[k..]);
    }
  }

  lemma HoldsFrom(a: seq<char>, at: nat, s: string, k: nat)
    requires Holds(a, at, s) && k <= |s|
    ensures Holds(a, at + k, s[k..])
  {
    assert a[at + k..at + |s|] == a[at..at + |s|][k..];
  }

  /** The arguments found so far: they end before position before. */
  ghost predicate Gathered(a: seq<char>, argv: seq<int>, before: nat, words: seq<string>) {
    && (forall k | 0 <= k < |argv| :: 0 <= argv[k] < before) && before <= |a|
    && (argv != [] ==> before > 0 && a[before - 1] == '\0')
    && Strings(a, argv) == words
  }

  lemma GatherOne(a: seq<char>, b: seq<char>, argv: seq<int>, before: nat, words: seq<string>, buf: nat, delim: nat)
    requires Gathered(a, argv, before, words) && before <= buf <= delim < |a| && b == a[delim := '\0']
    requires forall k | buf <= k < delim :: a[k] != '\0'
    ensures Gathered(b, argv + [buf], delim + 1, words + [a[buf..delim]])
  {
    CStringIs(b, buf, delim);
    assert b[buf..delim] == a[buf..delim];
    forall k | 0 <= k < |argv| ensures CString(b, argv[k]) == words[k] {
      assert a[..before] == b[..before];
      assert Strings(a, argv)[k] == CString(a, argv[k]);
      CStringKept(a, b, argv[k], before - 1);
    }
  }

  /** The word that starts at buf becomes the next argument, and its delimiter its end. */
  method AddArgument(a: array<char>, argv: array<int>, argc: nat, buf: nat, delim: nat,
                     ghost before: nat, ghost words: seq<string>)
    requires argc < argv.Length && before <= buf <= delim < a.Length
    requires Gathered(a[..], argv[..argc], before, words)
    requires forall k | buf <= k < delim :: a[k] != '\0'
    modifies a, argv
    ensures a[..] == old(a[..])[delim := '\0']
    ensures Gathered(a[..], argv[..argc + 1], delim + 1, words + [old(a[buf..delim])])
  {
    GatherOne(a[..], a[..][delim := '\0'], argv[..argc], before, words, buf, delim);
    argv[argc] := buf;
    assert argv[..argc + 1] == old(argv[..argc]) + [buf];
    a[delim] := '\0';
    assert old(a[..])[buf..delim] == old(a[buf..delim]);
  }

  lemma Slice(a: seq<char>, x: nat, y: nat, i: nat, j: nat)
    requires x <= y <= |a| && i <= j <= y - x
    ensures a[x..y][i..j] == a[x + i..x + j]
  {
    var u, v := a[x..y][i..j], a[x + i..x + j];
    assert forall k | 0 <= k < j - i :: u[k] == a[x..y][i + k] == a[x + i + k] == v[k];
  }

  /** Once a word is cut off, the rest of the line still lies behind it. */
  lemma CutOff(a: seq<char>, at: nat, s: string)
    requires Holds(a, at, s) && NextCut(s).Word?
    ensures var w := NextCut(s);
      && a[at + w.start..at + w.end] == s[w.start..w.end]
      && (forall k | at + w.start <= k < at + w.end :: a[k] != '\0')
      && Holds(a[at + w.end := '\0'], at + w.end + 1, s[w.end + 1..])
  {
    hide NextCut;
    var w := NextCut(s);
    var i, j := w.start, w.end;
    Slice(a, at, at + |s|, i, j);
    forall k | at + i <= k < at + j ensures a[k] != '\0' {
      assert a[k] == s[k - at];
    }
    HoldsFrom(a, at, s, j + 1);
    assert a[at + j := '\0'][at + j + 1..at + |s|] == a[at + j + 1..at + |s|];
  }

  /** Where the loop of parseline stands: the words before position before are gathered, and buf and
      delim are those of the next one. */
  ghost predicate Parsing(a: seq<char>, argv: seq<int>, line: string, before: nat, words: seq<string>,
                          buf: nat, delim: int) {
    && before <= |line| && |argv| <= before && Holds(a, before, line[before..])
    && Gathered(a, argv, before, words) && Words(line) == words + Words(line[before..])
    && match NextCut(line[before..])
       case NoWord => delim == NULL
       case Word(start, end) => buf == before + start && delim == before + end
  }

  lemma ParsingStart(a: seq<char>, line: string, buf: nat, delim: int)
    requires Holds(a, 0, line)
    requires match NextCut(line) case NoWord => delim == NULL case Word(start, end) => buf == start && delim == end
    ensures Parsing(a, [], line, 0, [], buf, delim)
  {
    assert line[0..] == line;
  }

  /** One word more. */
  lemma ParsingStep(a: seq<char>, argv: seq<int>, line: string, before: nat, words: seq<string>, buf: nat, delim: int)
    requires Parsing(a, argv, line, before, words, buf, delim) && delim != NULL
    ensures 0 <= before <= buf <= delim < |a| && |argv| < |line|
    ensures forall k | buf <= k < delim :: a[k] != '\0'
    ensures var next: nat := delim + 1;
      next <= |line| && Holds(a[delim := '\0'], next, line[next..])
      && Words(line) == (words + [a[buf..delim]]) + Words(line[next..])
  {
    hide Gathered, Holds, NextCut, Words;
    var s := line[before..];
    CutOff(a, before, s);
    WordsStep(s);
    HeldShort(a, before, s);
    DropTwice(line, before, NextCut(s).end + 1);
    Regroup(words, [a[buf..delim]], Words(line[delim + 1..]));
  }

  lemma DropTwice(s: string, i: nat, j: nat)
    requires i + j <= |s|
    ensures s[i..][j..] == s[i + j..]
  {
  }

  lemma Regroup(a: seq<string>, b: seq<string>, c: seq<string>)
    ensures (a + b) + c == a + (b + c)
  {
  }

  lemma HeldShort(a: seq<char>, at: nat, s: string)
    requires Holds(a, at, s)
    ensures at + |s| < |a|
  {
  }

  lemma WordsStep(s: string)
    ensures match NextCut(s)
            case NoWord => Words(s) == []
            case Word(start, end) => Words(s) == [s[start..end]] + Words(s[end + 1..])
  {
  }

  lemma ParsingEnd(a: seq<char>, argv: seq<int>, line: string, before: nat, words: seq<string>, buf: nat)
    requires Parsing(a, argv, line, before, words, buf, NULL)
    ensures Split(a, argv, Words(line))
  {
    hide Gathered, Holds, NextCut, Words;
    WordsStep(line[before..]);
    assert words + [] == words;
  }

  /** The body of the loop of parseline. */
  method Advance(a: array<char>, argv: array<int>, argc: nat, buf: nat, delim: nat,
                 ghost line: string, ghost before: nat, ghost words: seq<string>)
    returns (buf': nat, delim': int, ghost words': seq<string>)
    requires argc < argv.Length && Parsing(a[..], argv[..argc], line, before, words, buf, delim)
    modifies a, argv
    ensures Parsing(a[..], argv[..argc + 1], line, delim + 1, words', buf', delim')
    ensures delim < |line|
  {
    hide Words, NextCut, Gathered, Holds;
    ParsingStep(a[..], argv[..argc], line, before, words, buf, delim);
    AddArgument(a, argv, argc, buf, delim, before, words);
    words' := words + [old(a[buf..delim])];
    buf', delim' := NextWord(a, delim + 1, line[delim + 1..]);
  }

  /** The loop that builds the argument vector. */
  method SplitWords(a: array<char>, argv: array<int>, ghost line: string) returns (argc: nat)
    requires Holds(a[..], 0, line) && |line| < argv.Length
    modifies a, argv
    ensures argc <= |line| && Split(a[..], argv[..argc], Words(line))
  {
    hide Words, NextCut, Gathered, Holds;
    argc := 0;
    ghost var words, before := [], 0;
    var buf, delim := NextWord(a, 0, line);
    ParsingStart(a[..], line, buf, delim);
    assert argv[..0] == [];
    while delim != NULL
      invariant argc <= |line| && Parsing(a[..], argv[..argc], line, before, words, buf, delim)
      decreases |line| - before
    {
      ghost var next := delim + 1;
      buf, delim, words := Advance(a, argv, argc, buf, delim, line, before, words);
      before := next;
      argc := argc + 1;
    }
    ParsingEnd(a[..], argv[..argc], line, before, words, buf);
  }

  ghost predicate Split(a: seq<char>, argv: seq<int>, words: seq<string>) {
    exists before :: Gathered(a, argv, before, words)
  }

  /** strcpy. */
  method StrCpy(a: array<char>, s: string) returns (len: nat)
    requires |s| < a.Length
    modifies a
    ensures len <= |s| && CString(s, 0) == s[..len] == a[..len] && a[len] == '\0' && '\0' !in s[..len]
  {
    len := 0;
    while len < |s| && s[len] != '\0'
      invariant len <= |s| && a[..len] == s[..len] && forall k | 0 <= k < len :: s[k] != '\0'
    {
      a[len] := s[len];
      len := len + 1;
    }
    a[len] := '\0';
    CStringIs(s, 0, len);
  }

  /** The local copy, with a space for the last character, if there is a last character. */
  method CopyIn(cmdline: string, a: array<char>) returns (ok: bool)
    requires |cmdline| < MAXLINE == a.Length
    modifies a
    ensures ok <==> CString(cmdline, 0) != ""
    ensures ok ==> Holds(a[..], 0, Terminated(CString(cmdline, 0)))
  {
    var len := StrCpy(a, cmdline);
    ok := len > 0;
    if ok {
      a[len - 1] := ' ';
      assert a[0..len] == Terminated(cmdline[..len]);
    }
  }

  /** parseline. A blank line counts as a background job; a last word that starts with '&' is
      dropped and asks for one. The line ends at its first NUL; if that is its first character, the
      code would write in front of its buffer, and ok is false. */
  method Parse(cmdline: string, a: array<char>, argv: array<int>) returns (ok: bool, argc: nat, bg: bool)
    requires |cmdline| < MAXLINE == a.Length == argv.Length
    modifies a, argv
    ensures ok <==> cmdline != "" && cmdline[0] != '\0'
    ensures ok ==> argc < argv.Length && argv[argc] == NULL && forall k | 0 <= k < argc :: 0 <= argv[k] < a.Length
    ensures ok ==>
              var words := Words(Terminated(CString(cmdline, 0)));
              && bg == (words == [] || Background(words))
              && Strings(a[..], argv[..argc]) == if Background(words) then words[..|words| - 1] else words
    ensures forall lead, items, tail | Prints(cmdline, lead, items, tail) && '\0' !in cmdline ::
              ok && Parsed(items, Strings(a[..], argv[..argc]), bg)
  {
    hide Words, Terminated, Strings, Holds, Prints, Texts;
    if '\0' !in cmdline { ParsedPrint(cmdline); }
    argc, bg := 0, false;
    ok := CopyIn(cmdline, a);
    if ok {
      ghost var line := Terminated(CString(cmdline, 0));
      CStringFits(cmdline, 0);
      argc := SplitWords(a, argv, line);
      argc, bg := EndVector(a, argv, argc, Words(line));
    }
  }

  /** What is to be parsed from printed items: their texts, except that a last one that begins with '&'
      is dropped and asks for a background job, as does an empty line. */
  ghost predicate Parsed(items: seq<Item>, strings: seq<string>, bg: bool) {
    var n := |items|;
    if n > 0 && items[n - 1].text != "" && items[n - 1].text[0] == '&' then strings == Texts(items[..n - 1]) && bg
    else strings == Texts(items) && (bg <==> n == 0)
  }

  lemma ParsedOne(line: string, lead: nat, items: seq<Item>, tail: string)
    requires Prints(line, lead, items, tail) && '\0' !in line
    ensures line != "" && CString(line, 0) == line && Words(Terminated(line)) == Texts(items)
  {
    ParseUndoesPrint(line, lead, items, tail);
    hide Prints, Words, Terminated, Texts;
    CStringIs(line, 0, |line|);
  }

  lemma TextsParsed(items: seq<Item>)
    ensures var words := Texts(items);
            Parsed(items, if Background(words) then words[..|words| - 1] else words, words == [] || Background(words))
  {
    assert |items| > 0 ==> Texts(items)[..|items| - 1] == Texts(items[..|items| - 1]);
  }

  lemma ParsedPrint(line: string)
    requires '\0' !in line
    ensures forall lead, items, tail | Prints(line, lead, items, tail) ::
              && line != "" && CString(line, 0) == line
              && var words := Words(Terminated(line));
                 Parsed(items, if Background(words) then words[..|words| - 1] else words,
                        words == [] || Background(words))
  {
    hide Prints, Words, Terminated, Texts, Parsed, CString;
    forall lead, items, tail | Prints(line, lead, items, tail)
      ensures line != "" && CString(line, 0) == line
      ensures var words := Words(Terminated(line));
              Parsed(items, if Background(words) then words[..|words| - 1] else words,
                     words == [] || Background(words))
    {
      ParsedOne(line, lead, items, tail);
      TextsParsed(items);
    }
  }

  lemma {:induction false} CStringFits(s: string, at: nat)
    requires at <= |s|
    ensures |CString(s, at)| <= |s| - at
    decreases |s| - at
  {
    if at < |s| {
      CStringFits(s, at + 1);
    }
  }

  /** The end of parseline, once the vector is filled. */
  method EndVector(a: array<char>, argv: array<int>, found: nat, ghost words: seq<string>) returns (argc: nat, bg: bool)
    requires found < argv.Length && Split(a[..], argv[..found], words)
    modifies argv
    ensures argc <= found && argv[argc] == NULL && forall k | 0 <= k < argc :: 0 <= argv[k] < a.Length
    ensures bg == (words == [] || Background(words))
    ensures Strings(a[..], argv[..argc]) == if Background(words) then words[..|words| - 1] else words
  {
    hide Strings, Split;
    argc := found;
    ghost var all := argv[..argc];
    SplitMeans(a[..], all, words);
    argv[argc] := NULL;
    assert argv[..argc] == all;
    if argc == 0 {
      return 0, true;
    }
    LastWord(a[..], all, words);
    assert argv[argc - 1] == all[argc - 1];
    bg := a[argv[argc - 1]] == '&';
    if bg {
      argc := argc - 1;
      argv[argc] := NULL;
      assert argv[..argc] == all[..argc];
      FewerStrings(a[..], all, argc);
    }
  }

  lemma SplitMeans(a: seq<char>, argv: seq<int>, words: seq<string>)
    requires Split(a, argv, words)
    ensures (forall k | 0 <= k < |argv| :: 0 <= argv[k] < |a|) && |words| == |argv| && Strings(a, argv) == words
  {
  }

  lemma FewerStrings(a: seq<char>, argv: seq<int>, n: nat)
    requires n <= |argv| && forall k | 0 <= k < |argv| :: 0 <= argv[k]
    ensures Strings(a, argv[..n]) == Strings(a, argv)[..n]
  {
  }

  lemma LastWord(a: seq<char>, argv: seq<int>, words: seq<string>)
    requires Split(a, argv, words) && argv != []
    ensures |words| == |argv| && 0 <= argv[|argv| - 1] < |a|
    ensures a[argv[|argv| - 1]] == '&' <==> Background(words)
  {
    var n := |argv| - 1;
    assert Strings(a, argv)[n] == CString(a, argv[n]);
  }
}
