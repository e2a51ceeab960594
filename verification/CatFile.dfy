/** Reading every blob of a repository's history through `git cat-file`
    (recon/modules/osint/git_secrets.py): the log, the `--batch-check` answer, the
    length-prefixed `--batch` stream, and how their results are paired with the paths. */
module CatFile {
  import opened Prelude
  import opened Text

  newtype byte = x: int | 0 <= x < 256
  type Bytes = seq<byte>

  const NEWLINE: byte := 10
  const MAX_BLOB_BYTES: nat := 10 * 1024 * 1024

  // ------------------------------------------------------- characters and words

  /** The characters at which `str.splitlines()` ends a line. */
  predicate IsBreak(c: char) {
    var n := c as int;
    10 <= n <= 13 || 28 <= n <= 30 || n == 0x85 || n == 0x2028 || n == 0x2029
  }

  predicate NoBreak(s: string) {
    forall i :: 0 <= i < |s| ==> !IsBreak(s[i])
  }

  // -------------------------------------------------------------------- numbers

  predicate AllDigits(s: string) {
    forall i :: 0 <= i < |s| ==> '0' <= s[i] <= '9'
  }

  function Digits(n: nat): (s: string)
    ensures s != "" && AllDigits(s) && NoSpace(s)
  {
    var last := [('0' as int + n % 10) as char];
    if n < 10 then last else Digits(n / 10) + last
  }

  function Value(s: string): nat
    requires AllDigits(s)
  {
    if s == "" then 0
    else
      var most := s[..|s| - 1];
      assert AllDigits(most);
      10 * Value(most) + (s[|s| - 1] as nat - '0' as nat)
  }

  /** `int(s)` on plain decimal digits; anything else is a `ValueError`. */
  function ParseInt(s: string): Option<nat> {
    if s != "" && AllDigits(s) then Some(Value(s)) else None
  }

  lemma {:induction false} ParsePrinted(n: nat)
    ensures ParseInt(Digits(n)) == Some(n)
  {
    var s := Digits(n);
    var most := s[..|s| - 1];
    if n >= 10 {
      ParsePrinted(n / 10);
      assert most == Digits(n / 10);
    } else {
      assert most == "";
    }
    assert Value(s) == 10 * Value(most) + n % 10;
  }

  // -------------------------------------------------------------------- headers

  datatype Header = Header(sha: string, size: nat)

  /** The header of a blob, as both parsers read it: its first word and its size. */
  function HeaderOf(header: string): Option<Header> {
    var parts := Words(header);
    if |parts| != 3 || parts[1] != "blob" then None
    else match ParseInt(parts[2])
      case None => None
      case Some(size) => Some(Header(parts[0], size))
  }

  datatype Kind = Blob | Tree | Commit | Tag

  function Name(k: Kind): (s: string)
    ensures s != "" && NoSpace(s)
  {
    match k case Blob => "blob" case Tree => "tree" case Commit => "commit" case Tag => "tag"
  }

  predicate IsSha(s: string) {
    |s| == 40 && forall i :: 0 <= i < |s| ==> '0' <= s[i] <= '9' || 'a' <= s[i] <= 'f'
  }

  function PresentLine(sha: string, kind: Kind, size: nat): string {
    sha + [' '] + (Name(kind) + [' '] + Digits(size))
  }

  function MissingLine(rev: string): string {
    rev + [' '] + "missing"
  }

  lemma ThreeWords(a: string, b: string, c: string)
    requires a != "" && b != "" && c != "" && NoSpace(a) && NoSpace(b) && NoSpace(c)
    ensures Words(a + [' '] + (b + [' '] + c)) == [a, b, c]
  {
    WordsAppend(a, ' ', b + [' '] + c);
    WordsAppend(b, ' ', c);
    OneWord(a);
    OneWord(b);
    OneWord(c);
  }

  lemma PresentHeader(sha: string, kind: Kind, size: nat)
    requires IsSha(sha)
    ensures HeaderOf(PresentLine(sha, kind, size)) == if kind == Blob then Some(Header(sha, size)) else None
  {
    ThreeWords(sha, Name(kind), Digits(size));
    ParsePrinted(size);
  }

  /** A "missing" line is never read as a blob, whatever words the revision holds: its last
      word is no number. */
  lemma LastWordMissing(rev: string)
    ensures HeaderOf(rev + [' '] + "missing") == None
  {
    var last := "missing";
    assert NoSpace(last) && ParseInt(last) == None by { NotANumber(last); }
    LastWordNoNumber(rev, last);
  }

  lemma LastWordNoNumber(rev: string, last: string)
    requires last != "" && NoSpace(last) && ParseInt(last) == None
    ensures HeaderOf(rev + [' '] + last) == None
  {
    WordsAppend(rev, ' ', last);
    OneWord(last);
    NoHeader(rev + [' '] + last, Words(rev), last);
  }

  lemma NoHeader(line: string, words: seq<string>, last: string)
    requires Words(line) == words + [last] && ParseInt(last) == None
    ensures HeaderOf(line) == None
  {
    var parts := Words(line);
    if |parts| == 3 {
      assert parts[2] == last;
    }
  }

  lemma NotANumber(s: string)
    requires s != "" && !('0' <= s[0] <= '9')
    ensures ParseInt(s) == None
  {
  }

  // --------------------------------------------------------------------- coding

  /** UTF-8 with replacement of malformed input: what the parsers use of it is stated
      by `Faithful`. */
  datatype Codec = Codec(encode: string -> Bytes, decode: Bytes -> string)

  ghost predicate Faithful(c: Codec) {
    && c.decode([]) == ""
    && (forall s :: c.decode(c.encode(s)) == s)
    && (forall s :: NEWLINE in c.encode(s) <==> '\n' in s)
    && (forall a, b :: c.decode(a + [NEWLINE] + b) == c.decode(a) + "\n" + c.decode(b))
  }

  // ------------------------------------------------------------ cat-file --batch

  datatype Entry = Entry(sha: string, content: Bytes)

  /** `data.find(b"\n", i)`, with the length of the data for "not found". */
  function Find(data: Bytes, i: nat): (nl: nat)
    requires i <= |data|
    ensures i <= nl <= |data| && (nl < |data| ==> data[nl] == NEWLINE)
    ensures forall j :: i <= j < nl ==> data[j] != NEWLINE
    decreases |data| - i
  {
    if i == |data| || data[i] == NEWLINE then i else Find(data, i + 1)
  }

  /** The slice `data[:n]`, cut at the end. */
  function Take(data: Bytes, n: nat): Bytes {
    if n <= |data| then data[..n] else data
  }

  function Drop(data: Bytes, n: nat): (r: Bytes)
    ensures |r| <= |data|
  {
    if n <= |data| then data[n..] else []
  }

  /** The frame terminator, if there is one. */
  function DropNewline(data: Bytes): (r: Bytes)
    ensures |r| <= |data|
  {
    if data != [] && data[0] == NEWLINE then data[1..] else data
  }

  /** How a header line is read: decoded, split, and its size converted. */
  type HeaderReader = Bytes -> Option<Header>

  function Reader(decode: Bytes -> string): HeaderReader {
    bytes => HeaderOf(decode(bytes))
  }

  datatype Next = End | Got(entry: Option<Entry>, rest: Bytes)

  /** The next result of a stream and what is left of it. */
  function NextOf(read: HeaderReader, data: Bytes): (r: Next)
    ensures r.Got? ==> |r.rest| < |data|
  {
    var nl := Find(data, 0);
    if nl == |data| then End else AfterHeader(data[nl + 1..], read(data[..nl]))
  }

  /** The result for a header and what follows it. */
  function AfterHeader(rest: Bytes, parsed: Option<Header>): (r: Next)
    ensures r.Got? && |r.rest| <= |rest|
  {
    match parsed
    case None => Got(None, rest)
    case Some(h) => Got(Some(Entry(h.sha, Take(rest, h.size))), AfterBlob(rest, h.size))
  }

  /** What the parser makes of a stream. */
  ghost function Parsed(read: HeaderReader, data: Bytes): seq<Option<Entry>>
    decreases |data|
  {
    match NextOf(read, data)
    case End => []
    case Got(entry, rest) => [entry] + Parsed(read, rest)
  }

  /** A property of the results so far and the rest of the stream that every next result
      keeps. */
  type Onward = (seq<Option<Entry>>, Bytes) -> bool

  ghost predicate Carried(read: HeaderReader, k: Onward) {
    forall out, data :: k(out, data) && NextOf(read, data).Got? ==>
      k(out + [NextOf(read, data).entry], NextOf(read, data).rest)
  }

  lemma CarriedOnce(read: HeaderReader, k: Onward, out: seq<Option<Entry>>, data: Bytes)
    requires Carried(read, k) && k(out, data) && NextOf(read, data).Got?
    ensures k(out + [NextOf(read, data).entry], NextOf(read, data).rest)
  {
  }

  function AfterBlob(rest: Bytes, size: nat): (r: Bytes)
    ensures |r| <= |rest|
  {
    DropNewline(Drop(rest, size))
  }

  /** The loop of `_parse_cat_file`: whatever every next result keeps holds at the end. */
  method ParseFrames(read: HeaderReader, data: Bytes, ghost k: Onward)
      returns (out: seq<Option<Entry>>, ghost left: Bytes)
    requires Carried(read, k) && k([], data)
    ensures k(out, left) && NextOf(read, left) == End
  {
    out := [];
    var i, n := 0, |data|;
    left := data;
    while i < n
      invariant left == Drop(data, i) && k(out, left)
    {
      var nl := Find(data, i);
      if nl == n {
        EndAt(read, data, i);
        return;
      }
      var parsed := read(data[i..nl]);
      var start := nl + 1;
      NextAt(read, data, i, nl, start, parsed);
      CarriedOnce(read, k, out, left);
      var entry;
      entry, i := ReadContent(data, start, parsed);
      out := out + [entry];
      left := Drop(data, i);
    }
  }

  /** `_parse_cat_file`. */
  method ParseCatFile(read: HeaderReader, data: Bytes) returns (out: seq<Option<Entry>>)
    ensures out == Parsed(read, data)
  {
    forall out, rest | out + Parsed(read, rest) == Parsed(read, data) && NextOf(read, rest).Got?
      ensures out + [NextOf(read, rest).entry] + Parsed(read, NextOf(read, rest).rest) == Parsed(read, data)
    {
      Associative(out, [NextOf(read, rest).entry], Parsed(read, NextOf(read, rest).rest));
    }
    ghost var left;
    out, left := ParseFrames(read, data, (out, rest) => out + Parsed(read, rest) == Parsed(read, data));
  }

  /** The rest of the loop body: the content after a blob's header, and its terminator. */
  method ReadContent(data: Bytes, start: nat, parsed: Option<Header>) returns (entry: Option<Entry>, i: nat)
    requires start <= |data|
    ensures entry == EntryAt(data, start, parsed) && i == IndexAt(data, start, parsed)
  {
    i := start;
    if parsed.None? {
      return None, i;
    }
    var sha, size := parsed.value.sha, parsed.value.size;
    var content := Take(data[i..], size);
    i := i + size;
    if i < |data| && data[i] == NEWLINE {
      i := i + 1;
    }
    entry := Some(Entry(sha, content));
  }

  /** The result for a header that ends before index `start`, and where the parser goes. */
  ghost function EntryAt(data: Bytes, start: nat, parsed: Option<Header>): Option<Entry>
    requires start <= |data|
  {
    match parsed case None => None case Some(h) => Some(Entry(h.sha, Take(data[start..], h.size)))
  }

  ghost function IndexAt(data: Bytes, start: nat, parsed: Option<Header>): nat {
    match parsed case None => start case Some(h) => AfterIndex(data, start, h.size)
  }

  lemma FindInRest(data: Bytes, i: nat)
    requires i <= |data|
    ensures Find(data, i) == i + Find(data[i..], 0)
  {
    var a, b := Find(data, i), Find(data[i..], 0);
    assert forall j :: 0 <= j < |data| - i ==> data[i..][j] == data[i + j];
    assert forall j :: i <= j < |data| ==> data[j] == data[i..][j - i];
  }

  lemma EndAt(read: HeaderReader, data: Bytes, i: nat)
    requires i < |data| && Find(data, i) == |data|
    ensures NextOf(read, data[i..]) == End
  {
    FindInRest(data, i);
  }

  lemma NextIs(read: HeaderReader, data: Bytes, k: nat)
    requires k < |data| && k == Find(data, 0)
    ensures NextOf(read, data) == AfterHeader(data[k + 1..], read(data[..k]))
  {
  }

  lemma AfterHeaderAt(data: Bytes, start: nat, parsed: Option<Header>)
    requires start <= |data|
    ensures AfterHeader(data[start..], parsed) ==
      Got(EntryAt(data, start, parsed), Drop(data, IndexAt(data, start, parsed)))
  {
    if parsed.Some? {
      AfterBlobAt(data, start, parsed.value.size);
    }
  }

  lemma NextAt(read: HeaderReader, data: Bytes, i: nat, nl: nat, start: nat, parsed: Option<Header>)
    requires i < |data| && nl == Find(data, i) < |data| && start == nl + 1
    requires parsed == read(data[i..nl])
    ensures NextOf(read, data[i..]) == Got(EntryAt(data, start, parsed), Drop(data, IndexAt(data, start, parsed)))
  {
    var left, k := data[i..], Find(data[i..], 0);
    FindInRest(data, i);
    NextIs(read, left, k);
    SliceOfRest(data, i, nl, k);
    AfterHeaderAt(data, start, parsed);
  }

  function AfterIndex(data: Bytes, start: nat, size: nat): nat {
    var i := start + size;
    if i < |data| && data[i] == NEWLINE then i + 1 else i
  }

  lemma AfterBlobAt(data: Bytes, start: nat, size: nat)
    requires start <= |data|
    ensures AfterBlob(data[start..], size) == Drop(data, AfterIndex(data, start, size))
  {
  }

  lemma SliceOfRest(data: Bytes, i: nat, nl: nat, k: nat)
    requires i <= nl < |data| && nl == i + k
    ensures data[i..][..k] == data[i..nl] && data[i..][k + 1..] == data[nl + 1..]
  {
  }

  lemma Associative<T>(a: seq<T>, b: seq<T>, c: seq<T>)
    ensures a + (b + c) == (a + b) + c
  {
  }

  /** What git writes for one requested revision. */
  datatype Frame = Found(entry: Entry) | Missing(rev: string)

  ghost predicate FrameOk(f: Frame) {
    match f case Found(e) => IsSha(e.sha) case Missing(rev) => forall i :: 0 <= i < |rev| ==> rev[i] != '\n'
  }

  ghost function FrameBytes(c: Codec, f: Frame): Bytes {
    match f
    case Found(e) => c.encode(PresentLine(e.sha, Blob, |e.content|)) + [NEWLINE] + e.content + [NEWLINE]
    case Missing(rev) => c.encode(MissingLine(rev)) + [NEWLINE]
  }

  ghost function StreamBytes(c: Codec, frames: seq<Frame>): Bytes {
    if frames == [] then [] else FrameBytes(c, frames[0]) + StreamBytes(c, frames[1..])
  }

  function EntryOf(f: Frame): Option<Entry> {
    match f case Found(e) => Some(e) case Missing(_) => None
  }

  lemma FirstLine(h: Bytes, rest: Bytes)
    requires NEWLINE !in h
    ensures Find(h + [NEWLINE] + rest, 0) == |h|
  {
    var s := h + [NEWLINE] + rest;
    var n := Find(s, 0);
    assert s[|h|] == NEWLINE;
    assert forall j :: 0 <= j < |h| ==> s[j] == h[j];
  }

  lemma NextLine(c: Codec, line: string, rest: Bytes)
    requires Faithful(c) && forall i :: 0 <= i < |line| ==> line[i] != '\n'
    ensures NextOf(Reader(c.decode), c.encode(line) + [NEWLINE] + rest) ==
      match HeaderOf(line)
      case None => Got(None, rest)
      case Some(h) => Got(Some(Entry(h.sha, Take(rest, h.size))), AfterBlob(rest, h.size))
  {
    var h := c.encode(line);
    FirstLine(h, rest);
    var s := h + [NEWLINE] + rest;
    assert s[..|h|] == h && s[|h| + 1..] == rest;
  }

  lemma BlobBytes(content: Bytes, rest: Bytes)
    ensures var tail := content + ([NEWLINE] + rest);
      Take(tail, |content|) == content && AfterBlob(tail, |content|) == rest
  {
    var tail := content + ([NEWLINE] + rest);
    assert Drop(tail, |content|) == [NEWLINE] + rest;
  }

  lemma NextBlob(c: Codec, e: Entry, rest: Bytes)
    requires Faithful(c) && IsSha(e.sha)
    ensures NextOf(Reader(c.decode),
      c.encode(PresentLine(e.sha, Blob, |e.content|)) + [NEWLINE] + (e.content + ([NEWLINE] + rest))) ==
      Got(Some(e), rest)
  {
    PresentHeader(e.sha, Blob, |e.content|);
    NextLine(c, PresentLine(e.sha, Blob, |e.content|), e.content + ([NEWLINE] + rest));
    BlobBytes(e.content, rest);
  }

  lemma NextFrame(c: Codec, f: Frame, rest: Bytes)
    requires Faithful(c) && FrameOk(f)
    ensures NextOf(Reader(c.decode), FrameBytes(c, f) + rest) == Got(EntryOf(f), rest)
  {
    match f {
      case Found(e) =>
        NextBlob(c, e, rest);
        var h := c.encode(PresentLine(e.sha, Blob, |e.content|)) + [NEWLINE];
        Associative(h, e.content + [NEWLINE], rest);
        Associative(h, e.content, [NEWLINE]);
        Associative(e.content, [NEWLINE], rest);
      case Missing(rev) =>
        LastWordMissing(rev);
        NextLine(c, MissingLine(rev), rest);
    }
  }

  function EntriesOf(frames: seq<Frame>): (r: seq<Option<Entry>>)
    ensures |r| == |frames|
  {
    if frames == [] then [] else [EntryOf(frames[0])] + EntriesOf(frames[1..])
  }

  /** The round trip: every list of frames, blobs of any bytes among missing revisions of
      any words, is read back as it was. */
  lemma {:induction false} CatFileRoundTrip(c: Codec, frames: seq<Frame>)
    requires Faithful(c) && forall f :: f in frames ==> FrameOk(f)
    ensures Parsed(Reader(c.decode), StreamBytes(c, frames)) == EntriesOf(frames)
  {
    if frames != [] {
      CatFileRoundTrip(c, frames[1..]);
      NextFrame(c, frames[0], StreamBytes(c, frames[1..]));
    }
  }

  // ----------------------------------------------------------------------- lines

  /** The characters up to the first line end. */
  function TextLength(s: string): (n: nat)
    ensures n <= |s| && NoBreak(s[..n]) && (n < |s| ==> IsBreak(s[n]))
  {
    if s == "" || IsBreak(s[0]) then 0
    else
      var n := TextLength(s[1..]);
      assert s[..1 + n] == [s[0]] + s[1..][..n];
      1 + n
  }

  /** What follows the line end at `n`; a carriage return and its newline end one line. */
  function AfterBreak(s: string, n: nat): (r: string)
    requires n < |s|
    ensures |r| < |s|
  {
    if s[n] == '\r' && n + 1 < |s| && s[n + 1] == '\n' then s[n + 2..] else s[n + 1..]
  }

  /** `s.splitlines()`. */
  function Lines(s: string): seq<string>
    decreases |s|
  {
    if s == "" then []
    else
      var n := TextLength(s);
      if n == |s| then [s] else [s[..n]] + Lines(AfterBreak(s, n))
  }

  /** A line git writes: no newline in it, and its last character ends no line. */
  predicate Written(line: string) {
    line != "" && !IsBreak(line[|line| - 1]) && forall i :: 0 <= i < |line| ==> line[i] != '\n'
  }

  lemma TextLengthIs(s: string, n: nat)
    requires n <= |s| && NoBreak(s[..n]) && (n < |s| ==> IsBreak(s[n]))
    ensures TextLength(s) == n
  {
    var m := TextLength(s);
    assert forall j :: 0 <= j < n ==> s[..n][j] == s[j];
    assert forall j :: 0 <= j < m ==> s[..m][j] == s[j];
  }

  /** The first line end of a written line, and of any text it begins. */
  lemma FirstBreak(line: string, n: nat)
    requires Written(line) && n == TextLength(line) && n < |line|
    ensures Lines(line) == [line[..n]] + Lines(line[n + 1..]) && Written(line[n + 1..])
  {
    WrittenTail(line, n);
    assert AfterBreak(line, n) == line[n + 1..];
  }

  lemma WrittenTail(line: string, n: nat)
    requires Written(line) && n < |line| && IsBreak(line[n])
    ensures Written(line[n + 1..]) && n + 1 < |line|
  {
    var tail := line[n + 1..];
    assert n != |line| - 1;
    assert forall i :: 0 <= i < |tail| ==> tail[i] == line[n + 1 + i];
  }

  lemma FirstBreakIn(line: string, rest: string, n: nat)
    requires Written(line) && n == TextLength(line) && n < |line|
    ensures Lines(line + ['\n'] + rest) == [line[..n]] + Lines(line[n + 1..] + ['\n'] + rest)
  {
    var s := line + ['\n'] + rest;
    PrefixOf(line, rest, n);
    TextLengthIs(s, n);
    assert AfterBreak(s, n) == s[n + 1..];
  }

  lemma PrefixOf(line: string, rest: string, n: nat)
    requires n < |line| - 1 && line[n + 1] != '\n'
    ensures var s := line + ['\n'] + rest;
      s[..n] == line[..n] && s[n] == line[n] && s[n + 1] != '\n' && s[n + 1..] == line[n + 1..] + ['\n'] + rest
  {
  }

  lemma LastBreak(line: string, rest: string)
    requires Written(line) && NoBreak(line)
    ensures Lines(line + ['\n'] + rest) == [line] + Lines(rest)
  {
    var s := line + ['\n'] + rest;
    assert s[..|line|] == line;
    TextLengthIs(s, |line|);
    assert AfterBreak(s, |line|) == rest;
  }

  /** A written line contributes its own lines, whatever follows it. */
  lemma {:induction false} LinesAfter(line: string, rest: string)
    requires Written(line)
    ensures Lines(line + ['\n'] + rest) == Lines(line) + Lines(rest)
    decreases |line|
  {
    var n := TextLength(line);
    if n == |line| {
      assert line[..n] == line;
      LastBreak(line, rest);
    } else {
      FirstBreak(line, n);
      FirstBreakIn(line, rest, n);
      LinesAfter(line[n + 1..], rest);
      Associative([line[..n]], Lines(line[n + 1..]), Lines(rest));
    }
  }

  /** A written line is one line exactly if it holds no line end. */
  lemma {:induction false} LinesOfOne(line: string)
    requires Written(line)
    ensures |Lines(line)| >= 1
    ensures |Lines(line)| == 1 <==> NoBreak(line)
    ensures NoBreak(line) ==> Lines(line) == [line]
  {
    var n := TextLength(line);
    if n < |line| {
      var tail := AfterBreak(line, n);
      assert tail == line[n + 1..];
      assert Lines(tail) != [];
    } else {
      assert line[..n] == line;
    }
  }

  // ------------------------------------------------------ cat-file --batch-check

  /** `_parse_batch_check` on one line: the size of a blob. */
  function SizeOf(line: string): Option<nat> {
    match HeaderOf(line) case None => None case Some(h) => Some(h.size)
  }

  function SizesOf(lines: seq<string>): (r: seq<Option<nat>>)
    ensures |r| == |lines|
  {
    if lines == [] then [] else [SizeOf(lines[0])] + SizesOf(lines[1..])
  }

  lemma {:induction false} SizesAppend(a: seq<string>, b: seq<string>)
    ensures SizesOf(a + b) == SizesOf(a) + SizesOf(b)
  {
    if a == [] {
      assert [] + b == b;
    } else {
      SizesAppend(a[1..], b);
      assert (a + b)[0] == a[0] && (a + b)[1..] == a[1..] + b;
      Associative([SizeOf(a[0])], SizesOf(a[1..]), SizesOf(b));
    }
  }

  /** `_parse_batch_check`. */
  method ParseBatchCheck(decode: Bytes -> string, data: Bytes) returns (out: seq<Option<nat>>)
    ensures out == SizesOf(Lines(decode(data)))
  {
    out := [];
    var lines := Lines(decode(data));
    for k := 0 to |lines|
      invariant out == SizesOf(lines[..k])
    {
      SizesAppend(lines[..k], [lines[k]]);
      assert lines[..k + 1] == lines[..k] + [lines[k]];
      var parsed := HeaderOf(lines[k]);
      out := out + [if parsed.Some? then Some(parsed.value.size) else None];
    }
    assert lines[..|lines|] == lines;
  }

  datatype Object = Object(kind: Kind, sha: string, content: Bytes)

  /** What a repository has under a revision. */
  type Repo = string -> Option<Object>

  ghost predicate RepoOk(repo: Repo) {
    forall rev :: repo(rev).Some? ==> IsSha(repo(rev).value.sha)
  }

  ghost function CheckLine(repo: Repo, rev: string): string {
    match repo(rev)
    case None => MissingLine(rev)
    case Some(o) => PresentLine(o.sha, o.kind, |o.content|)
  }

  ghost function CheckText(repo: Repo, revs: seq<string>): string {
    if revs == [] then "" else CheckLine(repo, revs[0]) + ['\n'] + CheckText(repo, revs[1..])
  }

  /** git's answer to `--batch-check`. */
  ghost function CheckBytes(c: Codec, repo: Repo, revs: seq<string>): Bytes {
    if revs == [] then []
    else c.encode(CheckLine(repo, revs[0])) + [NEWLINE] + CheckBytes(c, repo, revs[1..])
  }

  /** The size of the blob under a revision. */
  ghost function BlobSize(repo: Repo, rev: string): Option<nat> {
    match repo(rev)
    case None => None
    case Some(o) => if o.kind == Blob then Some(|o.content|) else None
  }

  ghost function BlobSizes(repo: Repo, revs: seq<string>): (r: seq<Option<nat>>)
    ensures |r| == |revs|
  {
    if revs == [] then [] else [BlobSize(repo, revs[0])] + BlobSizes(repo, revs[1..])
  }

  predicate NoNewline(s: string) {
    forall i :: 0 <= i < |s| ==> s[i] != '\n'
  }

  lemma {:induction false} CheckDecodes(c: Codec, repo: Repo, revs: seq<string>)
    requires Faithful(c)
    ensures c.decode(CheckBytes(c, repo, revs)) == CheckText(repo, revs)
  {
    if revs != [] {
      CheckDecodes(c, repo, revs[1..]);
      var line := CheckLine(repo, revs[0]);
      assert c.decode(c.encode(line)) == line;
    }
  }

  lemma CheckLineIs(repo: Repo, rev: string)
    requires RepoOk(repo) && NoNewline(rev)
    ensures Written(CheckLine(repo, rev))
    ensures NoBreak(CheckLine(repo, rev)) <==> repo(rev).Some? || NoBreak(rev)
    ensures SizeOf(CheckLine(repo, rev)) == BlobSize(repo, rev)
  {
    match repo(rev) {
      case None =>
        LastWordMissing(rev);
        MissingText(rev);
      case Some(o) =>
        PresentHeader(o.sha, o.kind, |o.content|);
        PresentText(o.sha, o.kind, |o.content|);
    }
  }

  lemma MissingText(rev: string)
    requires NoNewline(rev)
    ensures Written(MissingLine(rev))
    ensures NoBreak(MissingLine(rev)) <==> NoBreak(rev)
  {
    var line := MissingLine(rev);
    assert line[..|rev|] == rev;
    assert forall i :: 0 <= i < |rev| ==> line[i] == rev[i];
    assert NoBreak(" missing");
    assert forall i :: |rev| <= i < |line| ==> line[i] == " missing"[i - |rev|];
  }

  lemma PresentText(sha: string, kind: Kind, size: nat)
    requires IsSha(sha)
    ensures Written(PresentLine(sha, kind, size)) && NoBreak(PresentLine(sha, kind, size))
  {
    var a, b, d := sha, Name(kind), Digits(size);
    assert NoBreak(a) && NoBreak(b) && NoBreak(d) && NoBreak([' ']);
    NoBreakAppend(b + [' '], d);
    NoBreakAppend(b, [' ']);
    NoBreakAppend(a, [' ']);
    NoBreakAppend(a + [' '], b + [' '] + d);
    WrittenPlain(PresentLine(sha, kind, size));
  }

  lemma WrittenPlain(s: string)
    requires s != "" && NoBreak(s)
    ensures Written(s)
  {
  }

  lemma NoBreakAppend(a: string, b: string)
    requires NoBreak(a) && NoBreak(b)
    ensures NoBreak(a + b)
  {
  }

  /** The line of one revision: read as its size if it is one line, and as more otherwise. */
  lemma CheckStep(repo: Repo, first: string, rest: seq<string>)
    requires RepoOk(repo) && NoNewline(first)
    ensures var one := SizesOf(Lines(CheckLine(repo, first)));
      && SizesOf(Lines(CheckLine(repo, first) + ['\n'] + CheckText(repo, rest))) ==
        one + SizesOf(Lines(CheckText(repo, rest)))
      && |one| >= 1 && (|one| == 1 <==> one == [BlobSize(repo, first)])
      && (|one| == 1 <==> repo(first).Some? || NoBreak(first))
  {
    CheckLineIs(repo, first);
    var line := CheckLine(repo, first);
    LinesAfter(line, CheckText(repo, rest));
    LinesOfOne(line);
    SizesAppend(Lines(line), Lines(CheckText(repo, rest)));
  }

  lemma LongerDiffers<T>(one: seq<T>, more: seq<T>, x: T, xs: seq<T>)
    requires |one| >= 1 && |more| >= |xs| && (|one| == 1 <==> one == [x])
    requires |more| == |xs| <==> more == xs
    ensures one + more == [x] + xs <==> |one| == 1 && |more| == |xs|
    ensures |one + more| == |[x] + xs| <==> |one| == 1 && |more| == |xs|
  {
    if one + more == [x] + xs {
      assert |one + more| == |[x] + xs|;
    }
  }

  ghost predicate MissingAreClean(repo: Repo, revs: seq<string>) {
    forall rev :: rev in revs && repo(rev).None? ==> NoBreak(rev)
  }

  lemma CheckFirst(repo: Repo, first: string, rest: seq<string>)
    ensures CheckText(repo, [first] + rest) == CheckLine(repo, first) + ['\n'] + CheckText(repo, rest)
    ensures BlobSizes(repo, [first] + rest) == [BlobSize(repo, first)] + BlobSizes(repo, rest)
  {
    assert ([first] + rest)[1..] == rest;
  }

  lemma MissingFirst(repo: Repo, first: string, rest: seq<string>)
    ensures MissingAreClean(repo, [first] + rest) <==>
      (repo(first).Some? || NoBreak(first)) && MissingAreClean(repo, rest)
  {
    assert forall rev :: rev in [first] + rest <==> rev == first || rev in rest;
  }

  /** The whole list is read as the blob sizes of the revisions exactly if no missing
      revision holds a character that `splitlines` ends a line at; every such revision
      makes the list longer. */
  lemma {:induction false} BatchCheckExactly(repo: Repo, revs: seq<string>)
    requires RepoOk(repo) && forall rev :: rev in revs ==> NoNewline(rev)
    ensures |SizesOf(Lines(CheckText(repo, revs)))| >= |revs|
    ensures SizesOf(Lines(CheckText(repo, revs))) == BlobSizes(repo, revs) <==> MissingAreClean(repo, revs)
    ensures |SizesOf(Lines(CheckText(repo, revs)))| == |revs| <==> MissingAreClean(repo, revs)
  {
    if revs != [] {
      var first, rest := revs[0], revs[1..];
      BatchCheckExactly(repo, rest);
      CheckStep(repo, first, rest);
      CheckFirst(repo, first, rest);
      LongerDiffers(SizesOf(Lines(CheckLine(repo, first))), SizesOf(Lines(CheckText(repo, rest))),
        BlobSize(repo, first), BlobSizes(repo, rest));
      MissingFirst(repo, first, rest);
      assert revs == [first] + rest;
    }
  }

  // ----------------------------------------------------------------- read_blobs

  function RevOf(commit: string, path: string): string {
    commit + [':'] + path
  }

  /** `rev.split(":", 1)[1]`. */
  function PathOf(rev: string): string {
    if rev == "" then "" else if rev[0] == ':' then rev[1..] else PathOf(rev[1..])
  }

  lemma {:induction false} PathOfRev(commit: string, path: string)
    requires forall i :: 0 <= i < |commit| ==> commit[i] != ':'
    ensures PathOf(RevOf(commit, path)) == path
  {
    if commit != "" {
      PathOfRev(commit[1..], path);
      assert RevOf(commit, path)[1..] == RevOf(commit[1..], path);
    }
  }

  predicate Worth(size: Option<nat>) {
    size.Some? && 0 < size.value <= MAX_BLOB_BYTES
  }

  /** The revisions to read: the shorter list bounds the pairing. */
  function Kept(revs: seq<string>, sizes: seq<Option<nat>>): seq<string> {
    if revs == [] || sizes == [] then []
    else (if Worth(sizes[0]) then [revs[0]] else []) + Kept(revs[1..], sizes[1..])
  }

  datatype Read = Read(path: string, entry: Entry)

  function Paired(keep: seq<string>, parsed: seq<Option<Entry>>): seq<Read> {
    if keep == [] || parsed == [] then []
    else (if parsed[0].Some? then [Read(PathOf(keep[0]), parsed[0].value)] else []) + Paired(keep[1..], parsed[1..])
  }

  /** What a caller wants of one path: the blob under it, if it is one of fitting size. */
  ghost function WantedOne(repo: Repo, commit: string, path: string): (r: seq<Read>)
    ensures |r| <= 1
  {
    var o := repo(RevOf(commit, path));
    if o.Some? && o.value.kind == Blob && 0 < |o.value.content| <= MAX_BLOB_BYTES
    then [Read(path, Entry(o.value.sha, o.value.content))]
    else []
  }

  /** And of several: in the order of the paths, each with its own content. */
  ghost function Wanted(repo: Repo, commit: string, paths: seq<string>): seq<Read> {
    if paths == [] then [] else WantedOne(repo, commit, paths[0]) + Wanted(repo, commit, paths[1..])
  }

  /** The two commands `_read_blobs` gives to git. */
  datatype Git = Git(check: seq<string> -> Bytes, batch: seq<string> -> Bytes)

  ghost function FrameOf(repo: Repo, rev: string): Frame {
    match repo(rev) case None => Missing(rev) case Some(o) => Found(Entry(o.sha, o.content))
  }

  ghost function FramesOf(repo: Repo, revs: seq<string>): seq<Frame> {
    if revs == [] then [] else [FrameOf(repo, revs[0])] + FramesOf(repo, revs[1..])
  }

  ghost predicate AllBlobs(repo: Repo, revs: seq<string>) {
    forall rev :: rev in revs ==> repo(rev).Some? && repo(rev).value.kind == Blob
  }

  /** What git is asked, one revision a line. */
  ghost predicate OneALine(revs: seq<string>) {
    revs != [] && forall rev :: rev in revs ==> NoNewline(rev)
  }

  /** git answers from one repository what it is asked line by line: on `--batch-check` for
      any revisions, and on `--batch` as far as blobs are asked for. */
  ghost predicate Answers(git: Git, c: Codec, repo: Repo) {
    && (forall revs :: OneALine(revs) ==> git.check(revs) == CheckBytes(c, repo, revs))
    && (forall revs :: OneALine(revs) && AllBlobs(repo, revs) ==>
      git.batch(revs) == StreamBytes(c, FramesOf(repo, revs)))
  }

  lemma {:induction false} KeptAreGiven(revs: seq<string>, sizes: seq<Option<nat>>)
    ensures forall rev :: rev in Kept(revs, sizes) ==> rev in revs
  {
    if revs != [] && sizes != [] {
      KeptAreGiven(revs[1..], sizes[1..]);
    }
  }

  ghost function RevsOf(commit: string, paths: seq<string>): (r: seq<string>)
    ensures |r| == |paths|
  {
    if paths == [] then [] else [RevOf(commit, paths[0])] + RevsOf(commit, paths[1..])
  }

  /** What `_read_blobs` returns. */
  ghost function BlobsRead(decode: Bytes -> string, git: Git, revs: seq<string>): seq<Read> {
    var keep := Kept(revs, SizesOf(Lines(decode(git.check(revs)))));
    if keep == [] then [] else Paired(keep, Parsed(Reader(decode), git.batch(keep)))
  }

  /** The list comprehension over the paths. */
  method Revisions(commit: string, paths: seq<string>) returns (revs: seq<string>)
    ensures revs == RevsOf(commit, paths)
  {
    revs := [];
    for k := 0 to |paths|
      invariant revs + RevsOf(commit, paths[k..]) == RevsOf(commit, paths)
    {
      assert paths[k..][0] == paths[k] && paths[k..][1..] == paths[k + 1..];
      Associative(revs, [RevOf(commit, paths[k])], RevsOf(commit, paths[k + 1..]));
      revs := revs + [RevOf(commit, paths[k])];
    }
  }

  /** The filter of `_read_blobs` over `zip(revs, entries)`. */
  method KeepWorth(revs: seq<string>, sizes: seq<Option<nat>>) returns (keep: seq<string>)
    ensures keep == Kept(revs, sizes)
  {
    keep := [];
    var k := 0;
    while k < |revs| && k < |sizes|
      invariant k <= |revs| && k <= |sizes|
      invariant keep + Kept(revs[k..], sizes[k..]) == Kept(revs, sizes)
    {
      ghost var before := keep;
      if Worth(sizes[k]) {
        keep := keep + [revs[k]];
      }
      assert revs[k..][1..] == revs[k + 1..] && sizes[k..][1..] == sizes[k + 1..];
      assert keep == before + (if Worth(sizes[k]) then [revs[k]] else []);
      k := k + 1;
    }
  }

  /** The pairing loop of `_read_blobs` over `zip(keep, parsed)`. */
  method PairUp(keep: seq<string>, parsed: seq<Option<Entry>>) returns (out: seq<Read>)
    ensures out == Paired(keep, parsed)
  {
    out := [];
    var k := 0;
    while k < |keep| && k < |parsed|
      invariant k <= |keep| && k <= |parsed|
      invariant out + Paired(keep[k..], parsed[k..]) == Paired(keep, parsed)
    {
      ghost var before := out;
      if parsed[k].Some? {
        out := out + [Read(PathOf(keep[k]), parsed[k].value)];
      }
      assert keep[k..][1..] == keep[k + 1..] && parsed[k..][1..] == parsed[k + 1..];
      assert out == before + (if parsed[k].Some? then [Read(PathOf(keep[k]), parsed[k].value)] else []);
      k := k + 1;
    }
  }

  /** `_read_blobs`. */
  method ReadBlobs(decode: Bytes -> string, git: Git, commit: string, paths: seq<string>) returns (out: seq<Read>)
    ensures out == BlobsRead(decode, git, RevsOf(commit, paths))
  {
    var revs := Revisions(commit, paths);
    var sizes := ParseBatchCheck(decode, git.check(revs));
    var keep := KeepWorth(revs, sizes);
    if keep == [] {
      return [];
    }
    var parsed := ParseCatFile(Reader(decode), git.batch(keep));
    out := PairUp(keep, parsed);
  }

  /** The revisions kept by the true sizes are blobs, and pairing them with their own
      frames gives exactly what is wanted. */
  lemma {:induction false} PairedIsWanted(repo: Repo, commit: string, paths: seq<string>)
    requires forall i :: 0 <= i < |commit| ==> commit[i] != ':'
    ensures var revs := RevsOf(commit, paths);
      var keep := Kept(revs, BlobSizes(repo, revs));
      AllBlobs(repo, keep) && Paired(keep, EntriesOf(FramesOf(repo, keep))) == Wanted(repo, commit, paths)
  {
    if paths != [] {
      PairedIsWanted(repo, commit, paths[1..]);
      PathOfRev(commit, paths[0]);
      var revs := RevsOf(commit, paths);
      assert revs[1..] == RevsOf(commit, paths[1..]);
      var keep := Kept(revs[1..], BlobSizes(repo, revs[1..]));
      assert BlobSizes(repo, revs)[1..] == BlobSizes(repo, revs[1..]);
      if Worth(BlobSize(repo, revs[0])) {
        assert ([revs[0]] + keep)[1..] == keep;
      } else {
        assert [] + keep == keep;
      }
    }
  }

  lemma {:induction false} FramesAreOk(repo: Repo, revs: seq<string>)
    requires RepoOk(repo) && AllBlobs(repo, revs)
    ensures forall f :: f in FramesOf(repo, revs) ==> FrameOk(f)
  {
    if revs != [] { FramesAreOk(repo, revs[1..]); }
  }

  /** Every path kept is paired with its own content, in order, for exactly the blobs of
      1 to `MAX_BLOB_BYTES` bytes, unless a missing path holds a line end. */
  lemma ReadBlobsExact(c: Codec, git: Git, repo: Repo, commit: string, paths: seq<string>)
    requires Faithful(c) && RepoOk(repo) && Answers(git, c, repo) && IsSha(commit)
    requires forall p :: p in paths ==> NoNewline(p) && (repo(RevOf(commit, p)).None? ==> NoBreak(p))
    ensures BlobsRead(c.decode, git, RevsOf(commit, paths)) == Wanted(repo, commit, paths)
  {
    var revs := RevsOf(commit, paths);
    if paths != [] {
      RevsAreClean(repo, commit, paths);
      CheckDecodes(c, repo, revs);
      BatchCheckExactly(repo, revs);
      PairedIsWanted(repo, commit, paths);
      var keep := Kept(revs, BlobSizes(repo, revs));
      KeptAreGiven(revs, BlobSizes(repo, revs));
      FramesAreOk(repo, keep);
      CatFileRoundTrip(c, FramesOf(repo, keep));
    }
  }

  lemma {:induction false} RevsAreClean(repo: Repo, commit: string, paths: seq<string>)
    requires IsSha(commit)
    requires forall p :: p in paths ==> NoNewline(p) && (repo(RevOf(commit, p)).None? ==> NoBreak(p))
    ensures forall rev :: rev in RevsOf(commit, paths) ==> NoNewline(rev) && (repo(rev).None? ==> NoBreak(rev))
  {
    if paths != [] {
      RevsAreClean(repo, commit, paths[1..]);
      var p := paths[0];
      assert p in paths;
      var rev := RevOf(commit, p);
      assert forall i :: |commit| < i < |rev| ==> rev[i] == p[i - |commit| - 1];
    }
  }

  // -------------------------------------------------------------------- the log

  datatype LogEntry = LogEntry(commit: string, paths: seq<string>)

  /** One turn of the loop of `_parse_log`. */
  function LogLine(commits: seq<LogEntry>, raw: string): seq<LogEntry> {
    var line := Strip(raw);
    if line == "" then commits
    else if IsSha(line) then commits + [LogEntry(line, [])]
    else if commits == [] then commits
    else
      var n := |commits| - 1;
      commits[..n] + [LogEntry(commits[n].commit, commits[n].paths + [line])]
  }

  function LogLines(commits: seq<LogEntry>, lines: seq<string>): seq<LogEntry>
    decreases |lines|
  {
    if lines == [] then commits else LogLines(LogLine(commits, lines[0]), lines[1..])
  }

  function LogOf(text: string): seq<LogEntry> {
    LogLines([], Lines(text))
  }

  /** `_parse_log`. */
  method ParseLog(text: string) returns (commits: seq<LogEntry>)
    ensures commits == LogOf(text)
  {
    commits := [];
    var current: Option<string> := None;
    var lines := Lines(text);
    for k := 0 to |lines|
      invariant LogLines(commits, lines[k..]) == LogOf(text)
      invariant current.Some? <==> commits != []
    {
      assert lines[k..][0] == lines[k] && lines[k..][1..] == lines[k + 1..];
      var line := Strip(lines[k]);
      if line == "" {
        continue;
      }
      if IsSha(line) {
        current := Some(line);
        commits := commits + [LogEntry(line, [])];
      } else if current.Some? {
        var n := |commits| - 1;
        commits := commits[..n] + [LogEntry(commits[n].commit, commits[n].paths + [line])];
      }
    }
  }

  /** A path as the log parser can hand it on. */
  predicate Plain(path: string) {
    && path != "" && NoBreak(path) && !IsSha(path)
    && !IsSpace(path[0]) && !IsSpace(path[|path| - 1])
  }

  predicate CleanEntry(e: LogEntry) {
    IsSha(e.commit) && forall p :: p in e.paths ==> Plain(p)
  }

  lemma StripPlain(s: string)
    requires NoBreak(s)
    ensures var t := Strip(s); NoBreak(t) && (t != "" ==> !IsSpace(t[0]) && !IsSpace(t[|t| - 1]))
  {
    var t := Strip(s);
    forall i | 0 <= i < |t| ensures !IsBreak(t[i]) {
      assert t[i] in s;
    }
  }

  lemma {:induction false} LogLinesClean(commits: seq<LogEntry>, lines: seq<string>)
    requires forall e :: e in commits ==> CleanEntry(e)
    requires forall s :: s in lines ==> NoBreak(s)
    ensures forall e :: e in LogLines(commits, lines) ==> CleanEntry(e)
    decreases |lines|
  {
    if lines != [] {
      assert lines[0] in lines;
      StripPlain(lines[0]);
      if commits != [] { assert commits[|commits| - 1] in commits; }
      LogLinesClean(LogLine(commits, lines[0]), lines[1..]);
    }
  }

  lemma {:induction false} LinesHaveNoBreak(s: string)
    ensures forall t :: t in Lines(s) ==> NoBreak(t)
    decreases |s|
  {
    if s != "" {
      var n := TextLength(s);
      if n < |s| {
        LinesHaveNoBreak(AfterBreak(s, n));
      } else {
        assert s[..n] == s;
      }
    }
  }

  /** Whatever the log says, every parsed entry is clean. */
  lemma LogIsClean(text: string)
    ensures forall e :: e in LogOf(text) ==> CleanEntry(e)
  {
    LinesHaveNoBreak(text);
    LogLinesClean([], Lines(text));
  }

  /** So the walk over the history always pairs right: for any log text and any
      repository, each commit's blobs are exactly the wanted ones of the parsed paths. */
  lemma HistoryIsExact(c: Codec, git: Git, repo: Repo, text: string, e: LogEntry)
    requires Faithful(c) && RepoOk(repo) && Answers(git, c, repo) && e in LogOf(text)
    ensures BlobsRead(c.decode, git, RevsOf(e.commit, e.paths)) == Wanted(repo, e.commit, e.paths)
  {
    LogIsClean(text);
    CleanReadsExact(c, git, repo, e);
  }

  /** A log as text: a commit, and an empty line and its paths if it has any. */
  ghost function LogText(es: seq<LogEntry>): string {
    if es == [] then "" else EntryText(es[0], LogText(es[1..]))
  }

  ghost function EntryText(e: LogEntry, rest: string): string {
    e.commit + ['\n'] + (PathBlock(e.paths) + rest)
  }

  ghost function PathBlock(paths: seq<string>): string {
    if paths == [] then "" else ['\n'] + PathsText(paths)
  }

  ghost function PathsText(paths: seq<string>): string {
    if paths == [] then "" else paths[0] + ['\n'] + PathsText(paths[1..])
  }

  lemma StripNothing(s: string)
    requires s != "" && !IsSpace(s[0]) && !IsSpace(s[|s| - 1])
    ensures Strip(s) == s
  {
  }

  /** The next line, when it is one line. */
  lemma NextLogLine(commits: seq<LogEntry>, line: string, rest: string)
    requires line != "" && NoBreak(line)
    ensures LogLines(commits, Lines(line + ['\n'] + rest)) == LogLines(LogLine(commits, line), Lines(rest))
  {
    LinesAfter(line, rest);
    LinesOfOne(line);
    assert ([line] + Lines(rest))[1..] == Lines(rest);
  }

  lemma EmptyLogLine(commits: seq<LogEntry>, rest: string)
    ensures LogLines(commits, Lines(['\n'] + rest)) == LogLines(commits, Lines(rest))
  {
    var s := ['\n'] + rest;
    TextLengthIs(s, 0);
    assert AfterBreak(s, 0) == rest && s[..0] == "";
    assert ([""] + Lines(rest))[1..] == Lines(rest);
    assert Strip("") == "";
  }

  lemma LogPath(commits: seq<LogEntry>, e: LogEntry, path: string)
    requires Plain(path)
    ensures LogLine(commits + [e], path) == commits + [LogEntry(e.commit, e.paths + [path])]
  {
    StripNothing(path);
    assert (commits + [e])[..|commits|] == commits;
  }

  lemma {:induction false} LogOfPaths(commits: seq<LogEntry>, e: LogEntry, paths: seq<string>, rest: string)
    requires forall p :: p in paths ==> Plain(p)
    ensures LogLines(commits + [e], Lines(PathsText(paths) + rest)) ==
      LogLines(commits + [LogEntry(e.commit, e.paths + paths)], Lines(rest))
    decreases |paths|
  {
    if paths == [] {
      assert e.paths + [] == e.paths && "" + rest == rest;
    } else {
      var p, tail := paths[0], PathsText(paths[1..]) + rest;
      assert Plain(p);
      Associative(p + ['\n'], PathsText(paths[1..]), rest);
      NextLogLine(commits + [e], p, tail);
      LogPath(commits, e, p);
      LogOfPaths(commits, LogEntry(e.commit, e.paths + [p]), paths[1..], rest);
      Associative(e.paths, [p], paths[1..]);
      assert [p] + paths[1..] == paths;
    }
  }

  lemma ShaHasNoSpace(s: string)
    requires IsSha(s)
    ensures NoBreak(s) && !IsSpace(s[0]) && !IsSpace(s[|s| - 1])
  {
  }

  lemma LogOfBlock(commits: seq<LogEntry>, commit: string, paths: seq<string>, rest: string)
    requires forall p :: p in paths ==> Plain(p)
    ensures LogLines(commits + [LogEntry(commit, [])], Lines(PathBlock(paths) + rest)) ==
      LogLines(commits + [LogEntry(commit, paths)], Lines(rest))
  {
    if paths == [] {
      assert "" + rest == rest;
    } else {
      LogOfPaths(commits, LogEntry(commit, []), paths, rest);
      assert [] + paths == paths;
      EmptyLogLine(commits + [LogEntry(commit, [])], PathsText(paths) + rest);
      Associative(['\n'], PathsText(paths), rest);
    }
  }

  lemma LogOfEntry(commits: seq<LogEntry>, e: LogEntry, rest: string)
    requires CleanEntry(e)
    ensures LogLines(commits, Lines(EntryText(e, rest))) == LogLines(commits + [e], Lines(rest))
  {
    ShaHasNoSpace(e.commit);
    StripNothing(e.commit);
    NextLogLine(commits, e.commit, PathBlock(e.paths) + rest);
    LogOfBlock(commits, e.commit, e.paths, rest);
  }

  ghost predicate CleanLog(es: seq<LogEntry>) {
    es == [] || (CleanEntry(es[0]) && CleanLog(es[1..]))
  }

  lemma {:induction false} CleanEverywhere(es: seq<LogEntry>)
    ensures CleanLog(es) <==> forall e :: e in es ==> CleanEntry(e)
  {
    if es != [] {
      CleanEverywhere(es[1..]);
      assert es == [es[0]] + es[1..];
    }
  }

  type LogReader = (seq<LogEntry>, string) -> seq<LogEntry>

  ghost predicate ReadsEach(read: LogReader) {
    && (forall cs :: read(cs, "") == cs)
    && (forall cs, e, rest :: CleanEntry(e) ==> read(cs, EntryText(e, rest)) == read(cs + [e], rest))
  }

  /** A reader that takes entries one by one takes the whole log. */
  lemma {:induction false} ReadsAll(read: LogReader, commits: seq<LogEntry>, es: seq<LogEntry>)
    requires ReadsEach(read) && CleanLog(es)
    ensures read(commits, LogText(es)) == commits + es
    decreases |es|
  {
    if es == [] {
      assert commits + es == commits;
    } else {
      ReadsAll(read, commits + [es[0]], es[1..]);
      ReadsOne(read, commits, es[0], LogText(es[1..]));
      Associative(commits, [es[0]], es[1..]);
      assert [es[0]] + es[1..] == es;
    }
  }

  lemma ReadsOne(read: LogReader, commits: seq<LogEntry>, e: LogEntry, rest: string)
    requires ReadsEach(read) && CleanEntry(e)
    ensures read(commits, EntryText(e, rest)) == read(commits + [e], rest)
  {
  }

  /** A text with these lines is read back as it was exactly if every entry is clean: a path
      that looks like a commit, is padded with white space, or holds a line end is not. */
  lemma LinesReadBackExactly(es: seq<LogEntry>)
    ensures LogOf(LogText(es)) == es <==> forall e :: e in es ==> CleanEntry(e)
  {
    LogIsClean(LogText(es));
    CleanEverywhere(es);
    if CleanLog(es) {
      var read := (cs, text) => LogLines(cs, Lines(text));
      forall cs ensures read(cs, "") == cs {
        assert Lines("") == [];
      }
      forall cs, e, rest | CleanEntry(e) ensures read(cs, EntryText(e, rest)) == read(cs + [e], rest) {
        LogOfEntry(cs, e, rest);
      }
      ReadsAll(read, [], es);
      assert [] + es == es;
    }
  }

  // ---------------------------------------------------------------- quoted paths

  /** The characters git does not print as they are in a path (`core.quotePath`, on by
      default): control characters, the quote, the backslash, and all beyond ASCII. */
  predicate MustQuote(c: char) {
    c < ' ' || c == '\"' || c == '\\' || c >= 127 as char
  }

  predicate NeedsQuotes(path: string) {
    exists i :: 0 <= i < |path| && MustQuote(path[i])
  }

  function Octal(b: byte): (s: string)
    ensures |s| == 4 && Printable(s)
  {
    ['\\', ('0' as int + b as int / 64) as char, ('0' as int + b as int / 8 % 8) as char,
      ('0' as int + b as int % 8) as char]
  }

  function Octals(bytes: Bytes): (s: string)
    ensures Printable(s) && |s| == 4 * |bytes|
  {
    if bytes == [] then "" else Octal(bytes[0]) + Octals(bytes[1..])
  }

  predicate Printable(s: string) {
    forall i :: 0 <= i < |s| ==> ' ' <= s[i] <= '~'
  }

  /** How git writes a character between quotes. */
  function Escape(c: Codec, ch: char): (s: string)
    ensures Printable(s)
  {
    if !MustQuote(ch) then [ch]
    else if ch == '\"' || ch == '\\' then ['\\', ch]
    else if 7 as char <= ch <= 13 as char then ['\\', "abtnvfr"[ch as int - 7]]
    else Octals(c.encode([ch]))
  }

  function Escapes(c: Codec, path: string): (s: string)
    ensures Printable(s)
  {
    if path == "" then "" else Escape(c, path[0]) + Escapes(c, path[1..])
  }

  /** A path as `git log --name-only` prints it. */
  function Quoted(c: Codec, path: string): string {
    if NeedsQuotes(path) then ['\"'] + Escapes(c, path) + ['\"'] else path
  }

  lemma EscapeIsSomething(c: Codec, ch: char)
    requires Faithful(c)
    ensures Escape(c, ch) != ""
  {
    assert c.decode(c.encode([ch])) == [ch];
  }

  lemma {:induction false} EscapesAreLong(c: Codec, path: string)
    requires Faithful(c)
    ensures |Escapes(c, path)| >= |path|
  {
    if path != "" {
      EscapeIsSomething(c, path[0]);
      EscapesAreLong(c, path[1..]);
    }
  }

  /** Quoting changes exactly the paths that need it, and makes them one line that is no
      commit. */
  lemma QuotedIs(c: Codec, path: string)
    requires Faithful(c)
    ensures Quoted(c, path) == path <==> !NeedsQuotes(path)
    ensures NeedsQuotes(path) ==> Plain(Quoted(c, path))
  {
    if NeedsQuotes(path) {
      EscapesAreLong(c, path);
      QuotesArePlain(Escapes(c, path));
    }
  }

  lemma QuotesArePlain(inner: string)
    requires Printable(inner)
    ensures Plain(['\"'] + inner + ['\"'])
  {
    var q := ['\"'] + inner + ['\"'];
    assert q[0] == '\"' && q[|q| - 1] == '\"';
    assert forall i :: 0 < i < |q| - 1 ==> q[i] == inner[i - 1];
    assert forall i :: 0 <= i < |q| ==> ' ' <= q[i] <= '~';
  }

  ghost function QuotedPaths(c: Codec, paths: seq<string>): (r: seq<string>)
    ensures |r| == |paths| && forall i :: 0 <= i < |paths| ==> r[i] == Quoted(c, paths[i])
  {
    if paths == [] then [] else [Quoted(c, paths[0])] + QuotedPaths(c, paths[1..])
  }

  ghost function QuotedEntries(c: Codec, es: seq<LogEntry>): (r: seq<LogEntry>)
    ensures |r| == |es| && forall i :: 0 <= i < |es| ==> r[i] == LogEntry(es[i].commit, QuotedPaths(c, es[i].paths))
  {
    if es == [] then [] else [LogEntry(es[0].commit, QuotedPaths(c, es[0].paths))] + QuotedEntries(c, es[1..])
  }

  /** What `git log` prints. */
  ghost function GitLog(c: Codec, es: seq<LogEntry>): string {
    LogText(QuotedEntries(c, es))
  }

  /** The entry survives the print: a commit hash, and paths that are clean as printed. */
  ghost predicate Readable(c: Codec, e: LogEntry) {
    IsSha(e.commit) && forall p :: p in e.paths ==> Plain(Quoted(c, p))
  }

  ghost predicate Unquoted(e: LogEntry) {
    forall p :: p in e.paths ==> !NeedsQuotes(p)
  }

  lemma ReadableIsClean(c: Codec, e: LogEntry)
    ensures Readable(c, e) <==> CleanEntry(LogEntry(e.commit, QuotedPaths(c, e.paths)))
  {
    var qs := QuotedPaths(c, e.paths);
    if Readable(c, e) {
      forall q | q in qs ensures Plain(q) {
        var i :| 0 <= i < |qs| && qs[i] == q;
        assert e.paths[i] in e.paths;
      }
    }
    if CleanEntry(LogEntry(e.commit, qs)) {
      forall p | p in e.paths ensures Plain(Quoted(c, p)) {
        var i :| 0 <= i < |qs| && e.paths[i] == p;
        assert qs[i] in qs;
      }
    }
  }

  /** The parser reads the printed paths exactly if every entry is readable. */
  lemma LogReadsQuotedExactly(c: Codec, es: seq<LogEntry>)
    ensures LogOf(GitLog(c, es)) == QuotedEntries(c, es) <==> forall e :: e in es ==> Readable(c, e)
  {
    var qs := QuotedEntries(c, es);
    LinesReadBackExactly(qs);
    if forall e :: e in es ==> Readable(c, e) {
      forall q | q in qs ensures CleanEntry(q) {
        var i :| 0 <= i < |qs| && qs[i] == q;
        assert es[i] in es;
        ReadableIsClean(c, es[i]);
      }
    }
    if forall q :: q in qs ==> CleanEntry(q) {
      forall e | e in es ensures Readable(c, e) {
        var i :| 0 <= i < |es| && es[i] == e;
        assert qs[i] in qs;
        ReadableIsClean(c, e);
      }
    }
  }

  lemma SamePaths(c: Codec, e: LogEntry)
    requires Faithful(c)
    ensures QuotedPaths(c, e.paths) == e.paths <==> Unquoted(e)
  {
    var qs := QuotedPaths(c, e.paths);
    forall i | 0 <= i < |qs| ensures qs[i] == e.paths[i] <==> !NeedsQuotes(e.paths[i]) {
      QuotedIs(c, e.paths[i]);
    }
    if qs == e.paths {
      forall p | p in e.paths ensures !NeedsQuotes(p) {
        var i :| 0 <= i < |e.paths| && e.paths[i] == p;
        assert qs[i] == p;
      }
    }
    if Unquoted(e) {
      forall i | 0 <= i < |qs| ensures qs[i] == e.paths[i] {
        assert e.paths[i] in e.paths;
      }
    }
  }

  lemma SameEntries(c: Codec, es: seq<LogEntry>)
    requires Faithful(c)
    ensures QuotedEntries(c, es) == es <==> forall e :: e in es ==> Unquoted(e)
  {
    var qs := QuotedEntries(c, es);
    forall i | 0 <= i < |es| ensures qs[i] == es[i] <==> Unquoted(es[i]) {
      SamePaths(c, es[i]);
    }
    if qs == es {
      forall e | e in es ensures Unquoted(e) {
        var i :| 0 <= i < |es| && es[i] == e;
        assert qs[i] == es[i];
      }
    }
    if forall e :: e in es ==> Unquoted(e) {
      forall i | 0 <= i < |es| ensures qs[i] == es[i] {
        assert es[i] in es;
      }
    }
  }

  /** The log git prints is read back as it was exactly if every commit is a hash, and every
      path is one stripped line that is no hash and that git prints without quotes. */
  lemma LogRoundTripExactly(c: Codec, es: seq<LogEntry>)
    requires Faithful(c)
    ensures LogOf(GitLog(c, es)) == es <==> forall e :: e in es ==> CleanEntry(e) && Unquoted(e)
  {
    SameEntries(c, es);
    if LogOf(GitLog(c, es)) == es {
      LogIsClean(GitLog(c, es));
      CleanIsReadable(c, es);
      LogReadsQuotedExactly(c, es);
    }
    if forall e :: e in es ==> CleanEntry(e) && Unquoted(e) {
      LinesReadBackExactly(es);
    }
  }

  lemma CleanIsReadable(c: Codec, es: seq<LogEntry>)
    requires Faithful(c) && forall e :: e in es ==> CleanEntry(e)
    ensures forall e :: e in es ==> Readable(c, e)
  {
    forall e, p | e in es && p in e.paths ensures Plain(Quoted(c, p)) {
      QuotedIs(c, p);
    }
  }

  /** The paths that git prints as they are. */
  ghost function AsTheyAre(paths: seq<string>): seq<string> {
    if paths == [] then []
    else (if NeedsQuotes(paths[0]) then [] else [paths[0]]) + AsTheyAre(paths[1..])
  }

  /** No wanted blob has the name that git prints for another. */
  ghost predicate NoQuotedName(c: Codec, repo: Repo, commit: string, paths: seq<string>) {
    forall p :: p in paths && NeedsQuotes(p) ==> WantedOne(repo, commit, Quoted(c, p)) == []
  }

  lemma NextQuoted(c: Codec, repo: Repo, commit: string, p: string, rest: seq<string>)
    ensures Wanted(repo, commit, QuotedPaths(c, [p] + rest)) ==
      WantedOne(repo, commit, if NeedsQuotes(p) then Quoted(c, p) else p) + Wanted(repo, commit, QuotedPaths(c, rest))
    ensures NoQuotedName(c, repo, commit, [p] + rest) <==>
      (NeedsQuotes(p) ==> WantedOne(repo, commit, Quoted(c, p)) == []) && NoQuotedName(c, repo, commit, rest)
  {
    assert ([p] + rest)[1..] == rest;
    assert QuotedPaths(c, [p] + rest)[1..] == QuotedPaths(c, rest);
    assert forall q :: q in [p] + rest <==> q == p || q in rest;
  }

  lemma LongerByParts(a: seq<Read>, b: seq<Read>, p: seq<Read>, q: seq<Read>)
    requires (a == b || b == []) && |p| >= |q|
    ensures |a + p| >= |b + q|
    ensures |a + p| == |b + q| <==> a == b && |p| == |q|
  {
  }

  /** Reading the quoted names adds something exactly if one of them is itself wanted. */
  lemma {:induction false} QuotedAddExactly(c: Codec, repo: Repo, commit: string, paths: seq<string>)
    ensures |Wanted(repo, commit, QuotedPaths(c, paths))| >= |Wanted(repo, commit, AsTheyAre(paths))|
    ensures |Wanted(repo, commit, QuotedPaths(c, paths))| == |Wanted(repo, commit, AsTheyAre(paths))| <==>
      NoQuotedName(c, repo, commit, paths)
    decreases |paths|
  {
    if paths != [] {
      var p, rest := paths[0], paths[1..];
      assert paths == [p] + rest;
      QuotedAddExactly(c, repo, commit, rest);
      NextQuoted(c, repo, commit, p, rest);
      NextWanted(repo, commit, p, rest);
      LongerByParts(
        WantedOne(repo, commit, if NeedsQuotes(p) then Quoted(c, p) else p),
        if NeedsQuotes(p) then [] else WantedOne(repo, commit, p),
        Wanted(repo, commit, QuotedPaths(c, rest)), Wanted(repo, commit, AsTheyAre(rest)));
    }
  }

  lemma {:induction false} QuotedAddNothing(c: Codec, repo: Repo, commit: string, paths: seq<string>)
    requires NoQuotedName(c, repo, commit, paths)
    ensures Wanted(repo, commit, QuotedPaths(c, paths)) == Wanted(repo, commit, AsTheyAre(paths))
    decreases |paths|
  {
    if paths != [] {
      var p, rest := paths[0], paths[1..];
      assert paths == [p] + rest;
      NextQuoted(c, repo, commit, p, rest);
      NextWanted(repo, commit, p, rest);
      QuotedAddNothing(c, repo, commit, rest);
    }
  }

  ghost predicate NothingQuotedIsWanted(repo: Repo, commit: string, paths: seq<string>) {
    forall p :: p in paths && NeedsQuotes(p) ==> WantedOne(repo, commit, p) == []
  }

  lemma NextWanted(repo: Repo, commit: string, p: string, rest: seq<string>)
    ensures Wanted(repo, commit, [p] + rest) == WantedOne(repo, commit, p) + Wanted(repo, commit, rest)
    ensures Wanted(repo, commit, AsTheyAre([p] + rest)) ==
      (if NeedsQuotes(p) then [] else WantedOne(repo, commit, p)) + Wanted(repo, commit, AsTheyAre(rest))
    ensures NothingQuotedIsWanted(repo, commit, [p] + rest) <==>
      (NeedsQuotes(p) ==> WantedOne(repo, commit, p) == []) && NothingQuotedIsWanted(repo, commit, rest)
  {
    assert ([p] + rest)[1..] == rest;
    if NeedsQuotes(p) {
      assert AsTheyAre([p] + rest) == AsTheyAre(rest);
    } else {
      assert AsTheyAre([p] + rest)[1..] == AsTheyAre(rest);
    }
    assert forall q :: q in [p] + rest <==> q == p || q in rest;
  }

  /** Dropping the quoted paths loses something exactly if one of them is wanted. */
  lemma {:induction false} LostExactly(repo: Repo, commit: string, paths: seq<string>)
    ensures |Wanted(repo, commit, AsTheyAre(paths))| <= |Wanted(repo, commit, paths)|
    ensures NothingQuotedIsWanted(repo, commit, paths) ==>
      Wanted(repo, commit, AsTheyAre(paths)) == Wanted(repo, commit, paths)
    ensures |Wanted(repo, commit, AsTheyAre(paths))| == |Wanted(repo, commit, paths)| ==>
      NothingQuotedIsWanted(repo, commit, paths)
    decreases |paths|
  {
    if paths != [] {
      LostExactly(repo, commit, paths[1..]);
      NextWanted(repo, commit, paths[0], paths[1..]);
      assert paths == [paths[0]] + paths[1..];
    }
  }

  /** The walk over the history that git printed reads the names it printed. So it reads the
      blobs of the paths that were printed as they are, each with its own content, exactly if
      no quoted name is itself one of a wanted blob; and then it reads all of a commit's blobs
      exactly if none of its quoted paths is a wanted blob. */
  lemma HistoryReadsExactly(c: Codec, git: Git, repo: Repo, e: LogEntry)
    requires Faithful(c) && RepoOk(repo) && Answers(git, c, repo) && Readable(c, e)
    ensures var read := BlobsRead(c.decode, git, RevsOf(e.commit, QuotedPaths(c, e.paths)));
      && read == Wanted(repo, e.commit, QuotedPaths(c, e.paths))
      && (read == Wanted(repo, e.commit, AsTheyAre(e.paths)) <==> NoQuotedName(c, repo, e.commit, e.paths))
      && (NoQuotedName(c, repo, e.commit, e.paths) ==>
        (read == Wanted(repo, e.commit, e.paths) <==> NothingQuotedIsWanted(repo, e.commit, e.paths)))
  {
    var q := LogEntry(e.commit, QuotedPaths(c, e.paths));
    ReadableIsClean(c, e);
    CleanReadsExact(c, git, repo, q);
    QuotedAddExactly(c, repo, e.commit, e.paths);
    if NoQuotedName(c, repo, e.commit, e.paths) { QuotedAddNothing(c, repo, e.commit, e.paths); }
    LostExactly(repo, e.commit, e.paths);
  }

  lemma CleanReadsExact(c: Codec, git: Git, repo: Repo, e: LogEntry)
    requires Faithful(c) && RepoOk(repo) && Answers(git, c, repo) && CleanEntry(e)
    ensures BlobsRead(c.decode, git, RevsOf(e.commit, e.paths)) == Wanted(repo, e.commit, e.paths)
  {
    forall p | p in e.paths ensures NoNewline(p) {
      assert NoBreak(p);
    }
    ReadBlobsExact(c, git, repo, e.commit, e.paths);
  }
}
