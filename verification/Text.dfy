/** The string operations the modules share: splitting at a separator, suffixes, host
    labels, and the host canonical form. */
module Text {

  /** Python's `s.split(c)` for one character. */
  function Split(s: string, c: char): (parts: seq<string>)
    ensures parts != []
  {
    if s == "" then [""] else OneMore(s[0], c, Split(s[1..], c))
  }

  /** The parts of a string with one more character in front. */
  function OneMore(x: char, c: char, parts: seq<string>): (more: seq<string>)
    requires parts != []
    ensures more != []
  {
    if x == c then [""] + parts else [[x] + parts[0]] + parts[1..]
  }

  /** Python's `c.join(parts)`. */
  function Join(parts: seq<string>, c: char): string {
    if parts == [] then ""
    else if |parts| == 1 then parts[0]
    else parts[0] + [c] + Join(parts[1..], c)
  }

  lemma {:induction false} JoinSplit(s: string, c: char)
    ensures Join(Split(s, c), c) == s
  {
    if s != "" {
      JoinSplit(s[1..], c);
      var rest := Split(s[1..], c);
      if s[0] == c {
        assert Split(s, c) == [""] + rest && ([""] + rest)[1..] == rest;
      } else {
        var parts := [[s[0]] + rest[0]] + rest[1..];
        assert parts[1..] == rest[1..];
        assert Join(parts, c) == [s[0]] + Join(rest, c) by {
          if |rest| > 1 {
            assert [s[0]] + (rest[0] + [c] + Join(rest[1..], c)) == ([s[0]] + rest[0]) + [c] + Join(rest[1..], c);
          }
        }
      }
    }
  }

  lemma OneMoreAppend(x: char, c: char, p: seq<string>, q: seq<string>)
    requires p != []
    ensures OneMore(x, c, p + q) == OneMore(x, c, p) + q
  {
    assert (p + q)[1..] == p[1..] + q;
  }

  lemma SplitCons(x: char, s: string, c: char)
    ensures Split([x] + s, c) == OneMore(x, c, Split(s, c))
  {
    assert ([x] + s)[1..] == s;
  }

  lemma {:induction false} SplitAppend(a: string, b: string, c: char)
    ensures Split(a + [c] + b, c) == Split(a, c) + Split(b, c)
    decreases |a|
  {
    if a == "" {
      SplitCons(c, b, c);
      assert "" + [c] + b == [c] + b;
    } else {
      var t := a[1..] + [c] + b;
      SplitAppend(a[1..], b, c);
      SplitCons(a[0], t, c);
      OneMoreAppend(a[0], c, Split(a[1..], c), Split(b, c));
      assert a + [c] + b == [a[0]] + t;
    }
  }

  lemma {:induction false} JoinAppend(p: seq<string>, q: seq<string>, c: char)
    requires p != [] && q != []
    ensures Join(p + q, c) == Join(p, c) + [c] + Join(q, c)
  {
    if |p| == 1 {
      assert (p + q)[1..] == q;
    } else {
      JoinAppend(p[1..], q, c);
      assert (p + q)[1..] == p[1..] + q;
      assert p[0] + [c] + (Join(p[1..], c) + [c] + Join(q, c)) == (p[0] + [c] + Join(p[1..], c)) + [c] + Join(q, c);
    }
  }

  predicate EndsWith(s: string, t: string) {
    |t| <= |s| && s[|s| - |t|..] == t
  }

  /** `host.endswith("." + zone)`. */
  predicate Below(host: string, zone: string) {
    EndsWith(host, "." + zone)
  }

  function Labels(host: string): seq<string> {
    Split(host, '.')
  }

  lemma BelowSplits(host: string, zone: string)
    requires Below(host, zone)
    ensures Labels(host) == Labels(host[..|host| - |zone| - 1]) + Labels(zone)
  {
    var a := host[..|host| - |zone| - 1];
    assert host == a + ['.'] + zone;
    SplitAppend(a, zone, '.');
  }

  lemma SplitsBelow(host: string, zone: string, p: seq<string>)
    requires p != [] && Labels(host) == p + Labels(zone)
    ensures Below(host, zone)
  {
    JoinAppend(p, Labels(zone), '.');
    JoinSplit(host, '.');
    JoinSplit(zone, '.');
    var front := Join(p, '.');
    assert host == front + ['.'] + zone;
    assert host[|front|..] == "." + zone;
  }

  /** The string test means what it should: the labels of the zone are a proper suffix
      of the labels of the host. */
  lemma BelowIsLabelSuffix(host: string, zone: string)
    ensures Below(host, zone) <==> exists p :: p != [] && Labels(host) == p + Labels(zone)
  {
    if Below(host, zone) {
      BelowSplits(host, zone);
      assert Labels(host[..|host| - |zone| - 1]) != [];
    }
    if p :| p != [] && Labels(host) == p + Labels(zone) {
      SplitsBelow(host, zone, p);
    }
  }

  lemma BelowTransitive(a: string, b: string, c: string)
    requires Below(a, b) && Below(b, c)
    ensures Below(a, c)
  {
    var t := "." + c;
    assert b[|b| - |t|..] == t;
    assert a[|a| - |b|..] == b by {
      assert ("." + b)[1..] == b;
      assert a[|a| - |b| - 1..][1..] == a[|a| - |b|..];
    }
    assert a[|a| - |t|..] == a[|a| - |b|..][|b| - |t|..];
  }

  function CountChar(s: string, c: char): nat {
    if s == "" then 0 else (if s[0] == c then 1 else 0) + CountChar(s[1..], c)
  }

  /** ASCII lower case; host names are ASCII. */
  function LowerChar(c: char): char {
    if 'A' <= c <= 'Z' then ((c as int) + 32) as char else c
  }

  function Lower(s: string): (r: string)
    ensures |r| == |s| && forall i :: 0 <= i < |s| ==> r[i] == LowerChar(s[i])
  {
    if s == "" then "" else [LowerChar(s[0])] + Lower(s[1..])
  }

  /** `s.rstrip(".")`. */
  function RStripDots(s: string): string {
    if s != "" && s[|s| - 1] == '.' then RStripDots(s[..|s| - 1]) else s
  }

  /** The form in which host and pattern are compared. */
  function CanonHost(s: string): string {
    Lower(RStripDots(s))
  }

  /** The characters `str.split()` and `str.strip()` take for white space. */
  predicate IsSpace(c: char) {
    var n := c as int;
    || 9 <= n <= 13 || 28 <= n <= 32 || n == 0x85 || n == 0xA0 || n == 0x1680
    || 0x2000 <= n <= 0x200A || n == 0x2028 || n == 0x2029 || n == 0x202F || n == 0x205F || n == 0x3000
  }

  function LStrip(s: string): (r: string)
    ensures r != "" ==> !IsSpace(r[0])
    ensures s != "" && !IsSpace(s[0]) ==> r == s
    ensures forall c :: c in r ==> c in s
  {
    if s != "" && IsSpace(s[0]) then LStrip(s[1..]) else s
  }

  function RStrip(s: string): (r: string)
    ensures r != "" ==> !IsSpace(r[|r| - 1]) && s != "" && r[0] == s[0]
    ensures s != "" && !IsSpace(s[|s| - 1]) ==> r == s
    ensures forall c :: c in r ==> c in s
  {
    if s != "" && IsSpace(s[|s| - 1]) then RStrip(s[..|s| - 1]) else s
  }

  /** `s.strip()`. */
  function Strip(s: string): (r: string)
    ensures r != "" ==> !IsSpace(r[0]) && !IsSpace(r[|r| - 1])
    ensures forall c :: c in r ==> c in s
  {
    RStrip(LStrip(s))
  }

  predicate NoSpace(s: string) {
    forall i :: 0 <= i < |s| ==> !IsSpace(s[i])
  }

  /** The length of the first word. */
  function WordLength(s: string): (n: nat)
    ensures n <= |s| && NoSpace(s[..n]) && (n < |s| ==> IsSpace(s[n]))
  {
    if s == "" || IsSpace(s[0]) then 0
    else
      assert s[1..][..WordLength(s[1..])] == s[1..1 + WordLength(s[1..])];
      1 + WordLength(s[1..])
  }

  /** `s.split()`. */
  function Words(s: string): seq<string> {
    if s == "" then []
    else if IsSpace(s[0]) then Words(s[1..])
    else [s[..WordLength(s)]] + Words(s[WordLength(s)..])
  }

  lemma {:induction false} WordLengthAppend(a: string, x: char, b: string)
    requires IsSpace(x)
    ensures WordLength(a + [x] + b) == WordLength(a)
    decreases |a|
  {
    if a != "" && !IsSpace(a[0]) {
      WordLengthAppend(a[1..], x, b);
      assert (a + [x] + b)[1..] == a[1..] + [x] + b;
    }
  }

  /** White space separates: the words on both sides are those of the parts. */
  lemma {:induction false} WordsAppend(a: string, x: char, b: string)
    requires IsSpace(x)
    ensures Words(a + [x] + b) == Words(a) + Words(b)
    decreases |a|
  {
    if a == "" {
      assert (a + [x] + b)[1..] == b;
    } else if IsSpace(a[0]) {
      WordsAppend(a[1..], x, b);
      assert (a + [x] + b)[1..] == a[1..] + [x] + b;
    } else {
      var n := WordLength(a);
      WordLengthAppend(a, x, b);
      WordsAppend(a[n..], x, b);
      CutAppend(a, x, b, n);
      assert Words(a + [x] + b) == [a[..n]] + (Words(a[n..]) + Words(b));
    }
  }

  lemma CutAppend(a: string, x: char, b: string, n: nat)
    requires n <= |a|
    ensures (a + [x] + b)[n..] == a[n..] + [x] + b && (a + [x] + b)[..n] == a[..n]
  {
  }

  lemma {:induction false} OneWord(w: string)
    requires w != "" && NoSpace(w)
    ensures Words(w) == [w]
  {
    assert WordLength(w) == |w|;
    assert w[|w|..] == "" && w[..|w|] == w;
  }
}
