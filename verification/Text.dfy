/**
 * The parts of Rust's string library that the codecs rely on: white space,
 * trimming, splitting, lines and decimal numbers. Strings are sequences of
 * Unicode scalar values.
 */
module Text {
  import opened Wrappers

  const U64_MAX: nat := 0xFFFF_FFFF_FFFF_FFFF

  // ------------------------------------------------------------------
  // White space
  // ------------------------------------------------------------------

  /** The Unicode White_Space property. */
  predicate IsWhitespace(c: char) {
    var u := c as int;
    || 0x9 <= u <= 0xD || u == 0x20 || u == 0x85 || u == 0xA0 || u == 0x1680
    || 0x2000 <= u <= 0x200A || u == 0x2028 || u == 0x2029 || u == 0x202F || u == 0x205F || u == 0x3000
  }

  /** Its 25 characters. */
  lemma WhitespaceAre(c: char)
    ensures IsWhitespace(c) <==> c as int in {
      9, 10, 11, 12, 13, 32, 133, 160, 5760, 8192, 8193, 8194, 8195, 8196, 8197, 8198, 8199, 8200, 8201, 8202,
      8232, 8233, 8239, 8287, 12288
    }
  {
  }

  predicate AllWhitespace(s: string) {
    forall i :: 0 <= i < |s| ==> IsWhitespace(s[i])
  }

  /** Neither end of `s` is white space. */
  predicate IsTrimmed(s: string) {
    s == "" || (!IsWhitespace(s[0]) && !IsWhitespace(s[|s| - 1]))
  }

  function TrimStart(s: string): string {
    if s != "" && IsWhitespace(s[0]) then TrimStart(s[1..]) else s
  }

  function TrimEnd(s: string): string {
    if s != "" && IsWhitespace(s[|s| - 1]) then TrimEnd(s[..|s| - 1]) else s
  }

  function Trim(s: string): string {
    TrimEnd(TrimStart(s))
  }

  lemma {:induction false} TrimStartSkips(w: string, t: string)
    requires AllWhitespace(w)
    ensures TrimStart(w + t) == TrimStart(t)
  {
    if w == "" {
      assert w + t == t;
    } else {
      assert (w + t)[1..] == w[1..] + t;
      TrimStartSkips(w[1..], t);
    }
  }

  lemma {:induction false} TrimEndSkips(t: string, w: string)
    requires AllWhitespace(w)
    ensures TrimEnd(t + w) == TrimEnd(t)
  {
    if w == "" {
      assert t + w == t;
    } else {
      assert (t + w)[..|t + w| - 1] == t + w[..|w| - 1];
      TrimEndSkips(t, w[..|w| - 1]);
    }
  }

  /** What trimming the start drops is white space. */
  lemma {:induction false} TrimStartDrops(s: string) returns (w: string)
    ensures AllWhitespace(w) && s == w + TrimStart(s)
    ensures TrimStart(s) == "" || !IsWhitespace(TrimStart(s)[0])
  {
    w := "";
    if s != "" && IsWhitespace(s[0]) {
      w := TrimStartDrops(s[1..]);
      w := [s[0]] + w;
    }
  }

  lemma {:induction false} TrimEndDrops(s: string) returns (w: string)
    ensures AllWhitespace(w) && s == TrimEnd(s) + w
    ensures TrimEnd(s) == "" || !IsWhitespace(TrimEnd(s)[|TrimEnd(s)| - 1])
  {
    w := "";
    if s != "" && IsWhitespace(s[|s| - 1]) {
      w := TrimEndDrops(s[..|s| - 1]);
      w := w + [s[|s| - 1]];
    }
  }

  lemma TrimIsTrimmed(s: string)
    ensures IsTrimmed(Trim(s))
    ensures forall c :: c in Trim(s) ==> c in s
  {
    var w := TrimStartDrops(s);
    var v := TrimEndDrops(TrimStart(s));
    assert s == w + (Trim(s) + v);
    if Trim(s) != "" {
      assert Trim(s)[0] == TrimStart(s)[0];
    }
  }

  /** White space around a string that has none at its ends is what trimming drops. */
  lemma TrimSurrounded(before: string, s: string, after: string)
    requires AllWhitespace(before) && AllWhitespace(after) && IsTrimmed(s)
    ensures Trim(before + s + after) == s
  {
    assert before + s + after == before + (s + after);
    TrimStartSkips(before, s + after);
    if s == "" {
      assert s + after == after && after + "" == after;
      TrimStartSkips(after, "");
    } else {
      assert TrimStart(s + after) == s + after;
      TrimEndSkips(s, after);
    }
  }

  lemma TrimOfTrimmed(s: string)
    requires IsTrimmed(s)
    ensures Trim(s) == s
  {
    TrimSurrounded("", s, "");
    assert "" + s + "" == s;
  }

  lemma TrimDrops(s: string) returns (before: string, after: string)
    ensures AllWhitespace(before) && AllWhitespace(after) && IsTrimmed(Trim(s))
    ensures s == before + Trim(s) + after
  {
    before := TrimStartDrops(s);
    after := TrimEndDrops(TrimStart(s));
    TrimIsTrimmed(s);
  }

  /** White space after a string goes without a trace. */
  lemma TrimDropsEnd(s: string, c: char)
    requires IsWhitespace(c)
    ensures Trim(s + [c]) == Trim(s)
  {
    var w, v := TrimDrops(s);
    var t := Trim(s);
    assert s + [c] == w + t + (v + [c]);
    TrimSurrounded(w, t, v + [c]);
  }

  // ------------------------------------------------------------------
  // Splitting and joining
  // ------------------------------------------------------------------

  /** `s.split(sep)`: always at least one part. */
  function Split(s: string, sep: char): (parts: seq<string>)
    ensures |parts| >= 1
  {
    if s == "" then [""]
    else
      var rest := Split(s[1..], sep);
      if s[0] == sep then [""] + rest else [[s[0]] + rest[0]] + rest[1..]
  }

  function Join(parts: seq<string>, sep: string): string {
    if |parts| == 0 then ""
    else if |parts| == 1 then parts[0]
    else parts[0] + sep + Join(parts[1..], sep)
  }

  lemma {:induction false} SplitWithoutSeparator(s: string, sep: char)
    requires sep !in s
    ensures Split(s, sep) == [s]
  {
    if s != "" {
      SplitWithoutSeparator(s[1..], sep);
      assert [s[0]] + s[1..] == s;
    }
  }

  lemma {:induction false} SplitAtSeparator(a: string, sep: char, b: string)
    ensures Split(a + [sep] + b, sep) == Split(a, sep) + Split(b, sep)
  {
    if a == "" {
      assert (a + [sep] + b)[1..] == b;
    } else {
      assert (a + [sep] + b)[1..] == a[1..] + [sep] + b;
      SplitAtSeparator(a[1..], sep, b);
    }
  }

  lemma {:induction false} SplitParts(s: string, sep: char)
    ensures forall i :: 0 <= i < |Split(s, sep)| ==> sep !in Split(s, sep)[i]
    ensures Join(Split(s, sep), [sep]) == s
  {
    if s != "" {
      SplitParts(s[1..], sep);
      var rest := Split(s[1..], sep);
      if s[0] == sep {
        assert Split(s, sep)[1..] == rest;
      } else if |rest| > 1 {
        assert Split(s, sep)[1..] == rest[1..];
      }
    }
  }

  lemma {:induction false} SplitChars(s: string, sep: char)
    ensures forall i, c :: 0 <= i < |Split(s, sep)| && c in Split(s, sep)[i] ==> c in s
  {
    if s != "" {
      SplitChars(s[1..], sep);
      assert [s[0]] + s[1..] == s;
    }
  }

  lemma {:induction false} SplitJoin(parts: seq<string>, sep: char)
    requires |parts| > 0 && forall i :: 0 <= i < |parts| ==> sep !in parts[i]
    ensures Split(Join(parts, [sep]), sep) == parts
  {
    SplitWithoutSeparator(parts[0], sep);
    if |parts| > 1 {
      SplitJoin(parts[1..], sep);
      SplitAtSeparator(parts[0], sep, Join(parts[1..], [sep]));
    }
  }

  // ------------------------------------------------------------------
  // Lines
  // ------------------------------------------------------------------

  function StripCr(s: string): string {
    if s != "" && s[|s| - 1] == '\r' then s[..|s| - 1] else s
  }

  function StripCrs(parts: seq<string>): (r: seq<string>)
    ensures |r| == |parts| && forall i :: 0 <= i < |r| ==> r[i] == StripCr(parts[i])
  {
    seq(|parts|, i requires 0 <= i < |parts| => StripCr(parts[i]))
  }

  /**
   * `s.lines()`: a line ends with "\n" or "\r\n", the end of the last one being
   * optional (a lone carriage return there is kept).
   */
  function Lines(s: string): seq<string> {
    var parts := Split(s, '\n');
    var last := parts[|parts| - 1];
    StripCrs(parts[..|parts| - 1]) + (if last == "" then [] else [last])
  }

  function TrimAll(lines: seq<string>): (r: seq<string>)
    ensures |r| == |lines| && forall i :: 0 <= i < |r| ==> r[i] == Trim(lines[i])
  {
    seq(|lines|, i requires 0 <= i < |lines| => Trim(lines[i]))
  }

  /** The lines of `s` with white space trimmed off their ends. */
  function TrimmedLines(s: string): seq<string> {
    TrimAll(Lines(s))
  }

  lemma TrimStripCr(s: string)
    ensures Trim(StripCr(s)) == Trim(s)
  {
    if s != "" && s[|s| - 1] == '\r' {
      TrimDropsEnd(s[..|s| - 1], '\r');
      assert s[..|s| - 1] + ['\r'] == s;
    }
  }

  lemma TrimAllStripCrs(parts: seq<string>)
    ensures TrimAll(StripCrs(parts)) == TrimAll(parts)
  {
    forall i | 0 <= i < |parts| ensures TrimAll(StripCrs(parts))[i] == TrimAll(parts)[i] {
      TrimStripCr(parts[i]);
    }
  }

  lemma TrimAllConcat(a: seq<string>, b: seq<string>)
    ensures TrimAll(a + b) == TrimAll(a) + TrimAll(b)
  {
  }

  /** The last part counts as a line only when it is not empty. */
  function DropEmptyLast(parts: seq<string>): seq<string>
    requires |parts| > 0
  {
    if parts[|parts| - 1] == "" then parts[..|parts| - 1] else parts
  }

  /** Trimmed lines are the trimmed parts between newlines. */
  lemma TrimmedLinesAreParts(s: string)
    ensures TrimmedLines(s) == TrimAll(DropEmptyLast(Split(s, '\n')))
  {
    var parts := Split(s, '\n');
    var init, last := parts[..|parts| - 1], parts[|parts| - 1];
    TrimAllStripCrs(init);
    if last != "" {
      TrimAllConcat(StripCrs(init), [last]);
      TrimAllConcat(init, [last]);
      assert parts == init + [last];
    } else {
      assert Lines(s) == StripCrs(init);
    }
  }

  lemma SplitAtNewline(a: string, b: string)
    ensures Split(a + "\n" + b, '\n') == Split(a, '\n') + Split(b, '\n')
  {
    SplitAtSeparator(a, '\n', b);
    assert a + "\n" + b == a + ['\n'] + b;
  }

  lemma TrimmedPartsConcat(p: seq<string>, q: seq<string>)
    requires |q| > 0
    ensures TrimAll(DropEmptyLast(p + q)) == TrimAll(p) + TrimAll(DropEmptyLast(q))
  {
    assert DropEmptyLast(p + q) == p + DropEmptyLast(q);
    TrimAllConcat(p, DropEmptyLast(q));
  }

  /** A text ending in a newline, followed by another text. */
  lemma TrimmedLinesConcat(a: string, b: string)
    ensures TrimmedLines(a + "\n" + b) == TrimAll(Split(a, '\n')) + TrimmedLines(b)
  {
    var whole := a + "\n" + b;
    SplitAtNewline(a, b);
    TrimmedLinesAreParts(whole);
    TrimmedLinesAreParts(b);
    TrimmedPartsConcat(Split(a, '\n'), Split(b, '\n'));
  }

  lemma LinesBeforeNewline(body: string)
    ensures TrimmedLines(body + "\n") == TrimAll(Split(body, '\n'))
  {
    assert body + "\n" == body + "\n" + "";
    TrimmedLinesConcat(body, "");
  }

  lemma LinesAfterNewline(body: string, rest: string)
    ensures TrimmedLines(body + "\n" + rest) == TrimmedLines(body + "\n") + TrimmedLines(rest)
  {
    LinesBeforeNewline(body);
    TrimmedLinesConcat(body, rest);
  }

  // ------------------------------------------------------------------
  // Decimal numbers
  // ------------------------------------------------------------------

  predicate IsDigit(c: char) {
    '0' <= c <= '9'
  }

  predicate AllDigits(s: string) {
    forall i :: 0 <= i < |s| ==> IsDigit(s[i])
  }

  function DigitValue(c: char): (d: nat)
    requires IsDigit(c)
    ensures d < 10
  {
    c as int - '0' as int
  }

  function DigitChar(d: nat): (c: char)
    requires d < 10
    ensures IsDigit(c) && DigitValue(c) == d
  {
    ('0' as int + d) as char
  }

  function DecimalValue(s: string): nat
    requires AllDigits(s)
  {
    if s == "" then 0 else 10 * DecimalValue(s[..|s| - 1]) + DigitValue(s[|s| - 1])
  }

  function PrintNat(n: nat): (s: string)
    ensures s != "" && AllDigits(s)
    ensures DecimalValue(s) == n
  {
    if n < 10 then [DigitChar(n)] else PrintNat(n / 10) + [DigitChar(n % 10)]
  }

  /** `s.parse::<u64>()`, which also takes a leading plus sign. */
  function ParseU64(s: string): Option<nat> {
    var digits := if s != "" && s[0] == '+' then s[1..] else s;
    if digits != "" && AllDigits(digits) && DecimalValue(digits) <= U64_MAX
    then Some(DecimalValue(digits))
    else None
  }

  lemma ParsePrintU64(n: nat)
    requires n <= 0xFFFF_FFFF_FFFF_FFFF
    ensures ParseU64(PrintNat(n)) == Some(n) == ParseU64("+" + PrintNat(n))
  {
    assert IsDigit(PrintNat(n)[0]);
    assert ("+" + PrintNat(n))[1..] == PrintNat(n);
  }

  lemma PrintNatInjective(m: nat, n: nat)
    requires PrintNat(m) == PrintNat(n)
    ensures m == n
  {
    assert DecimalValue(PrintNat(m)) == m;
  }
}
