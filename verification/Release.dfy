/**
 * Release tags, the checksum manifest and asset names
 * (crates/backr-core/src/update/release.rs).
 */
module Release {
  import opened Wrappers
  import opened Text

  // ------------------------------------------------------------------
  // Versions
  // ------------------------------------------------------------------

  datatype Version = Version(major: nat, minor: nat, patch: nat)

  function StripV(s: string): string {
    if s != "" && s[0] == 'v' then s[1..] else s
  }

  /** The text before the first '-' or '+'. */
  function Core(s: string): (core: string)
    ensures core <= s && '-' !in core && '+' !in core
  {
    if s == "" || s[0] == '-' || s[0] == '+' then "" else [s[0]] + Core(s[1..])
  }

  /** Takes and parses the next `n` parts, giving up where there is none or it is no number. */
  function ParseFirst(parts: seq<string>, n: nat): (r: Option<seq<nat>>)
    ensures r.Some? ==> |r.value| == n
    decreases n, parts
  {
    if n == 0 then Some([])
    else if parts == [] then None
    else
      var first :- ParseU64(parts[0]);
      var rest :- ParseFirst(parts[1..], n - 1);
      Some([first] + rest)
  }

  /** The first three dotted numbers; further parts do not matter. */
  function ParseCore(core: string): Option<Version> {
    var numbers :- ParseFirst(Split(core, '.'), 3);
    Some(Version(numbers[0], numbers[1], numbers[2]))
  }

  function ParseVersion(s: string): Option<Version> {
    ParseCore(Core(StripV(Trim(s))))
  }

  /** How a version may be written: "v" or not, three numbers and a tail. */
  datatype Spelling = Spelling(prefix: string, major: string, minor: string, patch: string, tail: string)

  function Dotted(sp: Spelling): string {
    sp.major + "." + sp.minor + "." + sp.patch
  }

  function Spell(sp: Spelling): string {
    sp.prefix + (Dotted(sp) + sp.tail)
  }

  predicate IsNumeral(s: string, n: nat) {
    s != "" && AllDigits(s) && DecimalValue(s) == n && n <= 0xFFFF_FFFF_FFFF_FFFF
  }

  /** The tail is empty, a pre-release or build suffix, or further dotted parts. */
  predicate Spells(sp: Spelling, v: Version) {
    && (sp.prefix == "" || sp.prefix == "v")
    && IsNumeral(sp.major, v.major) && IsNumeral(sp.minor, v.minor) && IsNumeral(sp.patch, v.patch)
    && (sp.tail == "" || sp.tail[0] == '-' || sp.tail[0] == '+' || sp.tail[0] == '.')
  }

  lemma {:induction false} CoreOfConcat(a: string, b: string)
    requires '-' !in a && '+' !in a
    ensures Core(a + b) == a + Core(b)
  {
    if a == "" {
      assert a + b == b;
    } else {
      assert (a + b)[1..] == a[1..] + b;
      CoreOfConcat(a[1..], b);
      assert [a[0]] + a[1..] == a;
    }
  }

  lemma NumeralIsPlain(s: string, n: nat)
    requires IsNumeral(s, n)
    ensures '.' !in s && '-' !in s && '+' !in s && 'v' != s[0]
    ensures ParseU64(s) == Some(n)
  {
    assert IsDigit(s[0]);
    forall c | c in s ensures IsDigit(c) {
    }
  }

  lemma FieldSplit(field: string, rest: string)
    requires '.' !in field
    ensures Split(field + "." + rest, '.') == [field] + Split(rest, '.')
  {
    SplitWithoutSeparator(field, '.');
    SplitAtSeparator(field, '.', rest);
  }

  lemma LastFieldSplit(field: string, rest: string)
    requires '.' !in field && (rest == "" || rest[0] == '.')
    ensures Split(field + rest, '.')[0] == field
  {
    if rest == "" {
      SplitWithoutSeparator(field, '.');
      assert field + rest == field;
    } else {
      FieldSplit(field, rest[1..]);
      assert field + rest == field + "." + rest[1..];
    }
  }

  /** A dotted core splits into its three numbers, the tail only adding further parts. */
  lemma DottedSplit(a: string, b: string, c: string, rest: string)
    requires '.' !in a && '.' !in b && '.' !in c
    requires rest == "" || rest[0] == '.'
    ensures var parts := Split(a + "." + b + "." + c + rest, '.');
      |parts| >= 3 && parts[0] == a && parts[1] == b && parts[2] == c
  {
    assert a + "." + b + "." + c + rest == a + "." + (b + "." + (c + rest));
    FieldSplit(a, b + "." + (c + rest));
    FieldSplit(b, c + rest);
    LastFieldSplit(c, rest);
  }

  lemma CoreOfTail(tail: string)
    requires tail == "" || tail[0] == '-' || tail[0] == '+' || tail[0] == '.'
    ensures Core(tail) == "" || Core(tail)[0] == '.'
  {
  }

  lemma StripSpelled(sp: Spelling, v: Version)
    requires Spells(sp, v)
    ensures StripV(Spell(sp)) == Dotted(sp) + sp.tail
  {
    NumeralIsPlain(sp.major, v.major);
    assert (Dotted(sp) + sp.tail)[0] == sp.major[0];
    if sp.prefix == "v" {
      assert Spell(sp)[1..] == Dotted(sp) + sp.tail;
    } else {
      assert Spell(sp) == Dotted(sp) + sp.tail;
    }
  }

  lemma CoreOfSpelled(sp: Spelling, v: Version)
    requires Spells(sp, v)
    ensures Core(Dotted(sp) + sp.tail) == Dotted(sp) + Core(sp.tail)
  {
    NumeralIsPlain(sp.major, v.major);
    NumeralIsPlain(sp.minor, v.minor);
    NumeralIsPlain(sp.patch, v.patch);
    assert '-' !in Dotted(sp) && '+' !in Dotted(sp);
    CoreOfConcat(Dotted(sp), sp.tail);
  }

  lemma {:induction false} NumberAt(parts: seq<string>, n: nat, i: nat)
    requires ParseFirst(parts, n).Some? && i < n
    ensures n <= |parts| && ParseU64(parts[i]) == Some(ParseFirst(parts, n).value[i])
    decreases n
  {
    if n > 1 {
      NumberAt(parts[1..], n - 1, if i == 0 then 0 else i - 1);
    }
  }

  lemma {:induction false} NumbersParse(parts: seq<string>, n: nat)
    requires n <= |parts| && forall i :: 0 <= i < n ==> ParseU64(parts[i]).Some?
    ensures ParseFirst(parts, n).Some?
    decreases n
  {
    if n > 0 {
      NumbersParse(parts[1..], n - 1);
    }
  }

  lemma FirstThree(p: seq<string>)
    ensures ParseFirst(p, 3).Some? <==>
      |p| >= 3 && ParseU64(p[0]).Some? && ParseU64(p[1]).Some? && ParseU64(p[2]).Some?
    ensures var r := ParseFirst(p, 3);
      r.Some? ==>
        ParseU64(p[0]) == Some(r.value[0]) && ParseU64(p[1]) == Some(r.value[1]) && ParseU64(p[2]) == Some(r.value[2])
  {
    if ParseFirst(p, 3).Some? {
      NumberAt(p, 3, 0);
      NumberAt(p, 3, 1);
      NumberAt(p, 3, 2);
    } else if |p| >= 3 && ParseU64(p[0]).Some? && ParseU64(p[1]).Some? && ParseU64(p[2]).Some? {
      NumbersParse(p, 3);
    }
  }

  /** A core parses exactly if it has three parts or more and the first three are numbers. */
  lemma CoreParses(core: string)
    ensures var p := Split(core, '.');
      ParseCore(core) ==
        if |p| >= 3 && ParseU64(p[0]).Some? && ParseU64(p[1]).Some? && ParseU64(p[2]).Some?
        then Some(Version(ParseU64(p[0]).value, ParseU64(p[1]).value, ParseU64(p[2]).value))
        else None
  {
    FirstThree(Split(core, '.'));
  }

  lemma DottedParses(sp: Spelling, v: Version, rest: string)
    requires Spells(sp, v)
    requires rest == "" || rest[0] == '.'
    ensures ParseCore(Dotted(sp) + rest) == Some(v)
  {
    NumeralIsPlain(sp.major, v.major);
    NumeralIsPlain(sp.minor, v.minor);
    NumeralIsPlain(sp.patch, v.patch);
    DottedSplit(sp.major, sp.minor, sp.patch, rest);
    CoreParses(Dotted(sp) + rest);
  }

  lemma SpellingParses(s: string, sp: Spelling, v: Version)
    requires Spells(sp, v) && Trim(s) == Spell(sp)
    ensures ParseVersion(s) == Some(v)
  {
    StripSpelled(sp, v);
    CoreOfSpelled(sp, v);
    CoreOfTail(sp.tail);
    DottedParses(sp, v, Core(sp.tail));
  }

  lemma PlainNumeral(s: string)
    requires '+' !in s && ParseU64(s).Some?
    ensures IsNumeral(s, ParseU64(s).value)
  {
    assert s == "" || s[0] in s;
  }

  lemma {:induction false} CoreStops(s: string)
    ensures Core(s) == s || (s[|Core(s)|] == '-' || s[|Core(s)|] == '+')
  {
    if s != "" && s[0] != '-' && s[0] != '+' {
      CoreStops(s[1..]);
      assert s == [s[0]] + s[1..];
    }
  }

  lemma PartsHaveNoPlus(core: string)
    requires '+' !in core
    ensures forall i :: 0 <= i < |Split(core, '.')| ==> '+' !in Split(core, '.')[i]
  {
    SplitChars(core, '.');
  }

  /** The first three parts and whatever follows them. */
  lemma ThreeParts(core: string) returns (rest: string)
    requires |Split(core, '.')| >= 3
    ensures var p := Split(core, '.'); core == p[0] + "." + p[1] + "." + p[2] + rest
    ensures rest == "" || rest[0] == '.'
    ensures rest == "" <==> |Split(core, '.')| == 3
  {
    SplitParts(core, '.');
    var p := Split(core, '.');
    rest := JoinOfThree(p);
  }

  lemma JoinOfThree(p: seq<string>) returns (rest: string)
    requires |p| >= 3
    ensures Join(p, ".") == p[0] + "." + p[1] + "." + p[2] + rest
    ensures rest == "" || rest[0] == '.'
    ensures rest == "" <==> |p| == 3
  {
    var q := p[1..];
    var r := q[1..];
    rest := if |p| == 3 then "" else "." + Join(r[1..], ".");
    assert Join(r, ".") == p[2] + rest;
    assert Join(q, ".") == p[1] + "." + (p[2] + rest);
    assert Join(p, ".") == p[0] + "." + (p[1] + "." + (p[2] + rest));
  }

  /** A core that parses is three numbers and, possibly, further dotted parts. */
  lemma ParsedCore(core: string) returns (sp: Spelling)
    requires '+' !in core && ParseCore(core).Some?
    ensures sp.prefix == "" && Spells(sp, ParseCore(core).value) && core == Dotted(sp) + sp.tail
    ensures sp.tail == "" <==> |Split(core, '.')| == 3
  {
    var p := Split(core, '.');
    CoreParses(core);
    var rest := ThreeParts(core);
    PartsHaveNoPlus(core);
    PlainNumeral(p[0]);
    PlainNumeral(p[1]);
    PlainNumeral(p[2]);
    sp := Spelling("", p[0], p[1], p[2], rest);
  }

  /** Text after the core, and a "v" before it, are a spelling's tail and prefix. */
  lemma Extended(bare: Spelling, v: Version, prefix: string, after: string) returns (sp: Spelling)
    requires Spells(bare, v) && (prefix == "" || prefix == "v")
    requires after == "" || after[0] == '-' || after[0] == '+'
    ensures Spells(sp, v) && Spell(sp) == prefix + (Dotted(bare) + bare.tail + after)
  {
    sp := bare.(prefix := prefix, tail := bare.tail + after);
    assert Dotted(bare) + (bare.tail + after) == Dotted(bare) + bare.tail + after;
  }

  lemma ParsedIsSpelled(s: string) returns (sp: Spelling)
    requires ParseVersion(s).Some?
    ensures Spells(sp, ParseVersion(s).value) && Trim(s) == Spell(sp)
  {
    var u := StripV(Trim(s));
    var core := Core(u);
    var bare := ParsedCore(core);
    CoreStops(u);
    assert u == core + u[|core|..];
    var prefix := if u == Trim(s) then "" else "v";
    sp := Extended(bare, ParseVersion(s).value, prefix, u[|core|..]);
    StripVDrops(Trim(s));
  }

  lemma StripVDrops(s: string)
    ensures s == (if StripV(s) == s then "" else "v") + StripV(s)
  {
  }

  /**
   * A tag parses to a version exactly when, apart from white space around it, it
   * spells that version.
   */
  lemma ParsesIff(s: string, v: Version)
    ensures ParseVersion(s) == Some(v) <==> exists sp :: Spells(sp, v) && Trim(s) == Spell(sp)
  {
    if ParseVersion(s) == Some(v) {
      var sp := ParsedIsSpelled(s);
    }
    forall sp | Spells(sp, v) && Trim(s) == Spell(sp) ensures ParseVersion(s) == Some(v) {
      SpellingParses(s, sp, v);
    }
  }

  function PrintVersion(v: Version): string {
    PrintNat(v.major) + "." + PrintNat(v.minor) + "." + PrintNat(v.patch)
  }

  ghost predicate FitsU64(v: Version) {
    v.major <= U64_MAX && v.minor <= U64_MAX && v.patch <= U64_MAX
  }

  /** A pre-release or build suffix, or none. */
  predicate IsSuffix(s: string) {
    s == "" || ((s[0] == '-' || s[0] == '+') && !IsWhitespace(s[|s| - 1]))
  }

  lemma PrintedIsSpelled(v: Version, prefix: string, suffix: string) returns (sp: Spelling)
    requires FitsU64(v) && IsSuffix(suffix) && (prefix == "" || prefix == "v")
    ensures Spells(sp, v) && Spell(sp) == prefix + (PrintVersion(v) + suffix) && sp.tail == suffix
  {
    sp := Spelling(prefix, PrintNat(v.major), PrintNat(v.minor), PrintNat(v.patch), suffix);
    assert Dotted(sp) == PrintVersion(v);
  }

  /**
   * Parsing inverts printing for every triple of 64-bit numbers, with or without
   * "v", with any pre-release or build suffix and any white space around it.
   */
  lemma VersionRoundTrip(v: Version, prefix: string, suffix: string, before: string, after: string)
    requires FitsU64(v) && IsSuffix(suffix) && (prefix == "" || prefix == "v")
    requires AllWhitespace(before) && AllWhitespace(after)
    ensures ParseVersion(before + (prefix + (PrintVersion(v) + suffix)) + after) == Some(v)
  {
    var sp := PrintedIsSpelled(v, prefix, suffix);
    SpelledIsTrimmed(sp, v);
    TrimSurrounded(before, Spell(sp), after);
    SpellingParses(before + Spell(sp) + after, sp, v);
  }

  lemma PrintedVersionParses(v: Version, prefix: string, suffix: string)
    requires FitsU64(v) && IsSuffix(suffix) && (prefix == "" || prefix == "v")
    ensures ParseVersion(prefix + (PrintVersion(v) + suffix)) == Some(v)
  {
    var written := prefix + (PrintVersion(v) + suffix);
    VersionRoundTrip(v, prefix, suffix, "", "");
    NothingAround(written);
  }

  lemma NothingAround(s: string)
    ensures "" + s + "" == s
  {
  }

  lemma SpelledIsTrimmed(sp: Spelling, v: Version)
    requires Spells(sp, v) && (sp.tail == "" || !IsWhitespace(sp.tail[|sp.tail| - 1]))
    ensures IsTrimmed(Spell(sp))
  {
    var s := Spell(sp);
    assert IsDigit(sp.major[0]) && IsDigit(sp.patch[|sp.patch| - 1]);
    assert s[0] == if sp.prefix == "" then sp.major[0] else 'v';
    assert s[|s| - 1] == if sp.tail == "" then sp.patch[|sp.patch| - 1] else sp.tail[|sp.tail| - 1];
  }

  /** The core is X.Y.Z for these numbers, as the documentation asks. */
  ghost predicate IsXYZ(core: string, v: Version) {
    exists sp :: Spells(sp, v) && core == Dotted(sp)
  }

  lemma DottedHasThreeParts(sp: Spelling, v: Version)
    requires Spells(sp, v)
    ensures |Split(Dotted(sp), '.')| == 3
  {
    NumeralIsPlain(sp.major, v.major);
    NumeralIsPlain(sp.minor, v.minor);
    NumeralIsPlain(sp.patch, v.patch);
    var parts := [sp.major, sp.minor, sp.patch];
    var rest := JoinOfThree(parts);
    assert Join(parts, ".") == Dotted(sp) + "" == Dotted(sp);
    SplitJoin(parts, '.');
  }

  /**
   * The documentation promises None unless the core is X.Y.Z. The code keeps that
   * promise exactly when the core has three parts.
   */
  lemma CoreIsXYZIff(s: string)
    requires ParseVersion(s).Some?
    ensures var core := Core(StripV(Trim(s)));
      IsXYZ(core, ParseVersion(s).value) <==> |Split(core, '.')| == 3
  {
    var core := Core(StripV(Trim(s)));
    var v := ParseVersion(s).value;
    forall sp | Spells(sp, v) && core == Dotted(sp) ensures |Split(core, '.')| == 3 {
      DottedHasThreeParts(sp, v);
    }
    var sp := ParsedCore(core);
    if |Split(core, '.')| == 3 {
      assert core == Dotted(sp) + "" == Dotted(sp);
    }
  }

  /** "1.2.3.4" is taken for 1.2.3. */
  lemma FourPartsAreAccepted()
    ensures ParseVersion("1.2.3.4") == Some(Version(1, 2, 3))
  {
    var sp := Spelling("", "1", "2", "3", ".4");
    assert DecimalValue("1") == 1 && DecimalValue("2") == 2 && DecimalValue("3") == 3;
    assert Spells(sp, Version(1, 2, 3));
    assert Spell(sp) == "1.2.3.4";
    SpelledIsTrimmed(sp, Version(1, 2, 3));
    TrimOfTrimmed("1.2.3.4");
    SpellingParses("1.2.3.4", sp, Version(1, 2, 3));
  }

  // ------------------------------------------------------------------
  // Precedence
  // ------------------------------------------------------------------

  predicate After(l: Version, c: Version) {
    || l.major > c.major
    || (l.major == c.major && l.minor > c.minor)
    || (l.major == c.major && l.minor == c.minor && l.patch > c.patch)
  }

  predicate IsNewer(latest: string, current: string) {
    match (ParseVersion(latest), ParseVersion(current))
    case (Some(l), Some(c)) => After(l, c)
    case _ => false
  }

  /** The tag names no later version than the current one, or one of them names none at all. */
  predicate IsCurrent(tag: string, current: string) {
    var l, c := ParseVersion(tag), ParseVersion(current);
    || l.None? || c.None?
    || l.value.major < c.value.major
    || (l.value.major == c.value.major && l.value.minor < c.value.minor)
    || (l.value.major == c.value.major && l.value.minor == c.value.minor && l.value.patch <= c.value.patch)
  }

  lemma NewerIffNotCurrent(latest: string, current: string)
    ensures IsNewer(latest, current) <==> !IsCurrent(latest, current)
  {
  }

  /** Being newer is a strict order, total on tags with different cores. */
  lemma NewerIsStrictOrder(a: string, b: string, c: string)
    ensures !IsNewer(a, a)
    ensures IsNewer(a, b) && IsNewer(b, c) ==> IsNewer(a, c)
    ensures IsNewer(a, b) ==> !IsNewer(b, a)
    ensures ParseVersion(a).Some? && ParseVersion(b).Some? && ParseVersion(a) != ParseVersion(b) ==>
      IsNewer(a, b) || IsNewer(b, a)
    ensures ParseVersion(a).None? || ParseVersion(b).None? ==> !IsNewer(a, b)
  {
  }

  /**
   * Printed versions compare by section 11 of SemVer 2.0.0 on major, minor and
   * patch; a pre-release is never older or newer than its release.
   */
  lemma NewerIsPrecedence(l: Version, c: Version, prefix: string, suffix: string, prefix': string, suffix': string)
    requires FitsU64(l) && IsSuffix(suffix) && (prefix == "" || prefix == "v")
    requires FitsU64(c) && IsSuffix(suffix') && (prefix' == "" || prefix' == "v")
    ensures IsNewer(prefix + (PrintVersion(l) + suffix), prefix' + (PrintVersion(c) + suffix')) <==>
      || l.major > c.major
      || (l.major == c.major && (l.minor > c.minor || (l.minor == c.minor && l.patch > c.patch)))
  {
    PrintedVersionParses(l, prefix, suffix);
    PrintedVersionParses(c, prefix', suffix');
  }

  // ------------------------------------------------------------------
  // The checksum manifest
  // ------------------------------------------------------------------

  function Utf8Length(s: string): nat {
    if s == "" then 0
    else
      var u := s[0] as int;
      (if u < 0x80 then 1 else if u < 0x800 then 2 else if u < 0x1_0000 then 3 else 4) + Utf8Length(s[1..])
  }

  function LowerChar(c: char): char {
    if 'A' <= c <= 'Z' then (c as int + 32) as char else c
  }

  function Lower(s: string): (r: string)
    ensures |r| == |s| && forall i :: 0 <= i < |s| ==> r[i] == LowerChar(s[i])
  {
    seq(|s|, i requires 0 <= i < |s| => LowerChar(s[i]))
  }

  /** `split_once(char::is_whitespace)`. */
  function CutAtWhitespace(s: string): Option<(string, string)> {
    if s == "" then None
    else if IsWhitespace(s[0]) then Some(("", s[1..]))
    else
      match CutAtWhitespace(s[1..])
      case None => None
      case Some((a, b)) => Some(([s[0]] + a, b))
  }

  function SkipMarkers(s: string): string {
    if s != "" && (s[0] == ' ' || s[0] == '*') then SkipMarkers(s[1..]) else s
  }

  datatype Entry = Entry(hex: string, name: string)

  /** What one trimmed line of the manifest says. */
  function ParseLine(line: string): Option<Entry> {
    match CutAtWhitespace(line)
    case None => None
    case Some((hex, rest)) =>
      var name := Trim(SkipMarkers(rest));
      if Utf8Length(hex) == 64 && name != "" then Some(Entry(Lower(hex), name)) else None
  }

  lemma {:induction false} CutAtFirst(s: string)
    ensures CutAtWhitespace(s).None? <==> forall i :: 0 <= i < |s| ==> !IsWhitespace(s[i])
    ensures CutAtWhitespace(s).Some? ==>
      var (a, b) := CutAtWhitespace(s).value;
      && |a| < |s| && IsWhitespace(s[|a|]) && s == a + [s[|a|]] + b
      && forall i :: 0 <= i < |a| ==> !IsWhitespace(a[i])
  {
    if s != "" && !IsWhitespace(s[0]) {
      CutAtFirst(s[1..]);
      assert s == [s[0]] + s[1..];
    }
  }

  /** The line begins with 64 bytes that are not white space, followed by white space and by a name. */
  ghost predicate IsEntryLine(line: string, hex: string, c: char, rest: string) {
    && line == hex + [c] + rest && IsWhitespace(c) && (forall i :: 0 <= i < |hex| ==> !IsWhitespace(hex[i]))
    && Utf8Length(hex) == 64 && Trim(SkipMarkers(rest)) != ""
  }

  lemma EntryLineParses(line: string, hex: string, c: char, rest: string)
    requires IsEntryLine(line, hex, c, rest)
    ensures ParseLine(line).Some?
  {
    CutAfterField(hex, c, rest);
  }

  lemma ParsedIsEntryLine(line: string) returns (hex: string, c: char, rest: string)
    requires ParseLine(line).Some?
    ensures IsEntryLine(line, hex, c, rest)
  {
    CutAtFirst(line);
    hex, rest := CutAtWhitespace(line).value.0, CutAtWhitespace(line).value.1;
    c := line[|hex|];
  }

  /** Exactly these lines are entries of a manifest. */
  lemma ParseLineIff(line: string)
    ensures ParseLine(line).Some? <==> exists hex, c, rest :: IsEntryLine(line, hex, c, rest)
  {
    if ParseLine(line).Some? {
      var hex, c, rest := ParsedIsEntryLine(line);
    }
    forall hex, c, rest | IsEntryLine(line, hex, c, rest) ensures ParseLine(line).Some? {
      EntryLineParses(line, hex, c, rest);
    }
  }

  /** The bytes of one character by the range of its code point. */
  lemma Utf8LengthOfOne(c: char)
    ensures Utf8Length([c]) ==
      if c as int <= 0x7F then 1 else if c as int <= 0x7FF then 2 else if c as int <= 0xFFFF then 3 else 4
  {
    assert Utf8Length([c][1..]) == 0;
  }

  function Sums(lines: seq<string>): map<string, string> {
    if lines == [] then map[]
    else
      var before := Sums(lines[..|lines| - 1]);
      match ParseLine(lines[|lines| - 1])
      case None => before
      case Some(entry) => before[entry.name := entry.hex]
  }

  method ParseSha256Sums(text: string) returns (sums: map<string, string>)
    ensures sums == Sums(TrimmedLines(text))
  {
    sums := map[];
    var lines := Lines(text);
    for n := 0 to |lines|
      invariant sums == Sums(TrimAll(lines)[..n])
    {
      var line := Trim(lines[n]);
      assert TrimAll(lines)[..n + 1][..n] == TrimAll(lines)[..n];
      if line != "" {
        var entry := ParseLine(line);
        if entry.Some? {
          sums := sums[entry.value.name := entry.value.hex];
        }
      }
    }
    assert TrimAll(lines)[..|lines|] == TrimAll(lines);
  }

  ghost predicate Names(lines: seq<string>, i: int, name: string) {
    0 <= i < |lines| && ParseLine(lines[i]).Some? && ParseLine(lines[i]).value.name == name
  }

  /** A name is listed exactly when some line names it, and the last such line counts. */
  lemma {:induction false} LastLineWins(lines: seq<string>, name: string) returns (i: int)
    ensures name in Sums(lines) ==>
      && Names(lines, i, name)
      && Sums(lines)[name] == ParseLine(lines[i]).value.hex
      && forall j :: i < j ==> !Names(lines, j, name)
    ensures name !in Sums(lines) ==> forall j :: !Names(lines, j, name)
  {
    i := 0;
    if lines != [] {
      var init, last := lines[..|lines| - 1], |lines| - 1;
      i := LastLineWins(init, name);
      assert forall j :: j != last ==> (Names(lines, j, name) <==> Names(init, j, name));
      if Names(lines, last, name) {
        i := last;
      }
    }
  }

  predicate IsLowerHex(s: string) {
    forall i :: 0 <= i < |s| ==> IsDigit(s[i]) || 'a' <= s[i] <= 'f'
  }

  /** A hash as `sha256sum` prints it, in either case, and a name it can list. */
  ghost predicate Listable(e: Entry) {
    && |e.hex| == 64 && IsLowerHex(Lower(e.hex))
    && e.name != "" && IsTrimmed(e.name) && e.name[0] != '*' && '\n' !in e.name
  }

  /** One line of `sha256sum`, in text or binary mode. */
  function PrintLine(e: Entry, binary: bool): string {
    e.hex + (if binary then " *" else "  ") + e.name
  }

  function PrintManifest(entries: seq<Entry>, binary: bool): string {
    if entries == [] then ""
    else PrintManifest(entries[..|entries| - 1], binary) + PrintLine(entries[|entries| - 1], binary) + "\n"
  }

  function LastHashes(entries: seq<Entry>): map<string, string> {
    if entries == [] then map[]
    else
      var e := entries[|entries| - 1];
      LastHashes(entries[..|entries| - 1])[e.name := Lower(e.hex)]
  }

  lemma {:induction false} CutAfterField(field: string, c: char, rest: string)
    requires IsWhitespace(c) && forall i :: 0 <= i < |field| ==> !IsWhitespace(field[i])
    ensures CutAtWhitespace(field + [c] + rest) == Some((field, rest))
  {
    if field == "" {
      assert field + [c] + rest == [c] + rest;
    } else {
      assert (field + [c] + rest)[1..] == field[1..] + [c] + rest;
      CutAfterField(field[1..], c, rest);
      assert [field[0]] + field[1..] == field;
    }
  }

  lemma {:induction false} AsciiLength(s: string)
    requires forall i :: 0 <= i < |s| ==> s[i] < 0x80 as char
    ensures Utf8Length(s) == |s|
  {
    if s != "" {
      AsciiLength(s[1..]);
    }
  }

  lemma HexIsPlain(hex: string)
    requires IsLowerHex(Lower(hex))
    ensures forall i :: 0 <= i < |hex| ==> !IsWhitespace(hex[i]) && hex[i] < 0x80 as char && hex[i] != '\n'
  {
    forall i | 0 <= i < |hex| ensures !IsWhitespace(hex[i]) && hex[i] < 0x80 as char && hex[i] != '\n' {
      assert Lower(hex)[i] == LowerChar(hex[i]);
    }
  }

  lemma PrintedLineParses(e: Entry, binary: bool)
    requires Listable(e)
    ensures ParseLine(PrintLine(e, binary)) == Some(Entry(Lower(e.hex), e.name))
  {
    HexIsPlain(e.hex);
    AsciiLength(e.hex);
    var marker := if binary then '*' else ' ';
    assert PrintLine(e, binary) == e.hex + [' '] + ([marker] + e.name);
    CutAfterField(e.hex, ' ', [marker] + e.name);
    assert IsWhitespace(' ');
    assert ([marker] + e.name)[1..] == e.name;
    assert SkipMarkers(e.name) == e.name;
    TrimOfTrimmed(e.name);
  }

  lemma PrintedLineIsOneLine(e: Entry, binary: bool)
    requires Listable(e)
    ensures TrimmedLines(PrintLine(e, binary) + "\n") == [PrintLine(e, binary)]
  {
    var line := PrintLine(e, binary);
    HexIsPlain(e.hex);
    assert '\n' !in e.hex;
    assert '\n' !in line;
    assert line[0] == e.hex[0] && line[|line| - 1] == e.name[|e.name| - 1];
    SplitWithoutSeparator(line, '\n');
    TrimOfTrimmed(line);
    TrimmedLinesConcat(line, "");
    assert line + "\n" + "" == line + "\n";
  }

  /** Lines add up over a text that ends in a newline. */
  lemma LinesAddUp(text: string, more: string)
    requires text == "" || text[|text| - 1] == '\n'
    ensures TrimmedLines(text + more) == TrimmedLines(text) + TrimmedLines(more)
  {
    if text == "" {
      assert text + more == more;
    } else {
      var body := text[..|text| - 1];
      assert text == body + "\n";
      LinesAfterNewline(body, more);
    }
  }

  lemma SumsOfOneMore(lines: seq<string>, line: string)
    requires ParseLine(line).Some?
    ensures Sums(lines + [line]) == Sums(lines)[ParseLine(line).value.name := ParseLine(line).value.hex]
  {
    assert (lines + [line])[..|lines|] == lines;
  }

  /** Parsing a printed manifest gives every name its last hash, in lower case. */
  lemma {:induction false} ManifestRoundTrip(entries: seq<Entry>, binary: bool)
    requires forall i :: 0 <= i < |entries| ==> Listable(entries[i])
    ensures Sums(TrimmedLines(PrintManifest(entries, binary))) == LastHashes(entries)
  {
    if entries != [] {
      var init, e := entries[..|entries| - 1], entries[|entries| - 1];
      var text, line := PrintManifest(init, binary), PrintLine(e, binary);
      ManifestRoundTrip(init, binary);
      assert PrintManifest(entries, binary) == text + (line + "\n");
      LinesAddUp(text, line + "\n");
      PrintedLineIsOneLine(e, binary);
      PrintedLineParses(e, binary);
      SumsOfOneMore(TrimmedLines(text), line);
    }
  }

  // ------------------------------------------------------------------
  // Checksums
  // ------------------------------------------------------------------

  function HexDigit(d: nat): (c: char)
    requires d < 16
    ensures IsDigit(c) || 'a' <= c <= 'f'
  {
    if d < 10 then DigitChar(d) else ('a' as int + d - 10) as char
  }

  function HexByte(b: Byte): string {
    [HexDigit((b as int) / 16), HexDigit((b as int) % 16)]
  }

  function HexOf(bytes: Bytes): (s: string)
    ensures |s| == 2 * |bytes| && IsLowerHex(s)
  {
    if bytes == [] then "" else HexOf(bytes[..|bytes| - 1]) + HexByte(bytes[|bytes| - 1])
  }

  method Sha256Hex(digest: Bytes -> Bytes, bytes: Bytes) returns (out: string)
    ensures out == HexOf(digest(bytes))
  {
    out := "";
    var d := digest(bytes);
    for n := 0 to |d|
      invariant out == HexOf(d[..n])
    {
      assert d[..n + 1][..n] == d[..n];
      out := out + HexByte(d[n]);
    }
    assert d[..|d|] == d;
  }

  lemma HexByteInjective(a: Byte, b: Byte)
    requires HexByte(a) == HexByte(b)
    ensures a == b
  {
    var x, y := a as int, b as int;
    assert HexDigit(x / 16) == HexByte(a)[0] == HexByte(b)[0] == HexDigit(y / 16);
    assert HexDigit(x % 16) == HexByte(a)[1] == HexByte(b)[1] == HexDigit(y % 16);
    HexDigitInjective(x / 16, y / 16);
    HexDigitInjective(x % 16, y % 16);
    assert x == 16 * (x / 16) + x % 16 && y == 16 * (y / 16) + y % 16;
  }

  lemma HexDigitInjective(d: nat, e: nat)
    requires d < 16 && e < 16 && HexDigit(d) == HexDigit(e)
    ensures d == e
  {
    assert d < 10 ==> HexDigit(d) as int == '0' as int + d;
    assert e < 10 ==> HexDigit(e) as int == '0' as int + e;
  }

  lemma HexSplits(bytes: Bytes)
    requires bytes != []
    ensures var s := HexOf(bytes);
      s[..|s| - 2] == HexOf(bytes[..|bytes| - 1]) && s[|s| - 2..] == HexByte(bytes[|bytes| - 1])
  {
  }

  lemma {:induction false} HexInjective(a: Bytes, b: Bytes)
    requires HexOf(a) == HexOf(b)
    ensures a == b
  {
    assert |a| == |b|;
    if a != [] {
      HexSplits(a);
      HexSplits(b);
      HexInjective(a[..|a| - 1], b[..|b| - 1]);
      HexByteInjective(a[|a| - 1], b[|b| - 1]);
      assert a == a[..|a| - 1] + [a[|a| - 1]];
    }
  }

  predicate EqIgnoreAsciiCase(a: string, b: string) {
    Lower(a) == Lower(b)
  }

  /** `verify_sha256` once the file has been read. */
  predicate Verifies(digest: Bytes -> Bytes, bytes: Bytes, expected: string) {
    EqIgnoreAsciiCase(HexOf(digest(bytes)), Trim(expected))
  }

  lemma LowerOfLowerHex(s: string)
    requires IsLowerHex(s)
    ensures Lower(s) == s
  {
  }

  /** The same letter, in either case, or the same character. */
  predicate SameLetter(a: char, b: char) {
    || a == b
    || (65 <= a as int <= 90 && b as int == a as int + 32)
    || (65 <= b as int <= 90 && a as int == b as int + 32)
  }

  lemma LowerCharIff(a: char, b: char)
    ensures LowerChar(a) == LowerChar(b) <==> SameLetter(a, b)
  {
  }

  /** Exactly texts that differ in the case of ASCII letters only are taken for equal. */
  lemma EqIgnoreAsciiCaseIff(a: string, b: string)
    ensures EqIgnoreAsciiCase(a, b) <==> |a| == |b| && forall i :: 0 <= i < |a| ==> SameLetter(a[i], b[i])
  {
    if |a| == |b| {
      forall i | 0 <= i < |a| ensures Lower(a)[i] == Lower(b)[i] <==> SameLetter(a[i], b[i]) {
        LowerCharIff(a[i], b[i]);
      }
      if forall i :: 0 <= i < |a| ==> SameLetter(a[i], b[i]) {
        assert forall i :: 0 <= i < |a| ==> Lower(a)[i] == Lower(b)[i];
      }
    } else {
      assert |Lower(a)| != |Lower(b)|;
    }
  }

  /** Verification succeeds exactly for the hash itself, whatever its case and the space around it. */
  lemma VerifiesIff(digest: Bytes -> Bytes, bytes: Bytes, expected: string)
    ensures Verifies(digest, bytes, expected) <==> Lower(Trim(expected)) == HexOf(digest(bytes))
  {
    LowerOfLowerHex(HexOf(digest(bytes)));
  }

  /** No two digests verify against the same manifest entry. */
  lemma VerifiedContentsShareDigest(digest: Bytes -> Bytes, a: Bytes, b: Bytes, expected: string)
    requires Verifies(digest, a, expected) && Verifies(digest, b, expected)
    ensures digest(a) == digest(b)
  {
    VerifiesIff(digest, a, expected);
    VerifiesIff(digest, b, expected);
    HexInjective(digest(a), digest(b));
  }

  /** What `sha256sum` lists verifies against the contents it was made from, and only those of that digest. */
  lemma ListedHashVerifies(digest: Bytes -> Bytes, made: Bytes, bytes: Bytes)
    ensures Verifies(digest, bytes, HexOf(digest(made))) <==> digest(bytes) == digest(made)
  {
    var hex := HexOf(digest(made));
    LowerOfLowerHex(hex);
    HexIsPlain(hex);
    TrimOfTrimmed(hex);
    VerifiesIff(digest, bytes, hex);
    if Verifies(digest, bytes, hex) {
      HexInjective(digest(bytes), digest(made));
    }
  }

  // ------------------------------------------------------------------
  // Assets
  // ------------------------------------------------------------------

  const CHECKSUM_ASSET := "SHA256SUMS"
  const RELEASE_BINARIES: seq<string> := ["backrd", "backr-app", "backr"]

  datatype ReleaseAsset = ReleaseAsset(name: string, url: string)
  datatype ReleaseInfo = ReleaseInfo(tag: string, assets: seq<ReleaseAsset>)

  function AssetName(bin: string, arch: string): string {
    bin + "-linux-" + arch
  }

  lemma PublishedNames(arch: string)
    ensures AssetName("backrd", arch) == "backrd-linux-" + arch
    ensures AssetName("backr-app", arch) == "backr-app-linux-" + arch
    ensures AssetName("backr", arch) == "backr-linux-" + arch
  {
    assert "backrd" + "-linux-" == "backrd-linux-";
    assert "backr-app" + "-linux-" == "backr-app-linux-";
    assert "backr" + "-linux-" == "backr-linux-";
  }

  /** The first asset of that name. */
  function FindAsset(assets: seq<ReleaseAsset>, name: string): (r: Option<ReleaseAsset>)
    ensures r.Some? ==> r.value in assets && r.value.name == name
    ensures r.None? ==> forall a :: a in assets ==> a.name != name
  {
    if assets == [] then None
    else if assets[0].name == name then Some(assets[0])
    else FindAsset(assets[1..], name)
  }

  /** The downloads of one release never collide with each other or with the manifest. */
  lemma AssetNamesDiffer(bin: string, bin': string, arch: string)
    ensures AssetName(bin, arch) == AssetName(bin', arch) ==> bin == bin'
    ensures AssetName(bin, arch) != CHECKSUM_ASSET
  {
    var suffix := "-linux-" + arch;
    assert AssetName(bin, arch) == bin + suffix && AssetName(bin', arch) == bin' + suffix;
    if bin + suffix == bin' + suffix {
      assert bin == (bin + suffix)[..|bin|] && bin' == (bin' + suffix)[..|bin'|];
    }
    assert AssetName(bin, arch)[|bin|] == '-';
    assert '-' in AssetName(bin, arch) && '-' !in CHECKSUM_ASSET;
  }
}
