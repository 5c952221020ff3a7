/**
 * Line-level editing of `authorized_keys`
 * (crates/backr-core/src/host_trust.rs).
 *
 * The text edits refine edits of the sequence of trimmed lines.
 */
module AuthorizedKeys {
  import opened Wrappers
  import opened Text

  const KEY_TYPES: seq<string> := [
    "ssh-rsa", "ssh-ed25519", "ssh-dss", "ecdsa-sha2-nistp256", "ecdsa-sha2-nistp384", "ecdsa-sha2-nistp521",
    "sk-ssh-ed25519", "sk-ecdsa-sha2-nistp256"
  ]

  // ------------------------------------------------------------------
  // Recognising and normalising one line
  // ------------------------------------------------------------------

  predicate StartsWithType(line: string, keyType: string) {
    keyType <= line && |keyType| < |line| && IsWhitespace(line[|keyType|])
  }

  /** `validate_pubkey_line`: a known key type followed by white space. */
  predicate IsPubkeyLine(line: string) {
    && !("#" <= line)
    && exists i :: 0 <= i < |KEY_TYPES| && StartsWithType(line, KEY_TYPES[i])
  }

  lemma KnownTypeAccepted(line: string, keyType: string, rest: string)
    requires keyType in KEY_TYPES && line == keyType + rest && rest != "" && IsWhitespace(rest[0])
    ensures IsPubkeyLine(line)
  {
    assert keyType != "" && keyType[0] != '#';
    assert keyType <= line && line[|keyType|] == rest[0];
    assert StartsWithType(line, keyType);
  }

  lemma AcceptedTypeKnown(line: string) returns (keyType: string, rest: string)
    requires IsPubkeyLine(line)
    ensures keyType in KEY_TYPES && line == keyType + rest && rest != "" && IsWhitespace(rest[0])
  {
    var i :| 0 <= i < |KEY_TYPES| && StartsWithType(line, KEY_TYPES[i]);
    keyType := KEY_TYPES[i];
    rest := line[|keyType|..];
  }

  predicate IsKeyType(s: string) {
    s in {
      "ssh-rsa", "ssh-ed25519", "ssh-dss", "ecdsa-sha2-nistp256", "ecdsa-sha2-nistp384", "ecdsa-sha2-nistp521",
      "sk-ssh-ed25519", "sk-ecdsa-sha2-nistp256"
    }
  }

  lemma SameTypes(s: string)
    ensures IsKeyType(s) <==> s in KEY_TYPES
  {
  }

  /** Exactly the keys of these types are accepted, whatever follows the type. */
  lemma KnownKeyTypes(line: string)
    ensures IsPubkeyLine(line) <==>
      exists keyType, rest :: IsKeyType(keyType) && line == keyType + rest && rest != "" && IsWhitespace(rest[0])
  {
    if IsPubkeyLine(line) {
      var keyType, rest := AcceptedTypeKnown(line);
      SameTypes(keyType);
    }
    forall keyType, rest | IsKeyType(keyType) && line == keyType + rest && rest != "" && IsWhitespace(rest[0])
      ensures IsPubkeyLine(line)
    {
      SameTypes(keyType);
      KnownTypeAccepted(line, keyType, rest);
    }
  }

  function RemoveCr(s: string): (r: string)
    ensures forall c :: c in r <==> c in s && c != '\r'
  {
    if s == "" then "" else (if s[0] == '\r' then "" else [s[0]]) + RemoveCr(s[1..])
  }

  /** `normalize_pubkey_line`: the first line, trimmed and without carriage returns. */
  function NormalizePubkeyLine(raw: string): Result<string, string> {
    var lines := Lines(RemoveCr(Trim(raw)));
    var line := Trim(if lines == [] then "" else lines[0]);
    if line == "" then Err("empty pubkey line") else Ok(line)
  }

  /** A line as `NormalizePubkeyLine` returns it. */
  ghost predicate IsNormalized(line: string) {
    line != "" && IsTrimmed(line) && '\n' !in line && '\r' !in line
  }

  lemma NormalizedLines(raw: string)
    ensures NormalizePubkeyLine(raw).Ok? ==> IsNormalized(NormalizePubkeyLine(raw).value)
  {
    var lines := Lines(RemoveCr(Trim(raw)));
    if lines != [] {
      LineChars(RemoveCr(Trim(raw)), 0);
      TrimIsTrimmed(lines[0]);
    } else {
      TrimOfTrimmed("");
    }
  }

  lemma TrimIsEmptyIff(s: string)
    ensures Trim(s) == "" <==> AllWhitespace(s)
  {
    if AllWhitespace(s) {
      TrimSurrounded(s, "", "");
      assert s + "" + "" == s;
    }
    var before, after := TrimDrops(s);
  }

  lemma FirstLineBegins(s: string)
    requires s != "" && s[0] != '\n' && s[0] != '\r'
    ensures Lines(s) != [] && Lines(s)[0] != "" && Lines(s)[0][0] == s[0]
  {
  }

  /** Only blank text is refused. */
  lemma BlankIsRefused(raw: string)
    ensures NormalizePubkeyLine(raw).Err? <==> AllWhitespace(raw)
  {
    TrimIsEmptyIff(raw);
    var t := Trim(raw);
    if t == "" {
      TrimIsEmptyIff("");
    } else {
      TrimIsTrimmed(raw);
      assert RemoveCr(t)[0] == t[0];
      FirstLineBegins(RemoveCr(t));
      TrimIsEmptyIff(Lines(RemoveCr(t))[0]);
    }
  }

  lemma {:induction false} RemoveCrNothing(s: string)
    requires '\r' !in s
    ensures RemoveCr(s) == s
  {
    if s != "" {
      RemoveCrNothing(s[1..]);
      assert [s[0]] + s[1..] == s;
    }
  }

  /** Normalizing twice changes nothing. */
  lemma NormalizeIsIdempotent(line: string)
    requires IsNormalized(line)
    ensures NormalizePubkeyLine(line) == Ok(line)
  {
    TrimOfTrimmed(line);
    RemoveCrNothing(line);
    SplitWithoutSeparator(line, '\n');
    assert Lines(line) == [line];
  }

  /** A line consists of characters of the text and has no newline. */
  lemma LineChars(content: string, i: nat)
    requires i < |Lines(content)|
    ensures forall c :: c in Lines(content)[i] ==> c in content && c != '\n'
  {
    var part := Split(content, '\n')[i];
    SplitParts(content, '\n');
    SplitChars(content, '\n');
    assert forall c :: c in Lines(content)[i] ==> c in part;
  }

  // ------------------------------------------------------------------
  // The keys of a text
  // ------------------------------------------------------------------

  predicate IsKeyLine(trimmed: string) {
    trimmed != "" && !("#" <= trimmed) && IsPubkeyLine(trimmed)
  }

  function KeyLines(lines: seq<string>): seq<string> {
    if lines == [] then [] else (if IsKeyLine(lines[0]) then [lines[0]] else []) + KeyLines(lines[1..])
  }

  /** The trimmed key lines of a text, in order. */
  function Keys(content: string): seq<string> {
    KeyLines(TrimmedLines(content))
  }

  function CountPubkeyLines(content: string): nat {
    |Keys(content)|
  }

  lemma {:induction false} KeyLinesConcat(a: seq<string>, b: seq<string>)
    ensures KeyLines(a + b) == KeyLines(a) + KeyLines(b)
  {
    if a == [] {
      assert a + b == b;
    } else {
      var rest := a[1..];
      assert (a + b)[1..] == rest + b;
      KeyLinesConcat(rest, b);
    }
  }

  lemma {:induction false} KeyLinesMembers(lines: seq<string>)
    ensures forall l :: l in KeyLines(lines) <==> l in lines && IsKeyLine(l)
  {
    if lines != [] {
      KeyLinesMembers(lines[1..]);
      assert lines == [lines[0]] + lines[1..];
    }
  }

  // ------------------------------------------------------------------
  // Appending
  // ------------------------------------------------------------------

  predicate EndsWithNewline(s: string) {
    s != "" && s[|s| - 1] == '\n'
  }

  function Terminated(existing: string): string {
    if existing == "" || EndsWithNewline(existing) then existing else existing + "\n"
  }

  function AppendLine(existing: string, line: string): string {
    Terminated(existing) + line + "\n"
  }

  predicate HasKey(content: string, line: string) {
    exists i :: 0 <= i < |TrimmedLines(content)| && TrimmedLines(content)[i] == line && IsPubkeyLine(line)
  }

  lemma OneLine(line: string)
    requires IsNormalized(line)
    ensures TrimmedLines(line + "\n") == [line]
  {
    SplitWithoutSeparator(line, '\n');
    TrimOfTrimmed(line);
    assert line + "\n" == line + "\n" + "";
    TrimmedLinesConcat(line, "");
  }

  /** Supplying the missing last newline does not change the lines. */
  lemma TerminatedKeepsLines(existing: string)
    ensures TrimmedLines(Terminated(existing)) == TrimmedLines(existing)
  {
    if Terminated(existing) != existing {
      LastPart(existing);
      TrimmedLinesAreParts(existing);
      LinesBeforeNewline(existing);
    }
  }

  /** Appending a line adds exactly that line, whether or not the text ended in a newline. */
  lemma AppendAddsLine(existing: string, line: string)
    requires IsNormalized(line)
    ensures TrimmedLines(AppendLine(existing, line)) == TrimmedLines(existing) + [line]
  {
    var t := Terminated(existing);
    OneLine(line);
    TerminatedKeepsLines(existing);
    assert AppendLine(existing, line) == t + (line + "\n");
    if existing == "" {
      assert AppendLine(existing, line) == line + "\n";
    } else {
      var body := t[..|t| - 1];
      assert t == body + "\n";
      LinesAfterNewline(body, line + "\n");
    }
  }

  /** A key line that is appended is a key of the text, the last one. */
  lemma AppendedKey(existing: string, line: string)
    requires IsNormalized(line) && IsPubkeyLine(line) && !HasKey(existing, line)
    ensures TrimmedLines(AppendLine(existing, line)) == TrimmedLines(existing) + [line]
    ensures Keys(AppendLine(existing, line)) == Keys(existing) + [line]
    ensures HasKey(AppendLine(existing, line), line)
  {
    AppendAddsLine(existing, line);
    var lines, after := TrimmedLines(existing), TrimmedLines(AppendLine(existing, line));
    KeyLinesConcat(lines, [line]);
    assert KeyLines([line]) == [line] + KeyLines([line][1..]);
    assert after[|after| - 1] == line;
  }

  /** The last part of a text is empty only if the text is, or ends in a newline. */
  lemma {:induction false} LastPart(s: string)
    ensures var parts := Split(s, '\n'); parts[|parts| - 1] == "" <==> s == "" || EndsWithNewline(s)
  {
    if s != "" {
      LastPart(s[1..]);
      assert s[1..] != "" ==> s[1..][|s[1..]| - 1] == s[|s| - 1];
    }
  }

  // ------------------------------------------------------------------
  // Removing
  // ------------------------------------------------------------------

  /** The lines whose trimmed text is not `target`, and the number of the others. */
  function Kept(lines: seq<string>, target: string): seq<string> {
    if lines == [] then []
    else (if Trim(lines[0]) != target then [lines[0]] else []) + Kept(lines[1..], target)
  }

  /** The lines other than `target`, in order. */
  function Without(lines: seq<string>, target: string): seq<string> {
    if lines == [] then [] else (if lines[0] != target then [lines[0]] else []) + Without(lines[1..], target)
  }

  /** `lines` as a text again, every one ended by a newline; a blank line alone leaves nothing. */
  function Rejoined(lines: seq<string>): string {
    var joined := Join(lines, "\n");
    if joined != "" then joined + "\n" else joined
  }

  function RemoveLine(content: string, target: string): string {
    Rejoined(Kept(Lines(content), target))
  }

  lemma {:induction false} KeptTrimmed(lines: seq<string>, target: string)
    ensures TrimAll(Kept(lines, target)) == Without(TrimAll(lines), target)
  {
    if lines != [] {
      KeptTrimmed(lines[1..], target);
      assert TrimAll(lines)[1..] == TrimAll(lines[1..]);
      var head := if Trim(lines[0]) != target then [lines[0]] else [];
      TrimAllConcat(head, Kept(lines[1..], target));
    }
  }

  lemma {:induction false} KeptMembers(lines: seq<string>, target: string)
    ensures forall i :: 0 <= i < |Kept(lines, target)| ==> Kept(lines, target)[i] in lines
    ensures |Kept(lines, target)| <= |lines|
  {
    if lines != [] {
      KeptMembers(lines[1..], target);
    }
  }

  /**
   * Removing filters out exactly the matching lines, except that a blank line
   * left on its own vanishes too.
   */
  lemma RemoveFilters(content: string, target: string)
    ensures var rest := Without(TrimmedLines(content), target);
      TrimmedLines(RemoveLine(content, target)) ==
        if Kept(Lines(content), target) == [""] then [] else rest
    ensures Kept(Lines(content), target) == [""] ==> Without(TrimmedLines(content), target) == [""]
  {
    var lines := Lines(content);
    KeptTrimmed(lines, target);
    LinesHaveNoNewline(content);
    KeptHaveNoNewline(lines, target);
    RejoinedLines(Kept(lines, target));
  }

  lemma NothingRejoined(lines: seq<string>)
    requires lines == [] || lines == [""]
    ensures Rejoined(lines) == "" && TrimmedLines("") == []
    ensures TrimAll(lines) == lines
  {
    TrimOfTrimmed("");
  }

  lemma SomeRejoined(lines: seq<string>)
    requires lines != [] && lines != [""] && forall i :: 0 <= i < |lines| ==> '\n' !in lines[i]
    ensures TrimmedLines(Rejoined(lines)) == TrimAll(lines)
  {
    SplitJoin(lines, '\n');
    JoinNotEmpty(lines);
    LinesBeforeNewline(Join(lines, "\n"));
  }

  lemma RejoinedLines(lines: seq<string>)
    requires forall i :: 0 <= i < |lines| ==> '\n' !in lines[i]
    ensures TrimmedLines(Rejoined(lines)) == if lines == [""] then [] else TrimAll(lines)
    ensures lines == [""] ==> TrimAll(lines) == [""]
  {
    if lines == [] || lines == [""] {
      NothingRejoined(lines);
    } else {
      SomeRejoined(lines);
    }
  }

  lemma KeptHaveNoNewline(lines: seq<string>, target: string)
    requires forall i :: 0 <= i < |lines| ==> '\n' !in lines[i]
    ensures forall i :: 0 <= i < |Kept(lines, target)| ==> '\n' !in Kept(lines, target)[i]
  {
    KeptMembers(lines, target);
    var kept := Kept(lines, target);
    forall i | 0 <= i < |kept| ensures '\n' !in kept[i] {
      assert kept[i] in lines;
    }
  }

  lemma LinesHaveNoNewline(content: string)
    ensures forall i :: 0 <= i < |Lines(content)| ==> '\n' !in Lines(content)[i]
  {
    SplitParts(content, '\n');
  }

  lemma JoinNotEmpty(parts: seq<string>)
    requires parts != [] && parts != [""]
    ensures Join(parts, "\n") != ""
  {
    if |parts| == 1 {
      assert parts == [parts[0]];
    }
  }

  lemma {:induction false} WithoutIsFilter(lines: seq<string>, target: string)
    ensures forall l :: l in Without(lines, target) <==> l in lines && l != target
    ensures target !in lines ==> Without(lines, target) == lines
  {
    if lines != [] {
      WithoutIsFilter(lines[1..], target);
      assert lines == [lines[0]] + lines[1..];
    }
  }

  /** Filtering the lines filters the keys. */
  lemma {:induction false} KeysWithout(lines: seq<string>, target: string)
    ensures KeyLines(Without(lines, target)) == Without(KeyLines(lines), target)
  {
    if lines != [] {
      KeysWithout(lines[1..], target);
      var head := if lines[0] != target then [lines[0]] else [];
      KeyLinesConcat(head, Without(lines[1..], target));
      var key := if IsKeyLine(lines[0]) then [lines[0]] else [];
      WithoutConcat(key, KeyLines(lines[1..]), target);
      assert KeyLines([lines[0]]) == key;
    }
  }

  lemma {:induction false} WithoutConcat(a: seq<string>, b: seq<string>, target: string)
    ensures Without(a + b, target) == Without(a, target) + Without(b, target)
  {
    if a == [] {
      assert a + b == b;
    } else {
      assert (a + b)[1..] == a[1..] + b;
      WithoutConcat(a[1..], b, target);
    }
  }

  /** Removing a line removes every copy of that key and no other key. */
  lemma RemoveKeepsOtherKeys(content: string, target: string)
    ensures Keys(RemoveLine(content, target)) == Without(Keys(content), target)
  {
    RemoveFilters(content, target);
    KeysWithout(TrimmedLines(content), target);
    assert KeyLines([""]) == [] == KeyLines([]);
  }

  /** Adding a fresh key and removing it again restores the list of keys. */
  lemma AppendThenRemove(content: string, line: string)
    requires IsNormalized(line) && IsPubkeyLine(line) && !HasKey(content, line)
    ensures Keys(RemoveLine(AppendLine(content, line), line)) == Keys(content)
  {
    AppendAddsLine(content, line);
    RemoveKeepsOtherKeys(AppendLine(content, line), line);
    RemoveLastKey(TrimmedLines(content), line);
  }

  lemma RemoveLastKey(lines: seq<string>, line: string)
    requires line !in lines
    ensures Without(KeyLines(lines + [line]), line) == KeyLines(lines)
  {
    KeyLinesConcat(lines, [line]);
    KeyLinesMembers(lines);
    WithoutIsFilter(KeyLines(lines), line);
    var key := if IsKeyLine(line) then [line] else [];
    assert KeyLines([line]) == key;
    WithoutConcat(KeyLines(lines), key, line);
  }

  // ------------------------------------------------------------------
  // Listing
  // ------------------------------------------------------------------

  datatype PubkeyEntry = PubkeyEntry(keyType: string, keyB64: string, comment: string, rawLine: string)

  /** `s.split_once(' ')`-style cut at the first space. */
  function CutAtSpace(s: string): Option<(string, string)> {
    if s == "" then None
    else if s[0] == ' ' then Some(("", s[1..]))
    else
      match CutAtSpace(s[1..])
      case None => None
      case Some((a, b)) => Some(([s[0]] + a, b))
  }

  /** `splitn(3, ' ')` on one trimmed key line; no entry without a second field. */
  function ParseEntry(line: string): Option<PubkeyEntry> {
    match CutAtSpace(line)
    case None => None
    case Some((keyType, rest)) =>
      match CutAtSpace(rest)
      case None => Some(PubkeyEntry(keyType, rest, "", line))
      case Some((b64, comment)) => Some(PubkeyEntry(keyType, b64, Trim(comment), line))
  }

  function ParseEntries(lines: seq<string>): seq<PubkeyEntry> {
    if lines == [] then []
    else
      var rest := ParseEntries(lines[1..]);
      if IsKeyLine(lines[0]) && ParseEntry(lines[0]).Some? then [ParseEntry(lines[0]).value] + rest else rest
  }

  function ParsePubkeyEntries(content: string): seq<PubkeyEntry> {
    ParseEntries(TrimmedLines(content))
  }

  lemma {:induction false} CutAtFirstSpace(s: string)
    ensures CutAtSpace(s).None? <==> ' ' !in s
    ensures CutAtSpace(s).Some? ==>
      var (a, b) := CutAtSpace(s).value; ' ' !in a && s == a + " " + b
  {
    if s != "" && s[0] != ' ' {
      CutAtFirstSpace(s[1..]);
      assert s == [s[0]] + s[1..];
      if CutAtSpace(s[1..]).Some? {
        var (a, b) := CutAtSpace(s[1..]).value;
        assert [s[0]] + (a + " " + b) == ([s[0]] + a) + " " + b;
      }
    }
  }

  /** Listed entries are counted lines, and all of them, exactly when each has a space. */
  lemma {:induction false} ListedEqualsCounted(lines: seq<string>)
    ensures |ParseEntries(lines)| <= |KeyLines(lines)|
    ensures |ParseEntries(lines)| == |KeyLines(lines)| <==> forall l :: l in KeyLines(lines) ==> ' ' in l
  {
    if lines != [] {
      ListedEqualsCounted(lines[1..]);
      CutAtFirstSpace(lines[0]);
    }
  }

  /** Every counted key of a file is listed exactly when each has a space in it. */
  lemma ListedEqualsCountedIn(content: string)
    ensures |ParsePubkeyEntries(content)| == CountPubkeyLines(content) <==> forall l :: l in Keys(content) ==> ' ' in l
  {
    ListedEqualsCounted(TrimmedLines(content));
  }

  lemma KeyTypeHasNoSpace(i: nat)
    requires i < |KEY_TYPES|
    ensures ' ' !in KEY_TYPES[i] && |KEY_TYPES[i]| > 0 && KEY_TYPES[i][0] != '#'
  {
  }

  lemma CutAfter(field: string, rest: string)
    requires ' ' !in field
    ensures CutAtSpace(field + " " + rest) == Some((field, rest))
  {
    if field == "" {
      assert field + " " + rest == " " + rest;
    } else {
      assert (field + " " + rest)[1..] == field[1..] + " " + rest;
      CutAfter(field[1..], rest);
      assert [field[0]] + field[1..] == field;
    }
  }

  /** Fields separated by single spaces are read back, whatever the comment contains. */
  lemma EntryRoundTrip(keyType: string, body: string, comment: string)
    requires ' ' !in keyType && ' ' !in body && IsTrimmed(comment)
    ensures var line := keyType + " " + (body + " " + comment);
      ParseEntry(line) == Some(PubkeyEntry(keyType, body, comment, line))
    ensures var line := keyType + " " + body; ParseEntry(line) == Some(PubkeyEntry(keyType, body, "", line))
  {
    CutAfter(keyType, body);
    CutAtFirstSpace(body);
    CutAfter(keyType, body + " " + comment);
    CutAfter(body, comment);
    TrimOfTrimmed(comment);
  }

  /** A key whose fields are separated by tabs is counted but not listed. */
  lemma TabSeparatedKeyIsNotListed(keyType: string, body: string)
    requires keyType in KEY_TYPES && ' ' !in body
    ensures var lines := [keyType + "\t" + body]; |KeyLines(lines)| == 1 && ParseEntries(lines) == []
  {
    var i :| 0 <= i < |KEY_TYPES| && KEY_TYPES[i] == keyType;
    KeyTypeHasNoSpace(i);
    var line := keyType + "\t" + body;
    assert StartsWithType(line, KEY_TYPES[i]);
    CutAtFirstSpace(line);
    assert KeyLines([line][1..]) == [] && ParseEntries([line][1..]) == [];
  }

  // ------------------------------------------------------------------
  // The file
  // ------------------------------------------------------------------

  datatype AppendReport =
    | Appended(count: nat)
    | SkippedDuplicate(count: nat)
    | NotWritable // the operator is handed a sudo snippet instead

  datatype RemoveReport = RemoveReport(removed: bool, count: nat)

  class TrustStore {
    // The text of the file, or None when there is no file.
    var file: Option<string>
    const writable: bool

    constructor (file: Option<string>, writable: bool)
      ensures this.file == file && this.writable == writable
    {
      this.file := file;
      this.writable := writable;
    }

    ghost function Contents(): string
      reads this
    {
      if file.Some? then file.value else ""
    }

    /** Appends a key unless it is there already. */
    method Append(raw: string) returns (report: Result<AppendReport, string>)
      modifies this`file
      ensures report.Err? <==>
        NormalizePubkeyLine(raw).Err? || !IsPubkeyLine(NormalizePubkeyLine(raw).value)
      ensures report.Err? ==> file == old(file)
      ensures report.Ok? ==>
        var line := NormalizePubkeyLine(raw).value;
        if HasKey(old(Contents()), line) then
          report.value.SkippedDuplicate? && file == old(file) && report.value.count == |Keys(Contents())|
        else if !writable then
          report.value.NotWritable? && file == old(file)
        else
          && report.value.Appended? && file.Some? && report.value.count == |Keys(Contents())|
          && TrimmedLines(Contents()) == TrimmedLines(old(Contents())) + [line]
          && Keys(Contents()) == Keys(old(Contents())) + [line]
          && HasKey(Contents(), line)
    {
      var normalized := NormalizePubkeyLine(raw);
      if normalized.Err? {
        return Err(normalized.error);
      }
      var line := normalized.value;
      NormalizedLines(raw);
      if !IsPubkeyLine(line) {
        return Err("not a recognized OpenSSH public key line");
      }
      var existing := if file.Some? then file.value else "";
      if HasKey(existing, line) {
        return Ok(SkippedDuplicate(CountPubkeyLines(existing)));
      }
      if !writable {
        return Ok(NotWritable);
      }
      AppendedKey(existing, line);
      if existing != "" && !EndsWithNewline(existing) {
        existing := existing + "\n";
      }
      existing := existing + line;
      existing := existing + "\n";
      file := Some(existing);
      return Ok(Appended(CountPubkeyLines(existing)));
    }

    /** Removes every line whose trimmed text is the trimmed `raw`. */
    method Remove(raw: string) returns (report: RemoveReport)
      modifies this`file
      ensures report.count == |Keys(Contents())|
      ensures report.removed <==> Trim(raw) in TrimmedLines(old(Contents()))
      ensures !report.removed ==> file == old(file)
      ensures Keys(Contents()) == Without(old(Keys(Contents())), Trim(raw))
      ensures report.removed ==>
        || TrimmedLines(Contents()) == Without(TrimmedLines(old(Contents())), Trim(raw))
        || (TrimmedLines(Contents()) == [] && Without(TrimmedLines(old(Contents())), Trim(raw)) == [""])
    {
      if file.None? {
        return RemoveReport(false, 0);
      }
      var content := file.value;
      var target := Trim(raw);
      var kept := Kept(Lines(content), target);
      KeptCount(Lines(content), target);
      WithoutIsFilter(Keys(content), target);
      KeyLinesMembers(TrimmedLines(content));
      if |kept| == |Lines(content)| {
        return RemoveReport(false, CountPubkeyLines(content));
      }
      RemoveKeepsOtherKeys(content, target);
      RemoveFilters(content, target);
      var newContent := Join(kept, "\n");
      if newContent != "" {
        newContent := newContent + "\n";
      }
      file := Some(newContent);
      return RemoveReport(true, CountPubkeyLines(newContent));
    }
  }

  lemma {:induction false} KeptCount(lines: seq<string>, target: string)
    ensures |Kept(lines, target)| <= |lines|
    ensures |Kept(lines, target)| == |lines| <==> target !in TrimAll(lines)
  {
    if lines != [] {
      KeptCount(lines[1..], target);
      assert TrimAll(lines) == [Trim(lines[0])] + TrimAll(lines[1..]);
    }
  }
}
