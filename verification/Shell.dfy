/**
 * Quoting words for the remote login shell
 * (crates/backr-core/src/host_trust.rs, crates/backr-core/src/backup/ssh.rs),
 * read back by the token rules of the POSIX.1-2017 Shell Command Language.
 */
module Shell {
  import opened Wrappers
  import opened Text

  // ------------------------------------------------------------------
  // Reading words (sections 2.2.1, 2.2.2 and 2.3)
  // ------------------------------------------------------------------

  datatype Mode =
    | Between                 // no word begun
    | BetweenEscaped          // after a backslash between words
    | Word(acc: string)
    | Escaped(acc: string)    // after a backslash inside a word
    | Quoted(acc: string)     // inside single quotes

  datatype Reader = Reader(words: seq<string>, mode: Mode)

  predicate IsBlank(c: char) {
    c == ' ' || c == '\t'
  }

  /** Characters that mean something other than themselves when unquoted (section 2.2). */
  predicate IsSpecial(c: char) {
    c in "|&;<>()$`\"*?[#~%!{}" || c == '\n' || c == '\0'
  }

  /**
   * One character; None where an unquoted special character, or a NUL, would
   * leave the fragment of the language that is just a list of words.
   */
  function Read(r: Reader, c: char): Option<Reader> {
    match r.mode
    case Quoted(acc) =>
      if c == '\'' then Some(r.(mode := Word(acc)))
      else if c == '\0' then None
      else Some(r.(mode := Quoted(acc + [c])))
    case Escaped(acc) =>
      if c == '\n' then Some(r.(mode := Word(acc)))
      else if c == '\0' then None
      else Some(r.(mode := Word(acc + [c])))
    case BetweenEscaped =>
      if c == '\n' then Some(r.(mode := Between))
      else if c == '\0' then None
      else Some(r.(mode := Word([c])))
    case Word(acc) =>
      if IsBlank(c) then Some(Reader(r.words + [acc], Between))
      else if c == '\'' then Some(r.(mode := Quoted(acc)))
      else if c == '\\' then Some(r.(mode := Escaped(acc)))
      else if IsSpecial(c) then None
      else Some(r.(mode := Word(acc + [c])))
    case Between =>
      if IsBlank(c) then Some(r)
      else if c == '\'' then Some(r.(mode := Quoted("")))
      else if c == '\\' then Some(r.(mode := BetweenEscaped))
      else if IsSpecial(c) then None
      else Some(r.(mode := Word([c])))
  }

  function ReadAll(r: Reader, s: string): Option<Reader>
    decreases |s|
  {
    if s == "" then Some(r)
    else
      match Read(r, s[0])
      case None => None
      case Some(next) => ReadAll(next, s[1..])
  }

  /** The words of a command line, or None if it is not a plain list of words. */
  function Tokenize(s: string): Option<seq<string>> {
    match ReadAll(Reader([], Between), s)
    case None => None
    case Some(r) =>
      match r.mode
      case Between => Some(r.words)
      case Word(acc) => Some(r.words + [acc])
      case _ => None
  }

  lemma {:induction false} ReadAllConcat(r: Reader, a: string, b: string)
    ensures ReadAll(r, a + b) ==
      match ReadAll(r, a)
      case None => None
      case Some(next) => ReadAll(next, b)
    decreases |a|
  {
    if a == "" {
      assert a + b == b;
    } else {
      assert (a + b)[1..] == a[1..] + b;
      if Read(r, a[0]).Some? {
        ReadAllConcat(Read(r, a[0]).value, a[1..], b);
      }
    }
  }

  // ------------------------------------------------------------------
  // Quoting one word
  // ------------------------------------------------------------------

  /** `s.replace('\'', "'\\''")`. */
  function ReplaceQuotes(s: string): string {
    if s == "" then "" else (if s[0] == '\'' then "'\\''" else [s[0]]) + ReplaceQuotes(s[1..])
  }

  function BashSingleQuote(s: string): string {
    "'" + ReplaceQuotes(s) + "'"
  }

  /** Between words, `quoted` is read as the one word `word`. */
  ghost predicate IsQuotingOf(quoted: string, word: string) {
    forall words :: ReadAll(Reader(words, Between), quoted) == Some(Reader(words, Word(word)))
  }

  predicate NulFree(s: string) {
    '\0' !in s
  }

  /** Close the quotes, read an escaped quote, open them again. */
  lemma EscapedQuoteIsRead(words: seq<string>, acc: string)
    ensures ReadAll(Reader(words, Quoted(acc)), "'\\''") == Some(Reader(words, Quoted(acc + "'")))
  {
    var r := Reader(words, Quoted(acc));
    assert "'\\''"[1..] == "\\''" && "\\''"[1..] == "''" && "''"[1..] == "'" && "'"[1..] == "";
    assert ReadAll(r.(mode := Word(acc + "'")), "'") == Some(r.(mode := Quoted(acc + "'")));
    assert ReadAll(r.(mode := Escaped(acc)), "''") == Some(r.(mode := Quoted(acc + "'")));
    assert ReadAll(r.(mode := Word(acc)), "\\''") == Some(r.(mode := Quoted(acc + "'")));
  }

  lemma {:induction false} ReplacedQuotesAreRead(words: seq<string>, acc: string, s: string)
    requires NulFree(s)
    ensures ReadAll(Reader(words, Quoted(acc)), ReplaceQuotes(s)) == Some(Reader(words, Quoted(acc + s)))
    decreases |s|
  {
    if s == "" {
      assert acc + s == acc;
    } else {
      var r := Reader(words, Quoted(acc));
      var head := if s[0] == '\'' then "'\\''" else [s[0]];
      if s[0] == '\'' {
        EscapedQuoteIsRead(words, acc);
      } else {
        assert head[1..] == "";
      }
      ReadAllConcat(r, head, ReplaceQuotes(s[1..]));
      ReplacedQuotesAreRead(words, acc + [s[0]], s[1..]);
      assert acc + [s[0]] + s[1..] == acc + s;
    }
  }

  lemma SingleQuoteQuotes(s: string)
    requires NulFree(s)
    ensures IsQuotingOf(BashSingleQuote(s), s)
  {
    forall words ensures ReadAll(Reader(words, Between), BashSingleQuote(s)) == Some(Reader(words, Word(s))) {
      var r := Reader(words, Between);
      var body := ReplaceQuotes(s);
      assert BashSingleQuote(s) == "'" + (body + "'");
      assert "'"[1..] == "";
      ReadAllConcat(r, "'", body + "'");
      ReadAllConcat(Reader(words, Quoted("")), body, "'");
      ReplacedQuotesAreRead(words, "", s);
      assert "" + s == s;
    }
  }

  /** A word without characters that need quoting may also stand for itself. */
  predicate IsBare(s: string) {
    s != "" && forall i :: 0 <= i < |s| ==> !IsSpecial(s[i]) && !IsBlank(s[i]) && s[i] != '\'' && s[i] != '\\'
  }

  lemma {:induction false} BareTail(words: seq<string>, acc: string, s: string)
    requires forall i :: 0 <= i < |s| ==> !IsSpecial(s[i]) && !IsBlank(s[i]) && s[i] != '\'' && s[i] != '\\'
    ensures ReadAll(Reader(words, Word(acc)), s) == Some(Reader(words, Word(acc + s)))
    decreases |s|
  {
    if s == "" {
      assert acc + s == acc;
    } else {
      BareTail(words, acc + [s[0]], s[1..]);
      assert acc + [s[0]] + s[1..] == acc + s;
    }
  }

  lemma BareWordQuotesItself(s: string)
    requires IsBare(s)
    ensures IsQuotingOf(s, s)
  {
    forall words ensures ReadAll(Reader(words, Between), s) == Some(Reader(words, Word(s))) {
      BareTail(words, [s[0]], s[1..]);
      assert [s[0]] + s[1..] == s;
    }
  }

  // ------------------------------------------------------------------
  // Joining an argument vector
  // ------------------------------------------------------------------

  /** `join_remote_command`, for any quoting of the single words. */
  function JoinRemoteCommand(quote: string -> string, argv: seq<string>): string {
    Join(seq(|argv|, i requires 0 <= i < |argv| => quote(argv[i])), " ")
  }

  lemma WordsSoFar(words: seq<string>, argv: seq<string>)
    requires |argv| > 1
    ensures words + [argv[0]] + argv[1..][..|argv| - 2] == words + argv[..|argv| - 1]
    ensures argv[1..][|argv| - 2] == argv[|argv| - 1]
  {
  }

  /** Words that are quoted one by one and joined by spaces are read back one by one. */
  lemma {:induction false} JoinedWordsAreRead(words: seq<string>, quoted: seq<string>, argv: seq<string>)
    requires |quoted| == |argv| > 0
    requires forall i :: 0 <= i < |argv| ==> IsQuotingOf(quoted[i], argv[i])
    ensures ReadAll(Reader(words, Between), Join(quoted, " ")) ==
      Some(Reader(words + argv[..|argv| - 1], Word(argv[|argv| - 1])))
    decreases |argv|
  {
    var r := Reader(words, Between);
    assert ReadAll(r, quoted[0]) == Some(Reader(words, Word(argv[0])));
    if |argv| == 1 {
      assert words + argv[..0] == words;
    } else {
      var rest := Join(quoted[1..], " ");
      assert Join(quoted, " ") == quoted[0] + (" " + rest);
      ReadAllConcat(r, quoted[0], " " + rest);
      assert (" " + rest)[1..] == rest;
      JoinedWordsAreRead(words + [argv[0]], quoted[1..], argv[1..]);
      WordsSoFar(words, argv);
    }
  }

  lemma JoinedRoundTrip(quoted: seq<string>, argv: seq<string>)
    requires |quoted| == |argv| && forall i :: 0 <= i < |argv| ==> IsQuotingOf(quoted[i], argv[i])
    ensures Tokenize(Join(quoted, " ")) == Some(argv)
  {
    if argv != [] {
      JoinedWordsAreRead([], quoted, argv);
      FrontAndLast(argv);
    }
  }

  lemma FrontAndLast(argv: seq<string>)
    requires argv != []
    ensures [] + argv[..|argv| - 1] + [argv[|argv| - 1]] == argv
  {
  }

  /**
   * Round trip: whatever quotes each NUL-free word, the remote shell reconstructs
   * exactly the intended argument vector.
   */
  lemma CommandRoundTrip(quote: string -> string, argv: seq<string>)
    requires forall i :: 0 <= i < |argv| ==> IsQuotingOf(quote(argv[i]), argv[i])
    ensures Tokenize(JoinRemoteCommand(quote, argv)) == Some(argv)
  {
    JoinedRoundTrip(seq(|argv|, i requires 0 <= i < |argv| => quote(argv[i])), argv);
  }

  /** With the repository's own quoter this holds for NUL-free words, and for no others. */
  lemma SingleQuotedRoundTrip(argv: seq<string>)
    ensures Tokenize(JoinRemoteCommand(BashSingleQuote, argv)) == Some(argv) <==>
      forall i :: 0 <= i < |argv| ==> NulFree(argv[i])
  {
    if forall i :: 0 <= i < |argv| ==> NulFree(argv[i]) {
      forall i | 0 <= i < |argv| ensures IsQuotingOf(BashSingleQuote(argv[i]), argv[i]) {
        SingleQuoteQuotes(argv[i]);
      }
      CommandRoundTrip(BashSingleQuote, argv);
    } else {
      var i :| 0 <= i < |argv| && !NulFree(argv[i]);
      assert argv[i] in argv;
      TokensAreNulFree(Reader([], Between), JoinRemoteCommand(BashSingleQuote, argv));
    }
  }

  /** A word that needs no quotes may also be left as it is. */
  predicate IsEscaped(quoted: string, word: string) {
    quoted == BashSingleQuote(word) || (quoted == word && IsBare(word))
  }

  lemma EscapedQuotes(quoted: string, word: string)
    requires NulFree(word) && IsEscaped(quoted, word)
    ensures IsQuotingOf(quoted, word)
  {
    if quoted == BashSingleQuote(word) {
      SingleQuoteQuotes(word);
    } else {
      BareWordQuotesItself(word);
    }
  }

  /**
   * The round trip holds for any mixture of bare and quoted words. A bare first word
   * with "=" would be read as an assignment, not as an argument.
   */
  lemma MixedRoundTrip(quoted: seq<string>, argv: seq<string>)
    requires |quoted| == |argv|
    requires argv != [] && quoted[0] == argv[0] ==> '=' !in argv[0]
    requires forall i :: 0 <= i < |argv| ==> NulFree(argv[i]) && IsEscaped(quoted[i], argv[i])
    ensures Tokenize(Join(quoted, " ")) == Some(argv)
  {
    forall i | 0 <= i < |argv| ensures IsQuotingOf(quoted[i], argv[i]) {
      EscapedQuotes(quoted[i], argv[i]);
    }
    JoinedRoundTrip(quoted, argv);
  }

  function Accumulated(mode: Mode): string {
    match mode
    case Word(acc) => acc
    case Escaped(acc) => acc
    case Quoted(acc) => acc
    case _ => ""
  }

  ghost predicate ReaderNulFree(r: Reader) {
    (forall w :: w in r.words ==> NulFree(w)) && NulFree(Accumulated(r.mode))
  }

  lemma {:induction false} TokensAreNulFree(r: Reader, s: string)
    requires ReaderNulFree(r)
    ensures ReadAll(r, s).Some? ==> ReaderNulFree(ReadAll(r, s).value)
    decreases |s|
  {
    if s != "" && Read(r, s[0]).Some? {
      TokensAreNulFree(Read(r, s[0]).value, s[1..]);
    }
  }
}
