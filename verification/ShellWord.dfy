/** Reading shell words, and the quoting that prints a path as one of them (section 2.2 of the POSIX.1-2017
    Shell Command Language). */
module ShellWord {
  import opened Basics

  datatype Word = Word(value: string, quoted: bool, expands: bool)

  predicate IsWhitespace(ch: char) {
    || '\t' <= ch <= '\r' || ch == ' ' || ch == '\U{85}' || ch == '\U{A0}' || ch == '\U{1680}'
    || '\U{2000}' <= ch <= '\U{200A}' || ch == '\U{2028}' || ch == '\U{2029}' || ch == '\U{202F}'
    || ch == '\U{205F}' || ch == '\U{3000}'
  }

  predicate IsLineBreak(ch: char) { ch == '\n' || ch == '\r' }

  /** Outside quotes these end a word. */
  predicate EndsWord(ch: char) {
    IsWhitespace(ch) || ch == '<' || ch == '>' || ch == ';' || ch == '&' || ch == '|' || ch == '(' || ch == ')'
  }

  predicate IsQuote(ch: char) { ch == '\'' || ch == '"' }

  /** A word being read, with the quote that is open, if any. */
  datatype Reading = Reading(word: Word, quote: Option<char>) {
    function Push(ch: char): Reading {
      this.(word := word.(value := word.value + [ch]))
    }

    function Toggle(open: Option<char>): Reading {
      this.(quote := open, word := word.(quoted := word.quoted || open.Some?))
    }
  }

  /** `None` for text that is not a plain word; otherwise the reading and what is left. */
  type Scan = Option<(Reading, string)>

  predicate Stops(r: Reading, ch: char, multiline: bool) {
    || (IsLineBreak(ch) && !(multiline && r.quote.Some?))
    || (r.quote == None && EndsWord(ch))
  }

  /** The characters an ordinary character adds to what the word may expand to. */
  predicate Expands(quote: Option<char>, ch: char) {
    || (quote != Some('\'') && (ch == '$' || ch == '`'))
    || (quote == None && (ch == '*' || ch == '?' || ch == '[' || ch == '~' || ch == '{' || ch == '}'))
  }

  /** Inside double quotes a backslash quotes only these. */
  predicate StaysEscaped(ch: char) { ch == '$' || ch == '`' || ch == '"' || ch == '\\' }

  predicate IsBlank(ch: char) { ch == ' ' || ch == '\t' || ch == '\r' }

  /** One turn of the reader: how many characters go, and the reading after them. */
  function Turn(r: Reading, rest: string): Option<(Reading, nat)>
    requires rest != []
    ensures Turn(r, rest).Some? ==> 1 <= Turn(r, rest).value.1 <= |rest|
  {
    var ch := rest[0];
    if r.quote == None && ch == '$' && |rest| > 1 && IsQuote(rest[1]) then None
    else if r.quote == Some(ch) then Some((r.Toggle(None), 1))
    else if r.quote == None && IsQuote(ch) then Some((r.Toggle(Some(ch)), 1))
    else if ch == '\\' && r.quote != Some('\'') then
      if |rest| == 1 then None
      else if rest[1] == '\n' then Some((r, 2))
      else if rest[1] == '\r' && |rest| > 2 && rest[2] == '\n' then Some((r, 3))
      else
        var kept := if r.quote == Some('"') && !StaysEscaped(rest[1]) then r.Push('\\') else r;
        Some((kept.(word := kept.word.(quoted := true)).Push(rest[1]), 2))
    else
      Some((r.(word := r.word.(expands := r.word.expands || Expands(r.quote, ch))).Push(ch), 1))
  }

  function ScanFrom(r: Reading, rest: string, multiline: bool): Scan
    decreases |rest|
  {
    if rest == [] || Stops(r, rest[0], multiline) then Some((r, rest))
    else match Turn(r, rest)
      case None => None
      case Some((next, n)) => ScanFrom(next, rest[n..], multiline)
  }

  const START: Reading := Reading(Word("", false, false), None)

  /** The word at the front of `rest` and what follows it. */
  function WordAt(rest: string, multiline: bool): Option<(Word, string)> {
    match ScanFrom(START, rest, multiline)
    case None => None
    case Some((r, left)) => if |left| < |rest| && r.quote == None then Some((r.word, left)) else None
  }

  function TrimSpace(rest: string): string {
    if rest != [] && IsBlank(rest[0]) then TrimSpace(rest[1..]) else rest
  }

  function SkippedSpace(rest: string): (left: string)
    ensures |left| <= |rest|
    decreases |rest|
  {
    var trimmed := TrimSpace(rest);
    TrimShortens(rest);
    if |trimmed| >= 2 && trimmed[..2] == "\\\n" then SkippedSpace(trimmed[2..])
    else if |trimmed| >= 3 && trimmed[..3] == "\\\r\n" then SkippedSpace(trimmed[3..])
    else trimmed
  }

  lemma TrimShortens(rest: string)
    ensures |TrimSpace(rest)| <= |rest| && TrimSpace(TrimSpace(rest)) == TrimSpace(rest)
  {
  }

  class Header {
    var rest: string

    constructor (source: string)
      ensures rest == source
    {
      rest := source;
    }

    method SkipSpace()
      modifies this
      ensures rest == SkippedSpace(old(rest))
    {
      while true
        invariant SkippedSpace(rest) == SkippedSpace(old(rest))
        decreases |rest|
      {
        TrimShortens(rest);
        rest := TrimSpace(rest);
        if |rest| >= 2 && rest[..2] == "\\\n" {
          rest := rest[2..];
        } else if |rest| >= 3 && rest[..3] == "\\\r\n" {
          rest := rest[3..];
        } else {
          break;
        }
      }
    }

    method ReadWord(multiline: bool) returns (word: Option<Word>)
      modifies this
      ensures match WordAt(old(rest), multiline)
              case None => word == None
              case Some((w, left)) => word == Some(w) && rest == left
    {
      var start := |rest|;
      var value, quoted, expands := "", false, false;
      var quote: Option<char> := None;
      while rest != [] && !Stops(Reading(Word(value, quoted, expands), quote), rest[0], multiline)
        invariant |rest| <= start
        invariant ScanFrom(Reading(Word(value, quoted, expands), quote), rest, multiline) ==
                  ScanFrom(START, old(rest), multiline)
        decreases |rest|
      {
        var ch := rest[0];
        if quote == None && ch == '$' && |rest| > 1 && IsQuote(rest[1]) {
          rest := rest[1..];
          return None;
        }
        var taken := 1;
        if quote == Some(ch) {
          quote := None;
        } else if quote == None && IsQuote(ch) {
          quoted, quote := true, Some(ch);
        } else if ch == '\\' && quote != Some('\'') {
          if |rest| == 1 {
            rest := [];
            return None;
          }
          var next := rest[1];
          if next == '\n' {
            taken := 2;
          } else if next == '\r' && |rest| > 2 && rest[2] == '\n' {
            taken := 3;
          } else {
            if quote == Some('"') && !StaysEscaped(next) {
              value := value + ['\\'];
            }
            quoted, value, taken := true, value + [next], 2;
          }
        } else {
          expands := expands || Expands(quote, ch);
          value := value + [ch];
        }
        rest := rest[taken..];
      }
      word := if |rest| < start && quote == None then Some(Word(value, quoted, expands)) else None;
    }
  }

  // ---- printing ----

  const QUOTE_IN_QUOTES: string := "'\"'\"'"

  /** The path with each single quote closed, double-quoted and reopened. */
  function Escaped(path: string): string {
    if path == [] then [] else (if path[0] == '\'' then QUOTE_IN_QUOTES else [path[0]]) + Escaped(path[1..])
  }

  function Quoted(path: string): string { "'" + Escaped(path) + "'" }

  predicate HasLineBreak(path: string) { exists k | 0 <= k < |path| :: IsLineBreak(path[k]) }

  /** Inside single quotes with `value` read so far. */
  function Inside(value: string): Reading { Reading(Word(value, true, false), Some('\'')) }

  lemma OneTurn(r: Reading, ch: char, after: string, multiline: bool)
    requires !Stops(r, ch, multiline) && Turn(r, [ch] + after).Some? && Turn(r, [ch] + after).value.1 == 1
    ensures ScanFrom(r, [ch] + after, multiline) == ScanFrom(Turn(r, [ch] + after).value.0, after, multiline)
  {
    assert ([ch] + after)[1..] == after;
  }

  /** A single quote printed inside single quotes is read as that one character. */
  lemma QuoteInQuotes(value: string, after: string, multiline: bool)
    ensures ScanFrom(Inside(value), QUOTE_IN_QUOTES + after, multiline) ==
            ScanFrom(Inside(value + "'"), after, multiline)
  {
    hide ScanFrom;
    var open := Reading(Word(value, true, false), None);
    var a4 := "'" + after;
    var a3 := "\"" + a4;
    var a2 := "'" + a3;
    var a1 := "\"" + a2;
    assert QUOTE_IN_QUOTES + after == ['\''] + a1;
    OneTurn(Inside(value), '\'', a1, multiline);
    OneTurn(open, '"', a2, multiline);
    OneTurn(open.Toggle(Some('"')), '\'', a3, multiline);
    OneTurn(open.Toggle(Some('"')).Push('\''), '"', a4, multiline);
    OneTurn(open.Push('\''), '\'', after, multiline);
  }

  lemma PlainInQuotes(value: string, ch: char, after: string, multiline: bool)
    requires ch != '\'' && (multiline || !IsLineBreak(ch))
    ensures ScanFrom(Inside(value), [ch] + after, multiline) == ScanFrom(Inside(value + [ch]), after, multiline)
  {
    hide ScanFrom;
    OneTurn(Inside(value), ch, after, multiline);
  }

  lemma StopsHere(r: Reading, ch: char, after: string)
    requires Stops(r, ch, false)
    ensures ScanFrom(r, [ch] + after, false) == Some((r, [ch] + after))
  {
  }

  /** Reading the escaped path inside single quotes: all of it, or up to a line break that may not be quoted. */
  lemma {:induction false} EscapedReads(path: string, value: string, after: string, multiline: bool)
    ensures multiline || !HasLineBreak(path) ==>
              ScanFrom(Inside(value), Escaped(path) + after, multiline) ==
              ScanFrom(Inside(value + path), after, multiline)
    ensures !multiline && HasLineBreak(path) ==>
              var scan := ScanFrom(Inside(value), Escaped(path) + after, multiline);
              scan.Some? && scan.value.0.quote.Some?
    decreases |path|
  {
    hide ScanFrom, Turn;
    if path == [] {
      assert Escaped(path) + after == after && value + path == value;
    } else {
      var ch, tail := path[0], Escaped(path[1..]) + after;
      assert value + path == value + [ch] + path[1..];
      LineBreakSplit(path);
      EscapedReads(path[1..], value + [ch], after, multiline);
      if ch == '\'' {
        assert Escaped(path) + after == QUOTE_IN_QUOTES + tail;
        QuoteInQuotes(value, tail, multiline);
      } else {
        assert Escaped(path) + after == [ch] + tail;
        if multiline || !IsLineBreak(ch) {
          PlainInQuotes(value, ch, tail, multiline);
        } else {
          StopsHere(Inside(value), ch, tail);
        }
      }
    }
  }

  lemma LineBreakSplit(path: string)
    requires path != []
    ensures HasLineBreak(path) <==> IsLineBreak(path[0]) || HasLineBreak(path[1..])
  {
    assert forall k | 1 <= k < |path| :: path[k] == path[1..][k - 1];
    assert forall k | 0 <= k < |path| - 1 :: path[1..][k] == path[k + 1];
  }

  predicate AtWordEnd(after: string) { after == [] || EndsWord(after[0]) }

  /** The printed path is read back as one quoted, non-expanding word of exactly that value if and only
      if it holds no line break, or line breaks are allowed inside quotes. */
  lemma QuotedReadsBack(path: string, after: string, multiline: bool)
    requires AtWordEnd(after)
    ensures WordAt(Quoted(path) + after, multiline) ==
            if multiline || !HasLineBreak(path) then Some((Word(path, true, false), after)) else None
  {
    hide ScanFrom, Turn, HasLineBreak, Escaped, EndsWord;
    var body := Escaped(path) + ("'" + after);
    assert Quoted(path) + after == ['\''] + body;
    TurnQuote(body);
    OneTurn(START, '\'', body, multiline);
    EscapedReads(path, "", "'" + after, multiline);
    assert "" + path == path;
    if multiline || !HasLineBreak(path) {
      TurnClosingQuote(path, after);
      assert "'" + after == ['\''] + after;
      OneTurn(Inside(path), '\'', after, multiline);
      EndsHere(Open(path, true, false), after, multiline);
    }
  }

  lemma TurnClosingQuote(value: string, after: string)
    ensures Turn(Inside(value), ['\''] + after) == Some((Open(value, true, false), 1))
    ensures !Stops(Inside(value), '\'', false) && !Stops(Inside(value), '\'', true)
  {
  }

  // ---- words quoted otherwise ----

  /** Outside quotes, or inside double quotes, with so much read. */
  function Open(value: string, quoted: bool, expands: bool): Reading { Reading(Word(value, quoted, expands), None) }

  function InDouble(value: string, expands: bool): Reading { Reading(Word(value, true, expands), Some('"')) }

  lemma TwoTurn(r: Reading, ch: char, after: string, multiline: bool)
    requires !Stops(r, '\\', multiline)
    requires Turn(r, ['\\', ch] + after).Some? && Turn(r, ['\\', ch] + after).value.1 == 2
    ensures ScanFrom(r, ['\\', ch] + after, multiline) ==
            ScanFrom(Turn(r, ['\\', ch] + after).value.0, after, multiline)
  {
    assert (['\\', ch] + after)[2..] == after;
  }

  /** What a word outside quotes may expand for: substitutions and patterns. */
  const PATTERNS: string := "$`*?[~{}"

  predicate ExpandsAny(quote: Option<char>, text: string) { exists k | 0 <= k < |text| :: Expands(quote, text[k]) }

  lemma ExpandsSplit(quote: Option<char>, text: string)
    requires text != []
    ensures ExpandsAny(quote, text) <==> Expands(quote, text[0]) || ExpandsAny(quote, text[1..])
  {
    assert forall k | 1 <= k < |text| :: text[k] == text[1..][k - 1];
    assert forall k | 0 <= k < |text| - 1 :: text[1..][k] == text[k + 1];
  }

  /** A character that outside quotes stands for itself or for a pattern. */
  predicate IsBare(ch: char) { !EndsWord(ch) && !IsLineBreak(ch) && !IsQuote(ch) && ch != '\\' }

  /** A bare word is read as it stands, and may expand exactly if it holds a `$`, a backquote or a pattern. */
  lemma {:induction false} BareReads(text: string, value: string, expands: bool, after: string, multiline: bool)
    requires (forall ch <- text :: IsBare(ch)) && AtWordEnd(after)
    ensures ScanFrom(Open(value, false, expands), text + after, multiline) ==
            Some((Open(value + text, false, expands || ExpandsAny(None, text)), after))
    decreases |text|
  {
    hide Turn, Expands, EndsWord;
    if text == [] {
      assert text + after == after && value + text == value;
      EndsHere(Open(value, false, expands), after, multiline);
    } else {
      var ch, rest := text[0], text[1..];
      assert text[0] in text && forall c <- rest :: c in text;
      assert text + after == [ch] + (rest + after) && value + text == value + [ch] + rest;
      NoQuoteNext(rest, after);
      BareTurn(Open(value, false, expands), ch, rest + after);
      OneTurn(Open(value, false, expands), ch, rest + after, multiline);
      ExpandsSplit(None, text);
      BareReads(rest, value + [ch], expands || Expands(None, ch), after, multiline);
    }
  }

  lemma EndsHere(r: Reading, after: string, multiline: bool)
    requires r.quote == None && AtWordEnd(after)
    ensures ScanFrom(r, after, multiline) == Some((r, after))
  {
  }

  lemma NoQuoteNext(rest: string, after: string)
    requires (forall ch <- rest :: IsBare(ch)) && AtWordEnd(after)
    ensures rest + after != [] ==> !IsQuote((rest + after)[0])
  {
    assert rest != [] ==> rest[0] in rest;
  }

  lemma BareTurn(r: Reading, ch: char, after: string)
    requires r.quote == None && IsBare(ch) && (after != [] ==> !IsQuote(after[0]))
    ensures Turn(r, [ch] + after) ==
            Some((r.(word := r.word.(expands := r.word.expands || Expands(None, ch))).Push(ch), 1))
    ensures !Stops(r, ch, false) && !Stops(r, ch, true)
  {
  }

  /** Each character behind a backslash. */
  function Backslashed(text: string): string {
    if text == [] then [] else ['\\', text[0]] + Backslashed(text[1..])
  }

  /** Outside quotes a backslash makes any character but a line break stand for itself. */
  lemma {:induction false} BackslashedReads(text: string, value: string, quoted: bool, after: string, multiline: bool)
    requires !HasLineBreak(text) && AtWordEnd(after)
    ensures ScanFrom(Open(value, quoted, false), Backslashed(text) + after, multiline) ==
            Some((Open(value + text, quoted || text != [], false), after))
    decreases |text|
  {
    hide Turn, EndsWord;
    if text == [] {
      assert Backslashed(text) + after == after && value + text == value;
      EndsHere(Open(value, quoted, false), after, multiline);
    } else {
      var ch, rest := text[0], Backslashed(text[1..]) + after;
      assert Backslashed(text) + after == ['\\', ch] + rest && value + text == value + [ch] + text[1..];
      LineBreakSplit(text);
      BackslashTurn(value, quoted, ch, rest);
      TwoTurn(Open(value, quoted, false), ch, rest, multiline);
      BackslashedReads(text[1..], value + [ch], true, after, multiline);
    }
  }

  lemma BackslashTurn(value: string, quoted: bool, ch: char, after: string)
    requires !IsLineBreak(ch)
    ensures Turn(Open(value, quoted, false), ['\\', ch] + after) == Some((Open(value + [ch], true, false), 2))
    ensures !Stops(Open(value, quoted, false), '\\', false) && !Stops(Open(value, quoted, false), '\\', true)
  {
  }

  /** Text for double quotes: a backslash before each character that it quotes there. */
  function DoubleEscaped(text: string): string {
    if text == [] then []
    else (if StaysEscaped(text[0]) then ['\\', text[0]] else [text[0]]) + DoubleEscaped(text[1..])
  }

  lemma {:induction false} DoubleEscapedReads(text: string, value: string, after: string, multiline: bool)
    requires multiline || !HasLineBreak(text)
    ensures ScanFrom(InDouble(value, false), DoubleEscaped(text) + after, multiline) ==
            ScanFrom(InDouble(value + text, false), after, multiline)
    decreases |text|
  {
    hide ScanFrom, Turn;
    if text == [] {
      assert DoubleEscaped(text) + after == after && value + text == value;
    } else {
      var ch, rest := text[0], DoubleEscaped(text[1..]) + after;
      assert value + text == value + [ch] + text[1..];
      LineBreakSplit(text);
      DoubleTurn(value, ch, rest);
      if StaysEscaped(ch) {
        assert DoubleEscaped(text) + after == ['\\', ch] + rest;
        TwoTurn(InDouble(value, false), ch, rest, multiline);
      } else {
        assert DoubleEscaped(text) + after == [ch] + rest;
        OneTurn(InDouble(value, false), ch, rest, multiline);
      }
      DoubleEscapedReads(text[1..], value + [ch], after, multiline);
    }
  }

  /** Inside double quotes a backslash quotes only what `DoubleEscaped` puts one before, and otherwise stays. */
  lemma DoubleTurn(value: string, ch: char, after: string)
    ensures StaysEscaped(ch) ==>
              Turn(InDouble(value, false), ['\\', ch] + after) == Some((InDouble(value + [ch], false), 2))
    ensures !StaysEscaped(ch) && !IsLineBreak(ch) ==>
              Turn(InDouble(value, false), ['\\', ch] + after) ==
              Some((InDouble(value + ['\\', ch], false), 2))
    ensures !StaysEscaped(ch) ==>
              Turn(InDouble(value, false), [ch] + after) == Some((InDouble(value + [ch], false), 1))
  {
    assert value + ['\\'] + [ch] == value + ['\\', ch];
  }

  /** Text escaped for double quotes, between them, is read back as one quoted word that does not expand. */
  lemma DoubleQuotedReadsBack(text: string, after: string, multiline: bool)
    requires (multiline || !HasLineBreak(text)) && AtWordEnd(after)
    ensures WordAt("\"" + DoubleEscaped(text) + "\"" + after, multiline) == Some((Word(text, true, false), after))
  {
    var body := DoubleEscaped(text) + ("\"" + after);
    assert "\"" + DoubleEscaped(text) + "\"" + after == ['"'] + body;
    OneTurn(START, '"', body, multiline);
    DoubleEscapedReads(text, "", "\"" + after, multiline);
    assert "" + text == text;
    OneTurn(InDouble(text, false), '"', after, multiline);
    EndsHere(Open(text, true, false), after, multiline);
  }

  /** So is text with a backslash before each character, */
  lemma BackslashedReadsBack(text: string, after: string, multiline: bool)
    requires text != [] && !HasLineBreak(text) && AtWordEnd(after)
    ensures WordAt(Backslashed(text) + after, multiline) == Some((Word(text, true, false), after))
  {
    hide ScanFrom, HasLineBreak, EndsWord;
    assert "" + text == text;
    BackslashedReads(text, "", false, after, multiline);
  }

  /** and bare text is read as it stands. */
  lemma BareReadsBack(text: string, after: string, multiline: bool)
    requires text != [] && (forall ch <- text :: IsBare(ch)) && AtWordEnd(after)
    ensures WordAt(text + after, multiline) ==
            Some((Word(text, false, exists k | 0 <= k < |text| :: text[k] in PATTERNS), after))
  {
    assert forall ch :: Expands(None, ch) == (ch in PATTERNS);
    hide ScanFrom, IsBare, Expands, EndsWord;
    assert "" + text == text;
    BareReads(text, "", false, after, multiline);
  }

  /** Inside double quotes text without quotes and backslashes is read as it stands, and expands exactly if it
      holds a `$` or a backquote. */
  lemma {:induction false} DoubleExpands(text: string, value: string, expands: bool, after: string, multiline: bool)
    requires (multiline || !HasLineBreak(text)) && '"' !in text && '\\' !in text
    ensures ScanFrom(InDouble(value, expands), text + after, multiline) ==
            ScanFrom(InDouble(value + text, expands || '$' in text || '`' in text), after, multiline)
    decreases |text|
  {
    hide ScanFrom;
    if text == [] {
      assert text + after == after && value + text == value;
    } else {
      var ch, rest := text[0], text[1..];
      assert text == [ch] + rest;
      assert text + after == [ch] + (rest + after) && value + text == value + [ch] + rest;
      LineBreakSplit(text);
      OneTurn(InDouble(value, expands), ch, rest + after, multiline);
      DoubleExpands(rest, value + [ch], expands || ch == '$' || ch == '`', after, multiline);
    }
  }

  /** A continued line end within a word, or inside double quotes, is no part of it. */
  lemma ContinuedLine(r: Reading, after: string, multiline: bool)
    requires r.quote == None || r.quote == Some('"')
    ensures ScanFrom(r, "\\\n" + after, multiline) == ScanFrom(r, after, multiline)
    ensures ScanFrom(r, "\\\r\n" + after, multiline) == ScanFrom(r, after, multiline)
  {
    assert ("\\\n" + after)[2..] == after && ("\\\r\n" + after)[3..] == after;
  }

  /** What is no plain word: a quote that is not closed, */
  lemma UnclosedQuote(text: string, multiline: bool)
    ensures !HasLineBreak(text) && '\'' !in text ==> WordAt("'" + text, multiline) == None
  {
    hide ScanFrom, Turn;
    if !HasLineBreak(text) && '\'' !in text {
      assert "'" + text == ['\''] + text;
      OneTurn(START, '\'', text, multiline) by { TurnQuote(text); }
      TurnQuote(text);
      NothingEscaped(text);
      EscapedReads(text, "", [], multiline);
      assert Escaped(text) + [] == text && "" + text == text;
      AtTheEnd(Inside(text), multiline);
    }
  }

  lemma TurnQuote(text: string)
    ensures Turn(START, ['\''] + text) == Some((Inside(""), 1))
    ensures !Stops(START, '\'', false) && !Stops(START, '\'', true)
  {
  }

  lemma AtTheEnd(r: Reading, multiline: bool)
    ensures ScanFrom(r, [], multiline) == Some((r, []))
  {
  }

  /** nothing, a backslash at the end, and a `$` before a quote. */
  lemma NotAWord(text: string, multiline: bool)
    requires text != []
    ensures AtWordEnd(text) ==> WordAt(text, multiline) == None
    ensures (forall ch <- text :: IsBare(ch)) ==> WordAt(text + "\\", multiline) == None
    ensures text[0] == '$' && |text| > 1 && IsQuote(text[1]) ==> WordAt(text, multiline) == None
  {
    if forall ch <- text :: IsBare(ch) {
      EndsInBackslash(text, "", false, multiline);
    }
  }

  lemma {:induction false} NothingEscaped(text: string)
    requires '\'' !in text
    ensures Escaped(text) == text
  {
    if text != [] {
      NothingEscaped(text[1..]);
    }
  }

  lemma {:induction false} EndsInBackslash(text: string, value: string, expands: bool, multiline: bool)
    requires forall ch <- text :: IsBare(ch)
    ensures ScanFrom(Open(value, false, expands), text + "\\", multiline) == None
    decreases |text|
  {
    if text != [] {
      hide ScanFrom;
      var ch, rest := text[0], text[1..];
      assert text[0] in text && forall c <- rest :: c in text;
      assert text + "\\" == [ch] + (rest + "\\");
      assert rest != [] ==> rest[0] in rest;
      BareTurn(Open(value, false, expands), ch, rest + "\\");
      OneTurn(Open(value, false, expands), ch, rest + "\\", multiline);
      EndsInBackslash(rest, value + [ch], expands || Expands(None, ch), multiline);
    }
  }

  // ---- the space between words ----

  /** The length of the continued line end at the front, 0 for none. */
  function Continuation(text: string): (size: nat)
    ensures size <= |text|
  {
    if "\\\n" <= text then 2 else if "\\\r\n" <= text then 3 else 0
  }

  /** Blanks and continued line ends. */
  predicate Skippable(text: string) {
    || text == []
    || (IsBlank(text[0]) && Skippable(text[1..]))
    || (Continuation(text) > 0 && Skippable(text[Continuation(text)..]))
  }

  predicate BeginsSpace(text: string) { text != [] && (IsBlank(text[0]) || Continuation(text) > 0) }

  /** Skipping takes the blanks and continued line ends at the front, and all of them. */
  lemma {:induction false} SkipsAllSpace(rest: string)
    ensures var left := SkippedSpace(rest);
            var n := |rest| - |left|;
            n >= 0 && left == rest[n..] && Skippable(rest[..n]) && !BeginsSpace(left)
    decreases |rest|
  {
    TrimIs(rest);
    SkippedOnce(rest);
    hide SkippedSpace, Skippable, TrimSpace, Continuation;
    var trimmed := TrimSpace(rest);
    var m, c := |rest| - |trimmed|, Continuation(trimmed);
    if c > 0 {
      SkipsAllSpace(trimmed[c..]);
      assert trimmed[c..] == rest[m + c..];
      SpaceGoesOn(rest, m);
    } else {
      BlanksSkippable(rest[..m]);
    }
  }

  lemma SkippedOnce(rest: string)
    ensures var trimmed := TrimSpace(rest);
            var c := Continuation(trimmed);
            SkippedSpace(rest) == if c > 0 then SkippedSpace(trimmed[c..]) else trimmed
  {
    TrimShortens(rest);
    var trimmed := TrimSpace(rest);
    assert |trimmed| >= 2 ==> (trimmed[..2] == "\\\n" <==> "\\\n" <= trimmed);
    assert |trimmed| >= 3 ==> (trimmed[..3] == "\\\r\n" <==> "\\\r\n" <= trimmed);
  }

  lemma {:induction false} TrimIs(rest: string)
    ensures var trimmed := TrimSpace(rest);
            var m := |rest| - |trimmed|;
            && m >= 0 && trimmed == rest[m..] && (forall k | 0 <= k < m :: IsBlank(rest[k]))
            && (trimmed != [] ==> !IsBlank(trimmed[0]))
  {
    if rest != [] && IsBlank(rest[0]) {
      TrimIs(rest[1..]);
      var m := |rest| - |TrimSpace(rest)|;
      assert forall k | 1 <= k < m :: rest[k] == rest[1..][k - 1];
    }
  }

  lemma {:induction false} BlanksSkippable(text: string)
    requires forall k | 0 <= k < |text| :: IsBlank(text[k])
    ensures Skippable(text)
  {
    if text != [] {
      BlanksSkippable(text[1..]);
    }
  }

  /** Blanks, a continued line end, and what is skipped after it. */
  lemma SpaceGoesOn(rest: string, m: nat)
    requires m <= |rest| && (forall k | 0 <= k < m :: IsBlank(rest[k])) && Continuation(rest[m..]) > 0
    requires var tail := rest[m + Continuation(rest[m..])..];
             var left := SkippedSpace(tail);
             left == tail[|tail| - |left|..] && Skippable(tail[..|tail| - |left|])
    ensures var tail := rest[m + Continuation(rest[m..])..];
            var n := |rest| - |SkippedSpace(tail)|;
            n >= m && SkippedSpace(tail) == rest[n..] && Skippable(rest[..n])
  {
    hide SkippedSpace, Continuation;
    var size := Continuation(rest[m..]);
    var tail := rest[m + size..];
    var n := |rest| - |SkippedSpace(tail)|;
    var skipped := rest[m..n];
    assert skipped[size..] == rest[m + size..n] == tail[..n - m - size];
    SameContinuation(rest[m..], skipped);
    assert rest[..n] == rest[..m] + skipped;
    BlanksFirst(rest[..m], skipped);
  }

  lemma SameContinuation(text: string, front: string)
    requires front <= text && |front| >= Continuation(text) > 0
    ensures Continuation(front) == Continuation(text)
  {
  }

  lemma {:induction false} BlanksFirst(blanks: string, text: string)
    requires (forall k | 0 <= k < |blanks| :: IsBlank(blanks[k])) && Skippable(text)
    ensures Skippable(blanks + text)
  {
    if blanks == [] {
      assert blanks + text == text;
    } else {
      BlanksFirst(blanks[1..], text);
      assert (blanks + text)[1..] == blanks[1..] + text;
    }
  }

  // ---- the whole resume command ----

  predicate IsPlain(ch: char) { IsBare(ch) && !Expands(None, ch) }

  lemma PlainWord(text: string, after: string)
    requires text != [] && (forall ch <- text :: IsPlain(ch)) && AtWordEnd(after)
    ensures WordAt(text + after, false) == Some((Word(text, false, false), after))
  {
    assert forall ch :: Expands(None, ch) == (ch in PATTERNS);
    hide WordAt, IsBare, Expands;
    assert forall k | 0 <= k < |text| :: text[k] in text;
    BareReadsBack(text, after, false);
  }

  lemma SkipsOneSpace(after: string)
    requires after != [] && !IsBlank(after[0]) && after[0] != '\\'
    ensures SkippedSpace(" " + after) == after
  {
    assert (" " + after)[1..] == after;
    assert TrimSpace(" " + after) == TrimSpace(after) == after;
  }

  /** The command printed for a session outside the default directory. */
  function SessionCommand(path: string): string { "pie --session " + Quoted(path) }

  const PIE: Word := Word("pie", false, false)
  const SESSION: Word := Word("--session", false, false)

  lemma CommandWords(path: string)
    ensures var after := " " + Quoted(path);
            var flag := " " + ("--session" + after);
            && WordAt(SessionCommand(path), false) == Some((PIE, flag))
            && SkippedSpace(flag) == "--session" + after
            && WordAt("--session" + after, false) == Some((SESSION, after))
            && SkippedSpace(after) == Quoted(path)
  {
    var flag := "--session" + (" " + Quoted(path));
    assert SessionCommand(path) == "pie" + (" " + flag);
    PieIsPlain();
    WordThenSpace("pie", flag);
    WordThenSpace("--session", Quoted(path));
  }

  lemma PieIsPlain()
    ensures (forall ch <- "pie" :: IsPlain(ch)) && forall ch <- "--session" :: IsPlain(ch)
  {
  }

  lemma WordThenSpace(text: string, after: string)
    requires text != [] && (forall ch <- text :: IsPlain(ch))
    requires after != [] && !IsBlank(after[0]) && after[0] != '\\'
    ensures WordAt(text + (" " + after), false) == Some((Word(text, false, false), " " + after))
    ensures SkippedSpace(" " + after) == after
  {
    PlainWord(text, " " + after);
    SkipsOneSpace(after);
  }

  /** Reading that command back word by word gives its three words, the last one the very path, exactly
      when the path holds no line break. */
  method ReadCommand(path: string) returns (words: seq<Word>)
    ensures words == if HasLineBreak(path) then [PIE, SESSION] else [PIE, SESSION, Word(path, true, false)]
  {
    CommandWords(path);
    var header := new Header(SessionCommand(path));
    var first := header.ReadWord(false);
    header.SkipSpace();
    var second := header.ReadWord(false);
    header.SkipSpace();
    assert header.rest == Quoted(path) == Quoted(path) + [];
    QuotedReadsBack(path, [], false);
    var third := header.ReadWord(false);
    words := [first.value, second.value];
    if third.Some? {
      words := words + [third.value];
    }
  }
}
