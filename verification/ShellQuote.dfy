/** Quoting a value for the shell (main.rs, shell_quote) against a reader of words that follows
    sections 2.2.1 (escape character) and 2.2.2 (single-quotes) of the POSIX Shell Command Language
    (IEEE Std 1003.1-2017). */
module ShellQuote {

  const QUOTE: char := '\''

  /** Every quote becomes quote, backslash, quote, quote. */
  function EscapeQuotes(s: string): string {
    if s == "" then ""
    else (if s[0] == QUOTE then [QUOTE, '\\', QUOTE, QUOTE] else [s[0]]) + EscapeQuotes(s[1..])
  }

  function ShellQuoted(value: string): string {
    [QUOTE] + EscapeQuotes(value) + [QUOTE]
  }

  lemma {:induction false} EscapeAppend(a: string, b: string)
    ensures EscapeQuotes(a + b) == EscapeQuotes(a) + EscapeQuotes(b)
  {
    if a == "" {
      assert a + b == b;
    } else {
      assert (a + b)[0] == a[0] && (a + b)[1..] == a[1..] + b;
      EscapeAppend(a[1..], b);
    }
  }

  /** How a value is written: between single quotes, each quote in it as four characters, all else as
      it is. */
  lemma QuotedIsWritten(a: string, c: char, b: string)
    ensures ShellQuoted("") == "''"
    ensures EscapeQuotes(a + [c] + b) == EscapeQuotes(a) + (if c == '\'' then "'\\''" else [c]) + EscapeQuotes(b)
    ensures ShellQuoted(a) == "'" + EscapeQuotes(a) + "'"
  {
    EscapeAppend(a + [c], b);
    EscapeAppend(a, [c]);
    assert [c][1..] == "";
  }

  /** `Word`: what was read as one word, and the text behind it. `Other` stops at a character that
      starts a construct outside the two sections. */
  datatype Reading = Word(literal: string, rest: string) | Unterminated | Other(literal: string, rest: string)

  /** Characters that end a word when unquoted. */
  predicate EndsWord(c: char) {
    || c == ' ' || c == '\t' || c == '\n'
    || c == '|' || c == '&' || c == ';' || c == '<' || c == '>' || c == '(' || c == ')'
  }

  /** Unquoted characters with a meaning of their own. */
  predicate Special(c: char) {
    c == '$' || c == '`' || c == '"' || c == '*' || c == '?' || c == '[' || c == '#' || c == '~' || c == '=' || c == '%'
  }

  /** Reads on after `literal` has been read; `inside` says whether between single quotes. */
  function Read(literal: string, inside: bool, text: string): Reading
    decreases |text|
  {
    if text == "" then
      if inside then Unterminated else Word(literal, "")
    else
      var c, rest := text[0], text[1..];
      if inside then
        if c == QUOTE then Read(literal, false, rest) else Read(literal + [c], true, rest)
      else if c == QUOTE then Read(literal, true, rest)
      else if c == '\\' then
        if rest == "" then Word(literal + [c], "")
        else if rest[0] == '\n' then Read(literal, false, rest[1..])
        else Read(literal + [rest[0]], false, rest[1..])
      else if EndsWord(c) then Word(literal, text)
      else if Special(c) then Other(literal, text)
      else Read(literal + [c], false, rest)
  }

  /** One escaped character, read between quotes, is that character, and the quotes stay open. */
  lemma ReadsEscapedQuote(literal: string, rest: string)
    ensures Read(literal, true, [QUOTE, '\\', QUOTE, QUOTE] + rest) == Read(literal + [QUOTE], true, rest)
  {
    var text := [QUOTE, '\\', QUOTE, QUOTE] + rest;
    var one, two, three := text[1..], text[1..][1..], [QUOTE] + rest;
    assert two[1..] == three && three[1..] == rest;
    assert Read(literal, true, text) == Read(literal, false, one) == Read(literal + [QUOTE], false, three);
  }

  lemma {:induction false} ReadsEscaped(literal: string, s: string, t: string)
    ensures Read(literal, true, EscapeQuotes(s) + [QUOTE] + t) == Read(literal + s, false, t)
    decreases |s|
  {
    if s == "" {
      assert literal + s == literal && (EscapeQuotes(s) + [QUOTE] + t)[1..] == t;
    } else {
      var tail := EscapeQuotes(s[1..]) + [QUOTE] + t;
      assert literal + [s[0]] + s[1..] == literal + s;
      if s[0] == QUOTE {
        assert EscapeQuotes(s) + [QUOTE] + t == [QUOTE, '\\', QUOTE, QUOTE] + tail;
        ReadsEscapedQuote(literal, tail);
      } else {
        assert EscapeQuotes(s) + [QUOTE] + t == [s[0]] + tail && ([s[0]] + tail)[1..] == tail;
      }
      ReadsEscaped(literal + [s[0]], s[1..], t);
    }
  }

  /** For every value and every text that follows, the shell reads the quoted value as exactly that
      value, is then outside quotes, and goes on with the text. */
  lemma QuotedReadsBack(literal: string, value: string, t: string)
    ensures Read(literal, false, ShellQuoted(value) + t) == Read(literal + value, false, t)
  {
    assert (ShellQuoted(value) + t)[1..] == EscapeQuotes(value) + [QUOTE] + t;
    ReadsEscaped(literal, value, t);
  }

  /** In front of a separator or at the end, the quoted value is one whole word. */
  lemma QuotedIsOneWord(value: string, t: string)
    requires t == "" || EndsWord(t[0])
    ensures Read("", false, ShellQuoted(value) + t) == Word(value, t)
  {
    QuotedReadsBack("", value, t);
    assert "" + value == value;
  }

  /** Different values never look the same to the shell. */
  lemma QuotedInjective(a: string, b: string)
    requires ShellQuoted(a) == ShellQuoted(b)
    ensures a == b
  {
    QuotedIsOneWord(a, "");
    QuotedIsOneWord(b, "");
  }
}
