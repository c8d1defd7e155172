/** The master-file lexer (section 5.1 of RFC 1035): words, directives, quoted strings, parentheses, comments,
    line ends, and the empty word that stands for an inherited owner. */
module Tokenizer {
  import opened Bytes
  import opened Domain
  import opened Records
  import opened CharString

  const TAB: Byte := 9
  const NEWLINE: Byte := 10
  const DOLLAR: Byte := 36
  const OPEN: Byte := 40
  const CLOSE: Byte := 41
  const SEMICOLON: Byte := 59

  datatype Token = Word(text: Text) | QuotedString(text: Text) | Directive(text: Text) | ParenOpen | ParenClose | Newline

  // ---- Specification -------------------------------------------------------

  predicate Blank(b: Byte) { b == SPACE || b == TAB }

  /** What ends a word. */
  predicate Special(b: Byte) {
    Blank(b) || b == NEWLINE || b == SEMICOLON || b == OPEN || b == CLOSE || b == QUOTE
  }

  function Blanks(s: Text): (n: nat)
    ensures n <= |s| && (n < |s| ==> !Blank(s[n])) && (n > 0 ==> Blank(s[n - 1]))
  {
    if s != [] && Blank(s[0]) then 1 + Blanks(s[1..]) else 0
  }

  function CommentSize(s: Text): (n: nat)
    ensures n <= |s|
  {
    if s == [] || s[0] == NEWLINE then 0 else 1 + CommentSize(s[1..])
  }

  /** A backslash takes the next character with it, whatever it is. */
  function WordSize(s: Text): (n: nat)
    ensures n <= |s| && (s != [] && !Special(s[0]) ==> n > 0)
  {
    if s == [] || Special(s[0]) then 0
    else if s[0] == BACKSLASH && |s| > 1 then 2 + WordSize(s[2..])
    else 1 + WordSize(s[1..])
  }

  /** The outcome of a scan: a token with how much was read, the lines passed, and the parenthesis state. */
  datatype Step = End(lines: nat, parens: bool) | Next(token: Token, size: nat, lines: nat, parens: bool)

  function Advanced(step: Step, n: nat, lines: nat): Step {
    match step
    case End(l, p) => End(lines + l, p)
    case Next(t, k, l, p) => Next(t, n + k, lines + l, p)
  }

  /** A token other than a line end, starting at the first character. */
  function LexToken(s: Text, parens: bool): (r: Step)
    requires s != [] && !Blank(s[0]) && s[0] != NEWLINE && s[0] != SEMICOLON
    ensures r.Next? && 0 < r.size <= |s| && r.lines == 0
  {
    if s[0] == OPEN then Next(ParenOpen, 1, 0, true)
    else if s[0] == CLOSE then Next(ParenClose, 1, 0, false)
    else if s[0] == QUOTE then
      var q := ScanQuoted(s[1..]);
      Next(QuotedString(q.value), 1 + q.size, 0, parens)
    else
      var n := WordSize(s);
      Next(WordToken(s[..n]), n, 0, parens)
  }

  /** From a character that is not blank: a line end, a comment, or another token. */
  function LexHere(s: Text, parens: bool): (r: Step)
    requires s != [] && !Blank(s[0])
    ensures r.Next? ==> 0 < r.size <= |s|
    decreases |s|, 0
  {
    if s[0] == NEWLINE then
      if parens then Advanced(Lex(s[1..], true, true), 1, 1) else Next(Newline, 1, 1, false)
    else if s[0] == SEMICOLON then
      CommentNotEmpty(s);
      var c := CommentSize(s);
      Advanced(Lex(s[c..], false, parens), c, 0)
    else
      LexToken(s, parens)
  }

  /** The next token of `s`; `lineStart` says that a line end, or nothing, precedes it. */
  function Lex(s: Text, lineStart: bool, parens: bool): (r: Step)
    ensures r.Next? ==> 0 < r.size <= |s|
    decreases |s|, 1
  {
    var k := Blanks(s);
    var rest := s[k..];
    if rest == [] then End(0, parens)
    else if lineStart && k > 0 && rest[0] != NEWLINE && !parens then Next(Word([]), k, 0, parens)
    else Advanced(LexHere(rest, parens), k, 0)
  }

  function WordToken(text: Text): Token
    requires text != []
  {
    if text[0] == DOLLAR then Directive(text) else Word(text)
  }

  /** All tokens from here on. */
  function Tokens(s: Text, lineStart: bool, parens: bool): seq<Token>
    decreases |s|
  {
    match Lex(s, lineStart, parens)
    case End(_, _) => []
    case Next(t, n, _, p) => [t] + Tokens(s[n..], s[n - 1] == NEWLINE, p)
  }

  // ---- The lexer -----------------------------------------------------------

  class Tokenizer {
    const input: Text
    var pos: nat
    var line: nat
    var inParens: bool

    ghost predicate Valid()
      reads this
    {
      pos <= |input|
    }

    constructor (input: Text)
      ensures Valid() && this.input == input && pos == 0 && line == 1 && !inParens
    {
      this.input := input;
      pos, line, inParens := 0, 1, false;
    }

    predicate AtLineStart()
      requires Valid()
      reads this
    {
      pos == 0 || input[pos - 1] == NEWLINE
    }

    /** What is left to read. */
    function Rest(): Text
      requires Valid()
      reads this
    {
      input[pos..]
    }

    method SkipBlanks()
      requires Valid()
      modifies this`pos
      ensures Valid() && pos == old(pos) + Blanks(old(Rest()))
    {
      while pos < |input| && Blank(input[pos])
        invariant old(pos) <= pos <= |input|
        invariant pos + Blanks(Rest()) == old(pos) + Blanks(old(Rest()))
      {
        assert input[pos..][1..] == input[pos + 1..];
        pos := pos + 1;
      }
    }

    method SkipComment()
      requires Valid()
      modifies this`pos
      ensures Valid() && pos == old(pos) + CommentSize(old(Rest()))
    {
      while pos < |input| && input[pos] != NEWLINE
        invariant old(pos) <= pos <= |input|
        invariant pos + CommentSize(Rest()) == old(pos) + CommentSize(old(Rest()))
      {
        assert input[pos..][1..] == input[pos + 1..];
        pos := pos + 1;
      }
    }

    method SkipWord()
      requires Valid()
      modifies this`pos
      ensures Valid() && pos == old(pos) + WordSize(old(Rest()))
    {
      while pos < |input| && !Special(input[pos])
        invariant old(pos) <= pos <= |input|
        invariant pos + WordSize(Rest()) == old(pos) + WordSize(old(Rest()))
      {
        if input[pos] == BACKSLASH && pos + 1 < |input| {
          assert input[pos..][2..] == input[pos + 2..];
          pos := pos + 2;
        } else {
          assert input[pos..][1..] == input[pos + 1..];
          pos := pos + 1;
        }
      }
    }

    /** One character or escape of a quoted string. */
    method ReadQuotedItem() returns (piece: Text)
      requires Valid() && pos < |input| && input[pos] != QUOTE
      modifies this`pos
      ensures Valid() && pos > old(pos)
      ensures ScanQuoted(old(Rest())) == More(piece, pos - old(pos), ScanQuoted(Rest()))
    {
      ghost var rest := Rest();
      if input[pos] == BACKSLASH && pos + 1 < |input| {
        var escaped := input[pos + 1];
        if IsDigit(escaped) && pos + 3 < |input| && IsDigit(input[pos + 2]) && IsDigit(input[pos + 3]) {
          var byteVal := (escaped as int - 48) * 100 + (input[pos + 2] as int - 48) * 10 + (input[pos + 3] as int - 48);
          if byteVal <= 255 {
            if byteVal <= 0x7F {
              piece := [byteVal];
            } else {
              piece := [BACKSLASH, escaped, input[pos + 2], input[pos + 3]];
              assert piece == rest[..4];
            }
            assert rest[4..] == input[pos + 4..];
            pos := pos + 4;
            return;
          }
        }
        assert rest[2..] == input[pos + 2..];
        piece := PushedChar(escaped);
        pos := pos + 2;
      } else {
        assert rest[1..] == input[pos + 1..];
        piece := PushedChar(input[pos]);
        pos := pos + 1;
      }
    }

    /** From after the opening quote to after the closing one. */
    method ReadQuoted() returns (value: Text)
      requires Valid()
      modifies this`pos
      ensures Valid() && pos == old(pos) + ScanQuoted(old(Rest())).size && value == ScanQuoted(old(Rest())).value
    {
      hide ScanQuoted;
      value := [];
      ghost var all := ScanQuoted(Rest());
      assert all == More([], 0, all);
      while pos < |input| && input[pos] != QUOTE
        invariant old(pos) <= pos <= |input|
        invariant all == More(value, pos - old(pos), ScanQuoted(Rest()))
      {
        ghost var before := pos;
        var piece := ReadQuotedItem();
        value := value + piece;
      }
      QuoteEnds(Rest());
      if pos < |input| {
        pos := pos + 1;
      }
      assert value + [] == value;
    }

    /** A token other than a line end, where one starts. */
    method ReadToken() returns (r: Token)
      requires Valid() && pos < |input| && !Blank(input[pos]) && input[pos] != NEWLINE && input[pos] != SEMICOLON
      modifies this
      ensures Valid() && pos >= old(pos) && line == old(line)
      ensures LexToken(old(Rest()), old(inParens)) == Next(r, pos - old(pos), 0, inParens)
    {
      ghost var rest := Rest();
      var ch := input[pos];
      if ch == OPEN {
        pos := pos + 1;
        inParens := true;
        return ParenOpen;
      }
      if ch == CLOSE {
        pos := pos + 1;
        inParens := false;
        return ParenClose;
      }
      if ch == QUOTE {
        pos := pos + 1;
        assert rest[1..] == Rest();
        var value := ReadQuoted();
        return QuotedString(value);
      }
      var start := pos;
      SkipWord();
      var word := input[start..pos];
      assert rest[..pos - start] == word;
      r := if word[0] == DOLLAR then Directive(word) else Word(word);
    }

    /** From a character that is not blank: a token, or a line end or comment to be passed over. */
    method RoundHere() returns (done: bool, r: Option<Token>)
      requires Valid() && pos < |input| && !Blank(input[pos])
      modifies this
      ensures Valid() && pos > old(pos) && line >= old(line) && (done ==> r.Some?)
      ensures LexHere(old(Rest()), old(inParens)) ==
              if done then Next(r.value, pos - old(pos), line - old(line), inParens)
              else Advanced(Lex(Rest(), AtLineStart(), inParens), pos - old(pos), line - old(line))
    {
      hide CommentSize, LexToken, Lex, Blank;
      ghost var left := Rest();
      if input[pos] == NEWLINE {
        assert left[1..] == input[pos + 1..];
        pos := pos + 1;
        line := line + 1;
        if inParens {
          return false, None;
        }
        return true, Some(Newline);
      }
      if input[pos] == SEMICOLON {
        CommentNotEmpty(left);
        SkipComment();
        assert left[pos - old(pos)..] == Rest();
        return false, None;
      }
      var token := ReadToken();
      return true, Some(token);
    }

    /** One round of the scan. */
    method Round() returns (done: bool, r: Option<Token>)
      requires Valid()
      modifies this
      ensures Valid() && pos >= old(pos) && line >= old(line) && (!done ==> pos > old(pos))
      ensures Lex(old(Rest()), old(AtLineStart()), old(inParens)) ==
              if !done then Advanced(Lex(Rest(), AtLineStart(), inParens), pos - old(pos), line - old(line))
              else if r.None? then End(line - old(line), inParens)
              else Next(r.value, pos - old(pos), line - old(line), inParens)
      ensures done && r.None? ==> pos == |input|
    {
      hide Blanks, LexHere, Lex;
      ghost var rest := Rest();
      LexUnfolds(rest, AtLineStart(), inParens);
      if pos >= |input| {
        return true, None;
      }
      var atLineStart := AtLineStart();
      var hadLeadingSpace := Blank(input[pos]);
      SkipBlanks();
      assert rest[pos - old(pos)..] == Rest();
      BlanksOf(rest);
      if pos >= |input| {
        return true, None;
      }
      if atLineStart && hadLeadingSpace && input[pos] != NEWLINE && !inParens {
        return true, Some(Word([]));
      }
      done, r := RoundHere();
    }

    /** The next token, or none at the end of input. */
    method NextToken() returns (r: Option<Token>)
      requires Valid()
      modifies this
      ensures Valid()
      ensures match Lex(old(Rest()), old(AtLineStart()), old(inParens))
              case End(lines, p) => r == None && pos == |input| && line == old(line) + lines && inParens == p
              case Next(t, n, lines, p) => r == Some(t) && pos == old(pos) + n && line == old(line) + lines && inParens == p
    {
      hide Lex;
      ghost var all := Lex(Rest(), AtLineStart(), inParens);
      var done := false;
      r := None;
      while !done
        invariant old(pos) <= pos <= |input| && old(line) <= line
        invariant !done ==> all == Advanced(Lex(Rest(), AtLineStart(), inParens), pos - old(pos), line - old(line))
        invariant done ==> all == if r.None? then End(line - old(line), inParens)
                                  else Next(r.value, pos - old(pos), line - old(line), inParens)
        invariant done && r.None? ==> pos == |input|
        decreases !done, |input| - pos
      {
        done, r := Round();
      }
    }
  }

  lemma QuoteEnds(s: Text)
    ensures s == [] ==> ScanQuoted(s) == Scanned([], 0)
    ensures s != [] && s[0] == QUOTE ==> ScanQuoted(s) == Scanned([], 1)
  {}

  lemma LexUnfolds(s: Text, lineStart: bool, parens: bool)
    ensures var k := Blanks(s);
            var rest := s[k..];
            Lex(s, lineStart, parens) ==
            if rest == [] then End(0, parens)
            else if lineStart && k > 0 && rest[0] != NEWLINE && !parens then Next(Word([]), k, 0, parens)
            else Advanced(LexHere(rest, parens), k, 0)
  {
    hide Blanks, LexHere, Advanced;
  }

  lemma BlanksOf(s: Text)
    requires s != []
    ensures Blanks(s) > 0 <==> Blank(s[0])
  {}

  /** A comment is at least its semicolon, and does not end with a line end. */
  lemma {:induction false} CommentNotEmpty(s: Text)
    requires s != [] && s[0] != NEWLINE
    ensures var n := CommentSize(s); n > 0 && s[n - 1] != NEWLINE
  {
    if |s| > 1 && s[1] != NEWLINE { CommentNotEmpty(s[1..]); }
  }
}
