/** Character-strings of TXT records: the printed escapes, and the two scanners that undo them. */
module CharString {
  import opened Bytes
  import opened Domain

  const QUOTE: Byte := 34
  const SPACE: Byte := 32

  // ---- Printing ------------------------------------------------------------

  /** A backslash and three digits. */
  function DecimalText(b: Byte): (s: Text)
    ensures |s| == 4 && s[0] == BACKSLASH && IsDigit(s[1]) && IsDigit(s[2]) && IsDigit(s[3])
  {
    [BACKSLASH, 48 + b / 100, 48 + b / 10 % 10, 48 + b % 10]
  }

  function EscapedByte(b: Byte): Text {
    if b == QUOTE || b == BACKSLASH then [BACKSLASH, b]
    else if 0x20 <= b <= 0x7E then [b]
    else DecimalText(b)
  }

  function Escaped(s: seq<Byte>): Text {
    if s == [] then [] else EscapedByte(s[0]) + Escaped(s[1..])
  }

  function QuotedText(s: seq<Byte>): Text { [QUOTE] + Escaped(s) + [QUOTE] }

  function Strings(strings: seq<seq<Byte>>): Text {
    if strings == [] then []
    else QuotedText(strings[0]) + (if |strings| == 1 then [] else [SPACE] + Strings(strings[1..]))
  }

  method EscapeInto(s: seq<Byte>, out: Buffer)
    modifies out
    ensures out.bytes == old(out.bytes) + Escaped(s)
  {
    hide EscapedByte;
    assert s[0..] == s;
    for i := 0 to |s|
      invariant out.bytes + Escaped(s[i..]) == old(out.bytes) + Escaped(s)
    {
      assert s[i..][1..] == s[i + 1..];
      Regroup(out.bytes, [], EscapedByte(s[i]), Escaped(s[i + 1..]));
      out.Extend(EscapedByte(s[i]));
    }
    assert out.bytes + [] == out.bytes;
  }

  method SerializeTxt(strings: seq<seq<Byte>>) returns (r: Text)
    ensures r == Strings(strings)
  {
    hide QuotedText, Later, Strings;
    var out := new Buffer();
    NothingLater(strings);
    for i := 0 to |strings|
      invariant fresh(out)
      invariant out.bytes + Later(strings, i) == Strings(strings)
    {
      LaterAt(strings, i);
      Regroup(out.bytes, if i > 0 then [SPACE] else [], QuotedText(strings[i]), Later(strings, i + 1));
      if i > 0 {
        out.Push(SPACE);
      } else {
        assert out.bytes + [] == out.bytes;
      }
      QuoteInto(strings[i], out);
    }
    r := out.bytes;
  }

  method QuoteInto(s: seq<Byte>, out: Buffer)
    modifies out
    ensures out.bytes == old(out.bytes) + QuotedText(s)
  {
    hide Escaped;
    out.Push(QUOTE);
    EscapeInto(s, out);
    out.Push(QUOTE);
  }

  lemma NothingLater(strings: seq<seq<Byte>>)
    ensures [] + Later(strings, 0) == Strings(strings)
    ensures forall r: Text :: r + Later(strings, |strings|) == r
  {
    assert strings[0..] == strings;
  }

  /** What is left to print before string `i`. */
  function Later(strings: seq<seq<Byte>>, i: nat): Text
    requires i <= |strings|
  {
    if i == |strings| then [] else (if i > 0 then [SPACE] else []) + Strings(strings[i..])
  }

  lemma LaterAt(strings: seq<seq<Byte>>, i: nat)
    requires i < |strings|
    ensures Later(strings, i) ==
            (if i > 0 then [SPACE] else []) + QuotedText(strings[i]) + Later(strings, i + 1)
  {
    hide QuotedText;
    assert strings[i..][1..] == strings[i + 1..];
  }

  // ---- Decoding ------------------------------------------------------------

  datatype TextError = TextError

  /** `decode_character_string`. */
  function DecodeText(s: Text): Result<seq<Byte>, TextError> {
    if s == [] then Ok([])
    else if s[0] != BACKSLASH then Prepend([s[0]], DecodeText(s[1..]))
    else if |s| < 2 then Err(TextError)
    else if DecimalEscape(s) then
      if EscapeValue(s) > 255 then Err(TextError)
      else Prepend([EscapeValue(s)], DecodeText(s[4..]))
    else Prepend([s[1]], DecodeText(s[2..]))
  }

  method DecodeCharacterString(token: Text) returns (r: Result<seq<Byte>, TextError>)
    ensures r == DecodeText(token)
  {
    var decoded: seq<Byte> := [];
    var pos := 0;
    PrependPrepend([], [], DecodeText(token));
    assert token[0..] == token;
    while pos < |token|
      invariant 0 <= pos <= |token|
      invariant DecodeText(token) == Prepend(decoded, DecodeText(token[pos..]))
    {
      ghost var rest := token[pos..];
      if token[pos] != BACKSLASH {
        assert rest[1..] == token[pos + 1..];
        PrependPrepend(decoded, [token[pos]], DecodeText(token[pos + 1..]));
        decoded := decoded + [token[pos]];
        pos := pos + 1;
      } else {
        if pos + 1 >= |token| {
          return Err(TextError);
        }
        if pos + 3 < |token| && IsDigit(token[pos + 1]) && IsDigit(token[pos + 2]) && IsDigit(token[pos + 3]) {
          var value := (token[pos + 1] as int - 48) * 100 + (token[pos + 2] as int - 48) * 10 + (token[pos + 3] as int - 48);
          if value > 255 {
            return Err(TextError);
          }
          assert rest[4..] == token[pos + 4..];
          PrependPrepend(decoded, [value], DecodeText(token[pos + 4..]));
          decoded := decoded + [value];
          pos := pos + 4;
        } else {
          assert rest[2..] == token[pos + 2..];
          PrependPrepend(decoded, [token[pos + 1]], DecodeText(token[pos + 2..]));
          decoded := decoded + [token[pos + 1]];
          pos := pos + 2;
        }
      }
    }
    assert token[pos..] == [] && decoded + [] == decoded;
    r := Ok(decoded);
  }

  lemma DecodeStep(b: Byte, rest: Text)
    ensures DecodeText(EscapedByte(b) + rest) == Prepend([b], DecodeText(rest))
  {
    var s := EscapedByte(b) + rest;
    if b == QUOTE || b == BACKSLASH {
      assert s[2..] == rest && s[1] == b && !IsDigit(s[1]);
    } else if 0x20 <= b <= 0x7E {
      assert s[1..] == rest;
    } else {
    }
  }

  /** Decoding undoes the printed escapes, for every byte string. */
  lemma {:induction false} DecodeEscaped(s: seq<Byte>)
    ensures DecodeText(Escaped(s)) == Ok(s)
  {
    if s != [] {
      DecodeEscaped(s[1..]);
      DecodeStep(s[0], Escaped(s[1..]));
      assert [s[0]] + s[1..] == s;
    }
  }

  // ---- The quoted-string scanner -------------------------------------------

  /** A byte pushed as a character: one octet of UTF-8 up to 127, two above. */
  function PushedChar(b: Byte): Text {
    if b < 0x80 then [b] else [0xC0 + b / 0x40, 0x80 + b % 0x40]
  }

  /** What the lexer makes of text after an opening quote: the value, and how much it reads. */
  datatype Scanned = Scanned(value: Text, size: nat)

  function More(value: Text, n: nat, s: Scanned): Scanned { Scanned(value + s.value, n + s.size) }

  function ScanQuoted(s: Text): (r: Scanned)
    ensures r.size <= |s|
  {
    if s == [] then Scanned([], 0)
    else if s[0] == QUOTE then Scanned([], 1)
    else if s[0] == BACKSLASH && |s| > 1 then
      if DecimalEscape(s) && EscapeValue(s) <= 255 then
        More(if EscapeValue(s) <= 0x7F then [EscapeValue(s)] else s[..4], 4, ScanQuoted(s[4..]))
      else More(PushedChar(s[1]), 2, ScanQuoted(s[2..]))
    else More(PushedChar(s[0]), 1, ScanQuoted(s[1..]))
  }

  /** What the lexer leaves of one printed byte: only bytes above 127 stay escaped. */
  function HalfByte(b: Byte): Text { if b < 0x80 then [b] else DecimalText(b) }

  function Half(s: seq<Byte>): Text {
    if s == [] then [] else HalfByte(s[0]) + Half(s[1..])
  }

  lemma ScanStep(b: Byte, rest: Text)
    ensures ScanQuoted(EscapedByte(b) + rest) == More(HalfByte(b), |EscapedByte(b)|, ScanQuoted(rest))
  {
    var s := EscapedByte(b) + rest;
    if b == QUOTE || b == BACKSLASH {
      assert s[2..] == rest && s[1] == b && !IsDigit(s[1]);
    } else if 0x20 <= b <= 0x7E {
      assert s[1..] == rest;
    } else {
      assert s[..4] == DecimalText(b);
    }
  }

  /** The lexer reads a printed string up to its closing quote. */
  lemma {:induction false} ScanEscaped(s: seq<Byte>, rest: Text)
    ensures ScanQuoted(Escaped(s) + [QUOTE] + rest) == Scanned(Half(s), |Escaped(s)| + 1)
  {
    if s == [] {
      assert Escaped(s) + [QUOTE] + rest == [QUOTE] + rest;
    } else {
      var tail := Escaped(s[1..]) + [QUOTE] + rest;
      ScanEscaped(s[1..], rest);
      ScanStep(s[0], tail);
      assert Escaped(s) + [QUOTE] + rest == EscapedByte(s[0]) + tail;
    }
  }

  // ---- Both stages ---------------------------------------------------------

  lemma PlainHalfStep(b: Byte, rest: Text)
    requires b != BACKSLASH
    ensures DecodeText(HalfByte(b) + rest) == Prepend([b], DecodeText(rest))
  {
    if b < 0x80 {
      assert (HalfByte(b) + rest)[1..] == rest;
    } else {
    }
  }

  lemma HalfStarts(s: seq<Byte>)
    ensures s == [] <==> Half(s) == []
    ensures s != [] ==> Half(s) == HalfByte(s[0]) + Half(s[1..])
    ensures s != [] && s[0] < 0x80 ==> Half(s)[0] == s[0] && Half(s)[1..] == Half(s[1..])
    ensures s != [] && s[0] >= 0x80 ==> Half(s)[0] == BACKSLASH
  {}

  /** A bare backslash starts a decimal escape in the half-decoded text exactly when three digits follow in the data. */
  lemma HalfDecimal(s: seq<Byte>)
    requires s != [] && s[0] == BACKSLASH
    ensures DecimalEscape(Half(s)) <==> DecimalEscape(s)
    ensures DecimalEscape(s) ==> EscapeValue(Half(s)) == EscapeValue(s) && Half(s)[4..] == Half(s[4..])
  {
    HalfStarts(s);
    HalfStarts(s[1..]);
    var t := Half(s);
    if |s| > 1 && s[1] < 0x80 {
      assert t[1] == s[1] && t[2..] == Half(s[2..]) && s[1..][1..] == s[2..];
      HalfStarts(s[2..]);
      if |s| > 2 && s[2] < 0x80 {
        assert t[2] == s[2] && t[3..] == Half(s[3..]) && s[2..][1..] == s[3..];
        HalfStarts(s[3..]);
        if |s| > 3 && s[3] < 0x80 {
          assert t[3] == s[3] && t[4..] == Half(s[4..]) && s[3..][1..] == s[4..];
        }
      }
    }
  }

  lemma LiteralStep(b: Byte, rest: Text)
    requires b != BACKSLASH
    ensures DecodeText([b] + rest) == Prepend([b], DecodeText(rest))
  {
    assert ([b] + rest)[1..] == rest;
  }

  lemma BackslashThenHigh(b: Byte, rest: Text)
    requires b >= 0x80
    ensures DecodeText([BACKSLASH] + (DecimalText(b) + rest)) == Prepend([BACKSLASH] + DecimalText(b)[1..], DecodeText(rest))
  {
    var d := DecimalText(b);
    var r := DecodeText(rest);
    var s := [BACKSLASH] + (d + rest);
    assert s[1] == BACKSLASH && s[2..] == [d[1]] + ([d[2]] + ([d[3]] + rest));
    LiteralStep(d[3], rest);
    LiteralStep(d[2], [d[3]] + rest);
    LiteralStep(d[1], [d[2]] + ([d[3]] + rest));
    PrependPrepend([d[2]], [d[3]], r);
    PrependPrepend([d[1]], [d[2]] + [d[3]], r);
    PrependPrepend([BACKSLASH], [d[1]] + ([d[2]] + [d[3]]), r);
    assert [BACKSLASH] + ([d[1]] + ([d[2]] + [d[3]])) == [BACKSLASH] + d[1..];
  }

  /** How the second stage reads a backslash the first stage left bare: what it outputs, and what it takes with it. */
  lemma BareBackslash(s: seq<Byte>)
    requires s != [] && s[0] == BACKSLASH
    ensures |s| == 1 ==> DecodeText(Half(s)).Err?
    ensures |s| > 1 && s[1] < 0x80 && !DecimalEscape(s) ==>
              DecodeText(Half(s)) == Prepend([s[1]], DecodeText(Half(s[2..])))
    ensures DecimalEscape(s) ==>
              DecodeText(Half(s)) == if EscapeValue(s) > 255 then Err(TextError)
                                     else Prepend([EscapeValue(s)], DecodeText(Half(s[4..])))
    ensures |s| > 1 && s[1] >= 0x80 ==>
              DecodeText(Half(s)) == Prepend([BACKSLASH] + DecimalText(s[1])[1..], DecodeText(Half(s[2..])))
  {
    hide DecimalText, Half;
    HalfStarts(s);
    HalfStarts(s[1..]);
    HalfDecimal(s);
    if |s| > 1 {
      assert s[1..][1..] == s[2..];
      if s[1] >= 0x80 {
        BackslashThenHigh(s[1], Half(s[2..]));
      } else {
        assert Half(s)[2..] == Half(s[2..]);
      }
    }
  }

  lemma PlainHalf(s: seq<Byte>)
    requires s != [] && s[0] != BACKSLASH
    ensures DecodeText(Half(s)) == Prepend([s[0]], DecodeText(Half(s[1..])))
  {
    PlainHalfStep(s[0], Half(s[1..]));
  }

  lemma NothingDecodes()
    ensures DecodeText(Half([])) == Ok([])
  {}

  lemma PrependIs(head: seq<Byte>, r: Result<seq<Byte>, TextError>, x: seq<Byte>)
    requires Prepend(head, r) == Ok(x)
    ensures |head| <= |x| && x[..|head|] == head && r == Ok(x[|head|..])
  {}

  /** A bare backslash before a byte above 127 comes out as four characters, so what was in front was longer. */
  lemma OutOfStep(w: seq<Byte>, s: seq<Byte>, r: Result<seq<Byte>, TextError>)
    requires |s| > 1 && w != [] && s[0] == BACKSLASH && s[1] >= 0x80
    requires Prepend([BACKSLASH] + DecimalText(s[1])[1..], r) == Ok(w + s)
    ensures |w| >= 4 && r == Ok(w[4..] + s[..2] + s[2..])
  {
    var d, x := DecimalText(s[1]), w + s;
    var head := [BACKSLASH] + d[1..];
    hide DecimalText;
    PrependIs(head, r, x);
    assert forall i :: 1 <= i < 4 ==> x[i] == x[..4][i] == head[i] == d[i];
    assert x[|w|] == BACKSLASH && !IsDigit(x[|w|]);
    assert x[4..] == w[4..] + s[..2] + s[2..];
  }

  /** Two-stage decoding never gives a byte string with something put in front of it: once the stages disagree
      they stay out of step. */
  lemma {:induction false} NeverCatchesUp(w: seq<Byte>, s: seq<Byte>)
    requires w != []
    ensures DecodeText(Half(s)) != Ok(w + s)
    decreases |s|
  {
    hide DecodeText, Half, DecimalText, Prepend;
    var x := w + s;
    if DecodeText(Half(s)) == Ok(x) {
      if s == [] {
        NothingDecodes();
      } else if s[0] != BACKSLASH {
        PlainHalf(s);
        Behind(w, s, [s[0]], 1);
      } else {
        BareBackslash(s);
        if |s| > 1 && s[1] >= 0x80 {
          OutOfStep(w, s, DecodeText(Half(s[2..])));
          NeverCatchesUp(w[4..] + s[..2], s[2..]);
        } else if DecimalEscape(s) {
          Behind(w, s, [EscapeValue(s)], 4);
        } else if |s| > 1 {
          Behind(w, s, [s[1]], 2);
        }
      }
    }
  }

  /** One byte out for one or more bytes taken in. */
  lemma Behind(w: seq<Byte>, s: seq<Byte>, out: seq<Byte>, n: nat)
    requires w != [] && |out| == 1 && 1 <= n <= |s|
    ensures Prepend(out, DecodeText(Half(s[n..]))) != Ok(w + s)
    decreases |s|, 0
  {
    hide DecodeText, Half, Prepend;
    assert (w + s)[1..] == w[1..] + s[..n] + s[n..];
    NeverCatchesUp(w[1..] + s[..n], s[n..]);
    if Prepend(out, DecodeText(Half(s[n..]))) == Ok(w + s) {
      PrependIs(out, DecodeText(Half(s[n..])), w + s);
    }
  }

  lemma HighDiffers(s: seq<Byte>, r: Result<seq<Byte>, TextError>)
    requires |s| > 1 && s[1] >= 0x80
    ensures Prepend([BACKSLASH] + DecimalText(s[1])[1..], r) != Ok(s)
  {
    if r.Ok? {
      var v := [BACKSLASH] + DecimalText(s[1])[1..] + r.value;
      assert IsDigit(v[1]);
    }
  }

  lemma {:induction false} BackslashBreaks(s: seq<Byte>)
    requires BACKSLASH in s
    ensures DecodeText(Half(s)) != Ok(s)
  {
    hide DecodeText, Half, DecimalText, Prepend;
    if DecodeText(Half(s)) == Ok(s) {
      if s[0] != BACKSLASH {
        PlainHalf(s);
        PrependIs([s[0]], DecodeText(Half(s[1..])), s);
        BackslashBreaks(s[1..]);
      } else {
        BareBackslash(s);
        var rest := if |s| > 1 then s[2..] else [];
        if |s| > 1 && s[1] >= 0x80 {
          HighDiffers(s, DecodeText(Half(rest)));
        } else if DecimalEscape(s) {
          PrependIs([EscapeValue(s)], DecodeText(Half(s[4..])), s);
          assert s[1..] == s[1..4] + s[4..];
          NeverCatchesUp(s[1..4], s[4..]);
        } else if |s| > 1 {
          PrependIs([s[1]], DecodeText(Half(rest)), s);
          assert s[1..] == s[1..2] + rest;
          NeverCatchesUp(s[1..2], rest);
        }
      }
    }
  }

  lemma {:induction false} PlainHalves(s: seq<Byte>)
    requires BACKSLASH !in s
    ensures DecodeText(Half(s)) == Ok(s)
  {
    hide DecodeText, Half;
    if s == [] {
      NothingDecodes();
    } else {
      PlainHalf(s);
      PlainHalves(s[1..]);
      assert [s[0]] + s[1..] == s;
    }
  }

  /** Lexing the quoted form and then decoding it gives a byte string back exactly when it holds no backslash. */
  lemma TwoStagesAgree(s: seq<Byte>, rest: Text)
    ensures DecodeText(ScanQuoted(Escaped(s) + [QUOTE] + rest).value) == Ok(s) <==> BACKSLASH !in s
  {
    hide DecodeText, Half, ScanQuoted, Escaped;
    ScanEscaped(s, rest);
    if BACKSLASH in s { BackslashBreaks(s); } else { PlainHalves(s); }
  }
}
