/** Hexadecimal text. */
module Hex {
  import opened Bytes
  import opened Records

  type Nibble = n: int | 0 <= n < 16

  function Digit(n: Nibble): (b: Byte)
    ensures 48 <= b <= 57 || 97 <= b <= 102
  {
    if n < 10 then 48 + n else 87 + n
  }

  /** Either case is accepted. */
  function DigitValue(b: Byte): Option<Nibble> {
    if 48 <= b <= 57 then Some(b - 48)
    else if 97 <= b <= 102 then Some(b - 87)
    else if 65 <= b <= 70 then Some(b - 55)
    else None
  }

  function Encode(s: seq<Byte>): (t: seq<Byte>)
    ensures forall i :: 0 <= i < |t| ==> 48 <= t[i] <= 57 || 97 <= t[i] <= 102
  {
    if s == [] then [] else [Digit(s[0] / 16), Digit(s[0] % 16)] + Encode(s[1..])
  }

  function Decode(t: seq<Byte>): Option<seq<Byte>> {
    if t == [] then Some([])
    else if |t| < 2 then None
    else
      match (DigitValue(t[0]), DigitValue(t[1]), Decode(t[2..]))
      case (Some(h), Some(l), Some(rest)) => Some([h as int * 16 + l] + rest)
      case _ => None
  }

  method EncodeHex(s: seq<Byte>) returns (t: seq<Byte>)
    ensures t == Encode(s)
  {
    hide Digit;
    t := [];
    assert s[0..] == s;
    for i := 0 to |s|
      invariant t + Encode(s[i..]) == Encode(s)
    {
      assert s[i..][1..] == s[i + 1..];
      Regroup(t, [], [Digit(s[i] / 16), Digit(s[i] % 16)], Encode(s[i + 1..]));
      t := t + [Digit(s[i] / 16), Digit(s[i] % 16)];
    }
    assert t + [] == t;
  }

  /** Decoding what was encoded gives the bytes back. */
  lemma {:induction false} EncodeDecode(s: seq<Byte>)
    ensures Decode(Encode(s)) == Some(s)
  {
    if s != [] {
      EncodeDecode(s[1..]);
      assert Encode(s)[2..] == Encode(s[1..]);
      assert s == [s[0]] + s[1..];
    }
  }

  function LowerDigit(b: Byte): Byte { if 65 <= b <= 70 then b + 32 else b }
  function LowerDigits(t: seq<Byte>): seq<Byte> { seq(|t|, i requires 0 <= i < |t| => LowerDigit(t[i])) }

  lemma {:induction false} DecodeLower(t: seq<Byte>)
    ensures Decode(LowerDigits(t)) == Decode(t)
  {
    if |t| >= 2 {
      DecodeLower(t[2..]);
      assert LowerDigits(t)[2..] == LowerDigits(t[2..]);
    }
  }

  lemma PairBack(a: Byte, b: Byte)
    requires DigitValue(a).Some? && DigitValue(b).Some?
    ensures var v := DigitValue(a).value as int * 16 + DigitValue(b).value;
            Digit(v / 16) == LowerDigit(a) && Digit(v % 16) == LowerDigit(b)
  {}

  lemma {:induction false} DecodeEncode(t: seq<Byte>)
    requires Decode(t).Some?
    ensures Encode(Decode(t).value) == LowerDigits(t)
  {
    hide Digit, DigitValue, LowerDigit;
    if t != [] {
      DecodeEncode(t[2..]);
      PairBack(t[0], t[1]);
      assert LowerDigits(t) == [LowerDigit(t[0]), LowerDigit(t[1])] + LowerDigits(t[2..]);
      assert Decode(t).value[1..] == Decode(t[2..]).value;
    }
  }

  /** Exactly the encoding, with digits in either case, is accepted. */
  lemma DecodeIff(t: seq<Byte>, s: seq<Byte>)
    ensures Decode(t) == Some(s) <==> LowerDigits(t) == Encode(s)
  {
    DecodeLower(t);
    EncodeDecode(s);
    if Decode(t).Some? { DecodeEncode(t); }
  }

  /** The high half of an octet comes first, in lower-case digits. */
  lemma Vector()
    ensures Encode([0x0F, 0xA0]) == Ascii("0fa0")
  {
    assert [0x0F, 0xA0][1..] == [0xA0] && [0xA0][1..] == [];
  }
}
