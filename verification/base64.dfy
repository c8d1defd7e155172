/** Base64 with the standard alphabet and mandatory padding (section 4 of RFC 4648). */
module Base64 {
  import opened Bytes
  import opened Records

  const PAD: Byte := 61

  type Sextet = v: int | 0 <= v < 64

  /** A-Z, a-z, 0-9, '+' and '/'. */
  function Symbol(v: Sextet): (b: Byte)
    ensures 0 < b < 0x80 && b != PAD
  {
    if v < 26 then 65 + v
    else if v < 52 then 97 + (v - 26)
    else if v < 62 then 48 + (v - 52)
    else if v == 62 then 43
    else 47
  }

  predicate IsSymbol(b: Byte) {
    65 <= b <= 90 || 97 <= b <= 122 || 48 <= b <= 57 || b == 43 || b == 47
  }

  function SymbolValue(b: Byte): (v: Sextet)
    requires IsSymbol(b)
    ensures Symbol(v) == b
  {
    if b == 43 then 62
    else if b == 47 then 63
    else if b <= 57 then b - 48 + 52
    else if b <= 90 then b - 65
    else b - 97 + 26
  }

  lemma SymbolReads(v: Sextet)
    ensures IsSymbol(Symbol(v)) && SymbolValue(Symbol(v)) == v
  {}

  // ---- Three octets and four sextets ---------------------------------------

  function Sextet1(x: Byte): Sextet { x / 4 }
  function Sextet2(x: Byte, y: Byte): Sextet { x % 4 * 16 + y / 16 }
  function Sextet3(y: Byte, z: Byte): Sextet { y % 16 * 4 + z / 64 }
  function Sextet4(z: Byte): Sextet { z % 64 }

  function Octet1(a: Sextet, b: Sextet): Byte { a * 4 + b / 16 }
  function Octet2(b: Sextet, c: Sextet): Byte { b % 16 * 16 + c / 4 }
  function Octet3(c: Sextet, d: Sextet): Byte { c % 4 * 64 + d }

  lemma OctetsOfSextets(x: Byte, y: Byte, z: Byte)
    ensures Octet1(Sextet1(x), Sextet2(x, y)) == x
    ensures Octet2(Sextet2(x, y), Sextet3(y, z)) == y
    ensures Octet3(Sextet3(y, z), Sextet4(z)) == z
    ensures Sextet2(x, 0) % 16 == 0 && Sextet3(y, 0) % 4 == 0
  {}

  lemma SextetsOfOctets(a: Sextet, b: Sextet, c: Sextet, d: Sextet)
    ensures Sextet1(Octet1(a, b)) == a
    ensures Sextet2(Octet1(a, b), Octet2(b, c)) == b
    ensures Sextet3(Octet2(b, c), Octet3(c, d)) == c
    ensures Sextet4(Octet3(c, d)) == d
    ensures b % 16 == 0 ==> Sextet2(Octet1(a, b), 0) == b
    ensures c % 4 == 0 ==> Sextet3(Octet2(b, c), 0) == c
  {}

  // ---- The codec -----------------------------------------------------------

  function Encode(data: seq<Byte>): (s: seq<Byte>)
    ensures |s| == (|data| + 2) / 3 * 4
    ensures forall i :: 0 <= i < |s| ==> 0 < s[i] < 0x80
  {
    if data == [] then []
    else if |data| == 1 then [Symbol(Sextet1(data[0])), Symbol(Sextet2(data[0], 0)), PAD, PAD]
    else if |data| == 2 then
      [Symbol(Sextet1(data[0])), Symbol(Sextet2(data[0], data[1])), Symbol(Sextet3(data[1], 0)), PAD]
    else
      [Symbol(Sextet1(data[0])), Symbol(Sextet2(data[0], data[1])), Symbol(Sextet3(data[1], data[2])),
       Symbol(Sextet4(data[2]))] + Encode(data[3..])
  }

  /** Strict decoding: full groups of four, padding exactly where it must be, unused bits zero. */
  function Decode(s: seq<Byte>): Option<seq<Byte>> {
    if s == [] then Some([])
    else if |s| < 4 || !IsSymbol(s[0]) || !IsSymbol(s[1]) then None
    else
      var a, b := SymbolValue(s[0]), SymbolValue(s[1]);
      if |s| == 4 && s[2] == PAD && s[3] == PAD then
        if b % 16 != 0 then None else Some([Octet1(a, b)])
      else if !IsSymbol(s[2]) then None
      else
        var c := SymbolValue(s[2]);
        if |s| == 4 && s[3] == PAD then
          if c % 4 != 0 then None else Some([Octet1(a, b), Octet2(b, c)])
        else if !IsSymbol(s[3]) then None
        else
          match Decode(s[4..])
          case None => None
          case Some(rest) => Some([Octet1(a, b), Octet2(b, c), Octet3(c, SymbolValue(s[3]))] + rest)
  }

  lemma {:induction false} EncodeDecode(data: seq<Byte>)
    ensures Decode(Encode(data)) == Some(data)
  {
    hide Symbol, SymbolValue, IsSymbol, Sextet1, Sextet2, Sextet3, Sextet4, Octet1, Octet2, Octet3;
    if data != [] {
      var x := data[0];
      var y := if |data| >= 2 then data[1] else 0;
      var z := if |data| >= 3 then data[2] else 0;
      OctetsOfSextets(x, y, z);
      SymbolReads(Sextet1(x));
      SymbolReads(Sextet2(x, y));
      SymbolReads(Sextet3(y, z));
      SymbolReads(Sextet4(z));
      if |data| >= 3 {
        EncodeDecode(data[3..]);
        assert Encode(data)[4..] == Encode(data[3..]);
        assert data == [x, y, z] + data[3..];
      } else if |data| == 2 {
        assert data == [x, y];
      } else {
        assert data == [x];
      }
    }
  }

  lemma LastGroup(s: seq<Byte>)
    requires Decode(s).Some? && |s| == 4 && s[3] == PAD
    ensures Encode(Decode(s).value) == s
  {
    hide Symbol, SymbolValue, IsSymbol, Sextet1, Sextet2, Sextet3, Sextet4, Octet1, Octet2, Octet3;
    var a, b := SymbolValue(s[0]), SymbolValue(s[1]);
    if s[2] == PAD {
      SextetsOfOctets(a, b, 0, 0);
    } else {
      SextetsOfOctets(a, b, SymbolValue(s[2]), 0);
    }
    assert s == [s[0], s[1], s[2], s[3]];
  }

  lemma {:induction false} DecodeEncode(s: seq<Byte>)
    requires Decode(s).Some?
    ensures Encode(Decode(s).value) == s
  {
    hide Symbol, SymbolValue, IsSymbol, Sextet1, Sextet2, Sextet3, Sextet4, Octet1, Octet2, Octet3;
    if s != [] {
      var a, b := SymbolValue(s[0]), SymbolValue(s[1]);
      if |s| == 4 && s[3] == PAD {
        LastGroup(s);
      } else {
        assert s[3] != PAD;
        SextetsOfOctets(a, b, SymbolValue(s[2]), SymbolValue(s[3]));
        DecodeEncode(s[4..]);
        assert Decode(s).value[3..] == Decode(s[4..]).value;
        assert s == [s[0], s[1], s[2], s[3]] + s[4..];
      }
    }
  }

  /** Octet `i`, or zero after the end. */
  function At(data: seq<Byte>, i: nat): Byte { if i < |data| then data[i] else 0 }

  /** The value of a symbol, padding counting as zero. */
  function Digit(b: Byte): Sextet { if IsSymbol(b) then SymbolValue(b) else 0 }

  /** The 24 bits of four symbols, and of three octets. */
  function Bits4(a: int, b: int, c: int, d: int): int { ((a * 0x40 + b) * 0x40 + c) * 0x40 + d }
  function Bits3(x: int, y: int, z: int): int { (x * 0x100 + y) * 0x100 + z }

  lemma GroupBits(x: Byte, y: Byte, z: Byte)
    ensures Bits4(Sextet1(x), Sextet2(x, y), Sextet3(y, z), Sextet4(z)) == Bits3(x, y, z)
    ensures Sextet3(0, 0) == Sextet4(0) == 0
  {}

  lemma DigitReads(v: Sextet)
    ensures Digit(Symbol(v)) == v && Digit(PAD) == 0
  {
    SymbolReads(v);
  }

  lemma FirstBits(data: seq<Byte>)
    requires data != []
    ensures var s := Encode(data);
            Bits4(Digit(s[0]), Digit(s[1]), Digit(s[2]), Digit(s[3])) == Bits3(data[0], At(data, 1), At(data, 2))
  {
    hide Symbol, SymbolValue, IsSymbol, Digit, Sextet1, Sextet2, Sextet3, Sextet4, Bits4, Bits3;
    var x, y, z := data[0], At(data, 1), At(data, 2);
    GroupBits(x, y, z);
    DigitReads(Sextet1(x));
    DigitReads(Sextet2(x, y));
    DigitReads(Sextet3(y, z));
    DigitReads(Sextet4(z));
  }

  /** Each four symbols stand for the bits of the three octets they encode, the last group filled up with zeros. */
  lemma {:induction false} SameBits(data: seq<Byte>, k: nat)
    requires 3 * k < |data|
    ensures var s := Encode(data);
            Bits4(Digit(s[4 * k]), Digit(s[4 * k + 1]), Digit(s[4 * k + 2]), Digit(s[4 * k + 3]))
            == Bits3(data[3 * k], At(data, 3 * k + 1), At(data, 3 * k + 2))
  {
    hide Symbol, SymbolValue, IsSymbol, Digit, Sextet1, Sextet2, Sextet3, Sextet4, Bits4, Bits3;
    if k > 0 {
      SameBits(data[3..], k - 1);
      assert Encode(data)[4..] == Encode(data[3..]);
    } else {
      FirstBits(data);
    }
  }

  /** Where each run of the alphabet of section 4 of RFC 4648 begins and ends. */
  lemma Alphabet()
    ensures [Symbol(0), Symbol(25), Symbol(26), Symbol(51)] == Ascii("AZaz")
    ensures [Symbol(52), Symbol(61), Symbol(62), Symbol(63)] == Ascii("09+/")
  {}
}
