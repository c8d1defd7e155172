/** Octets, big-endian integers, and the growable byte buffer every encoder appends to. */
module Bytes {

  type Byte = b: int | 0 <= b < 0x100
  type U16 = n: int | 0 <= n < 0x1_0000
  type U32 = n: int | 0 <= n < 0x1_0000_0000
  type U48 = n: int | 0 <= n < 0x1_0000_0000_0000

  /** The bytes of an ASCII text. */
  function Ascii(s: string): (r: seq<Byte>)
    requires forall i :: 0 <= i < |s| ==> s[i] as int < 0x80
  {
    seq(|s|, i requires 0 <= i < |s| => s[i] as int)
  }

  /** The characters with these codes. */
  function Chars(s: seq<Byte>): (r: string) { seq(|s|, i requires 0 <= i < |s| => s[i] as char) }

  lemma CharsOfAscii(s: string)
    requires forall i :: 0 <= i < |s| ==> s[i] as int < 0x80
    ensures Chars(Ascii(s)) == s
  {}

  /** The outcome of a fallible operation. */
  datatype Result<+T, +E> = Ok(value: T) | Err(error: E)

  lemma Regroup<T>(a: seq<T>, b: seq<T>, c: seq<T>, d: seq<T>)
    ensures a + (b + c + d) == a + b + c + d
  {}

  /** Equal concatenations with equally long first parts have equal parts. */
  lemma SamePrefix<T>(a: seq<T>, b: seq<T>, c: seq<T>, d: seq<T>)
    requires a + b == c + d && |a| == |c|
    ensures a == c && b == d
  {
    assert a == (a + b)[..|a|] && c == (c + d)[..|c|];
    assert b == (a + b)[|a|..] && d == (c + d)[|c|..];
  }

  /** Puts already decoded bytes in front of the rest of a decoding. */
  function Prepend<E>(head: seq<Byte>, tail: Result<seq<Byte>, E>): Result<seq<Byte>, E> {
    match tail
    case Ok(t) => Ok(head + t)
    case Err(e) => Err(e)
  }

  lemma PrependPrepend<E>(a: seq<Byte>, b: seq<Byte>, r: Result<seq<Byte>, E>)
    ensures Prepend([], r) == r && Prepend(a, Prepend(b, r)) == Prepend(a + b, r)
  {
    if r.Ok? {
      assert a + (b + r.value) == a + b + r.value && [] + r.value == r.value;
    }
  }

  function Be16(n: U16): (r: seq<Byte>) {
    [n / 0x100, n % 0x100]
  }

  function Be32(n: U32): (r: seq<Byte>) {
    Be16(n / 0x1_0000) + Be16(n % 0x1_0000)
  }

  function Be48(n: U48): (r: seq<Byte>) {
    Be16(n / 0x1_0000_0000) + Be32(n % 0x1_0000_0000)
  }

  function ReadBe16(s: seq<Byte>): (n: U16)
    requires |s| >= 2
  {
    s[0] as int * 0x100 + s[1] as int
  }

  function ReadBe32(s: seq<Byte>): (n: U32)
    requires |s| >= 4
  {
    ReadBe16(s) * 0x1_0000 + ReadBe16(s[2..])
  }

  function ReadBe48(s: seq<Byte>): (n: U48)
    requires |s| >= 6
  {
    ReadBe16(s) * 0x1_0000_0000 + ReadBe32(s[2..])
  }

  /** A big-endian field reads back as the number written, whatever follows it. */
  lemma Be16Reads(n: U16, rest: seq<Byte>)
    ensures |Be16(n)| == 2 && ReadBe16(Be16(n) + rest) == n && (Be16(n) + rest)[2..] == rest
  {}

  lemma Be32Reads(n: U32, rest: seq<Byte>)
    ensures |Be32(n)| == 4 && ReadBe32(Be32(n) + rest) == n && (Be32(n) + rest)[4..] == rest
  {
    assert (Be32(n) + rest)[2..] == Be16(n % 0x1_0000) + rest;
  }

  lemma Be48Reads(n: U48, rest: seq<Byte>)
    ensures |Be48(n)| == 6 && ReadBe48(Be48(n) + rest) == n && (Be48(n) + rest)[6..] == rest
  {
    assert (Be48(n) + rest)[2..] == Be32(n % 0x1_0000_0000) + rest;
    Be32Reads(n % 0x1_0000_0000, rest);
  }

  /** Writing what was read gives the bytes read. */
  lemma Be16OfRead(s: seq<Byte>)
    requires |s| >= 2
    ensures Be16(ReadBe16(s)) == s[..2]
  {}

  lemma Be32OfRead(s: seq<Byte>)
    requires |s| >= 4
    ensures Be32(ReadBe32(s)) == s[..4]
  {
    assert s[..4] == s[..2] + s[2..][..2];
    Be16OfRead(s);
    Be16OfRead(s[2..]);
  }

  lemma Be48OfRead(s: seq<Byte>)
    requires |s| >= 6
    ensures Be48(ReadBe48(s)) == s[..6]
  {
    hide ReadBe32, Be32;
    assert s[..6] == s[..2] + s[2..][..4];
    Be16OfRead(s);
    Be32OfRead(s[2..]);
  }

  // ---- Division ------------------------------------------------------------

  lemma Quotient(x: int, d: nat, q: int)
    requires d > 0 && q * d <= x < q * d + d
    ensures x / d == q
  {
    var p := x / d;
    assert x == p * d + x % d;
    if p > q { Multiples(q, p, d); }
    if p < q { Multiples(p, q, d); }
  }

  lemma {:induction false} Multiples(a: int, b: int, d: nat)
    requires a < b
    ensures a * d + d <= b * d
    decreases b - a
  {
    if a + 1 < b { Multiples(a, b - 1, d); }
  }

  /** A growable byte vector, shared by reference between the encoders that append to it. */
  class Buffer {
    var bytes: seq<Byte>

    constructor ()
      ensures bytes == []
    {
      bytes := [];
    }

    method Push(b: Byte)
      modifies this
      ensures bytes == old(bytes) + [b]
    {
      bytes := bytes + [b];
    }

    method Extend(more: seq<Byte>)
      modifies this
      ensures bytes == old(bytes) + more
    {
      bytes := bytes + more;
    }
  }
}
