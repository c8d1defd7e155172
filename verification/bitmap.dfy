/** The NSEC type bitmap (section 4.1.2 of RFC 4034): windows of 256 types, each up to 32 octets of bits. */
module Bitmap {
  import opened Bytes

  // ---- Octets as bits ------------------------------------------------------

  function Pow2(k: nat): (p: nat)
    ensures p > 0
  {
    if k == 0 then 1 else 2 * Pow2(k - 1)
  }

  /** The number a run of bits denotes, most significant first. */
  function Number(bits: seq<bool>): (n: nat)
    ensures n < Pow2(|bits|)
  {
    if bits == [] then 0 else 2 * Number(bits[..|bits| - 1]) + if bits[|bits| - 1] then 1 else 0
  }

  function LowBits(n: nat, k: nat): (bits: seq<bool>)
    ensures |bits| == k
  {
    if k == 0 then [] else LowBits(n / 2, k - 1) + [n % 2 == 1]
  }

  lemma {:induction false} BitsOfNumber(bits: seq<bool>)
    ensures LowBits(Number(bits), |bits|) == bits
  {
    if bits != [] { BitsOfNumber(bits[..|bits| - 1]); }
  }

  lemma {:induction false} NumberOfBits(n: nat, k: nat)
    requires n < Pow2(k)
    ensures Number(LowBits(n, k)) == n
  {
    if k > 0 {
      NumberOfBits(n / 2, k - 1);
      assert LowBits(n, k)[..k - 1] == LowBits(n / 2, k - 1);
    }
  }

  type Bits = s: seq<bool> | |s| == 8 witness seq(8, _ => false)

  lemma EightBits()
    ensures Pow2(8) == 0x100
  {
    assert Pow2(4) == 16;
  }

  function ByteOf(bits: Bits): Byte {
    EightBits();
    Number(bits)
  }

  /** Bits 0 to 7 of an octet, bit 0 the most significant. */
  function BitsOf(b: Byte): Bits { LowBits(b, 8) }

  predicate BitSet(b: Byte, bit: nat)
    requires bit < 8
  {
    BitsOf(b)[bit]
  }

  lemma BitsRead(bits: Bits)
    ensures BitsOf(ByteOf(bits)) == bits
  {
    BitsOfNumber(bits);
  }

  lemma ByteReads(b: Byte)
    ensures ByteOf(BitsOf(b)) == b
  {
    EightBits();
    NumberOfBits(b, 8);
  }

  /** `b |= mask`. */
  function SetBit(b: Byte, bit: nat): Byte
    requires bit < 8
  {
    ByteOf(BitsOf(b)[bit := true])
  }

  /** Bitwise or of two octets. */
  function OrByte(a: Byte, b: Byte): Byte {
    ByteOf(seq(8, i requires 0 <= i < 8 => BitSet(a, i) || BitSet(b, i)))
  }

  lemma NoBitsSet()
    ensures ByteOf(seq(8, _ => false)) == 0
  {
    var bits := seq(8, _ => false);
    AllClear(bits);
  }

  lemma {:induction false} AllClear(bits: seq<bool>)
    requires forall i :: 0 <= i < |bits| ==> !bits[i]
    ensures Number(bits) == 0
  {
    if bits != [] { AllClear(bits[..|bits| - 1]); }
  }

  lemma OrZero(a: Byte)
    ensures OrByte(a, 0) == a
  {
    hide ByteOf, BitsOf;
    ByteReads(a);
    NoBitsSet();
    BitsRead(seq(8, _ => false));
    assert seq(8, i requires 0 <= i < 8 => BitSet(a, i) || BitSet(0, i)) == BitsOf(a);
  }

  // ---- Ascending lists -----------------------------------------------------

  predicate Ascending(s: seq<U16>) {
    forall i, j :: 0 <= i < j < |s| ==> s[i] < s[j]
  }

  /** Ascending lists with the same elements are the same list. */
  lemma {:induction false} AscendingUnique(a: seq<U16>, b: seq<U16>)
    requires Ascending(a) && Ascending(b) && forall n: U16 :: n in a <==> n in b
    ensures a == b
  {
    if a == [] {
      assert forall i :: 0 <= i < |b| ==> b[i] in b;
    } else {
      assert a[0] in b;
      assert b[0] in a;
      assert a[0] == b[0];
      forall n: U16 ensures n in a[1..] <==> n in b[1..] {
        TailMember(a, n);
        TailMember(b, n);
      }
      AscendingUnique(a[1..], b[1..]);
      assert a == [a[0]] + a[1..] && b == [b[0]] + b[1..];
    }
  }

  lemma TailMember(s: seq<U16>, n: U16)
    requires s != [] && Ascending(s)
    ensures n in s[1..] <==> n in s && n != s[0]
  {
    assert s == [s[0]] + s[1..];
  }

  /** Sorting and removing duplicates, by insertion. */
  function Insert(s: seq<U16>, n: U16): seq<U16> {
    if s == [] || n < s[0] then [n] + s
    else if n == s[0] then s
    else [s[0]] + Insert(s[1..], n)
  }

  function SortDedup(ns: seq<U16>): seq<U16> {
    if ns == [] then [] else Insert(SortDedup(ns[1..]), ns[0])
  }

  lemma {:induction false} InsertSorts(s: seq<U16>, n: U16)
    requires Ascending(s)
    ensures Ascending(Insert(s, n))
    ensures forall m: U16 :: m in Insert(s, n) <==> m == n || m in s
  {
    if s != [] {
      var t := Insert(s[1..], n);
      InsertSorts(s[1..], n);
      assert s == [s[0]] + s[1..];
      if n < s[0] {
        ConsAscends(n, s);
      } else if n > s[0] {
        forall i | 0 <= i < |t| ensures s[0] < t[i] { assert t[i] in t; }
        ConsAscends(s[0], t);
      }
    }
  }

  lemma ConsAscends(n: U16, s: seq<U16>)
    requires Ascending(s) && forall i :: 0 <= i < |s| ==> n < s[i]
    ensures Ascending([n] + s)
  {}

  /** The distinct numbers of a list, ascending. */
  lemma {:induction false} SortDedupSorts(ns: seq<U16>)
    ensures Ascending(SortDedup(ns))
    ensures forall n: U16 :: n in SortDedup(ns) <==> n in ns
  {
    if ns != [] {
      SortDedupSorts(ns[1..]);
      InsertSorts(SortDedup(ns[1..]), ns[0]);
      assert ns == [ns[0]] + ns[1..];
    }
  }

  // ---- Encoding ------------------------------------------------------------

  function Window(n: U16): Byte { n / 0x100 }
  function ByteIndex(n: U16): (i: nat)
    ensures i < 32
  {
    n % 0x100 / 8
  }

  /** Octet `i` of the bits of `group` in window `w`. */
  function GroupByte(w: Byte, group: seq<U16>, i: nat): Byte
    requires i < 32
  {
    ByteOf(seq(8, bit requires 0 <= bit < 8 => w as int * 0x100 + i * 8 + bit in group))
  }

  /** The octets of a window, up to the last with a bit set. */
  function GroupBytes(w: Byte, group: seq<U16>): seq<Byte>
    requires group != []
  {
    seq(ByteIndex(group[|group| - 1]) + 1, i requires 0 <= i <= ByteIndex(group[|group| - 1]) => GroupByte(w, group, i))
  }

  function BlockOctets(w: Byte, group: seq<U16>): seq<Byte>
    requires group != []
  {
    [w, ByteIndex(group[|group| - 1]) + 1] + GroupBytes(w, group)
  }

  /** How many leading numbers lie in window `w`. */
  function Run(w: Byte, ns: seq<U16>): (k: nat)
    ensures k <= |ns| && (forall i :: 0 <= i < k ==> Window(ns[i]) == w) && (k < |ns| ==> Window(ns[k]) != w)
  {
    if ns == [] || Window(ns[0]) != w then 0 else 1 + Run(w, ns[1..])
  }

  function Octets(ns: seq<U16>): seq<Byte> {
    if ns == [] then []
    else
      var w := Window(ns[0]);
      var k := Run(w, ns);
      BlockOctets(w, ns[..k]) + Octets(ns[k..])
  }

  lemma {:induction false} RunOfGroup(w: Byte, g: seq<U16>, rest: seq<U16>)
    requires forall i :: 0 <= i < |g| ==> Window(g[i]) == w
    requires rest == [] || Window(rest[0]) != w
    ensures Run(w, g + rest) == |g|
  {
    if g != [] {
      assert (g + rest)[1..] == g[1..] + rest;
      RunOfGroup(w, g[1..], rest);
    } else {
      assert g + rest == rest;
    }
  }

  lemma OctetsOfGroup(w: Byte, g: seq<U16>, rest: seq<U16>)
    requires g != [] && forall i :: 0 <= i < |g| ==> Window(g[i]) == w
    requires rest == [] || Window(rest[0]) != w
    ensures Octets(g + rest) == BlockOctets(w, g) + Octets(rest)
  {
    RunOfGroup(w, g, rest);
    assert Window((g + rest)[0]) == w;
    assert (g + rest)[..|g|] == g && (g + rest)[|g|..] == rest;
  }

  /** Does the 32-octet array hold exactly the bits of `g`? */
  ghost predicate Holds(bits: array<Byte>, w: Byte, g: seq<U16>)
    reads bits
  {
    bits.Length == 32 && forall i :: 0 <= i < 32 ==> bits[i] == GroupByte(w, g, i)
  }

  lemma GroupByteAdds(w: Byte, g: seq<U16>, n: U16, i: nat)
    requires i < 32 && Window(n) == w
    ensures GroupByte(w, g + [n], i) == if i == ByteIndex(n) then SetBit(GroupByte(w, g, i), n % 8) else GroupByte(w, g, i)
  {
    hide ByteOf, BitsOf;
    var before := seq(8, bit requires 0 <= bit < 8 => w as int * 0x100 + i * 8 + bit in g);
    var after := seq(8, bit requires 0 <= bit < 8 => w as int * 0x100 + i * 8 + bit in g + [n]);
    BitsRead(before);
    assert n == w as int * 0x100 + ByteIndex(n) * 8 + n % 8;
    assert i == ByteIndex(n) ==> after == before[n % 8 := true];
    assert i != ByteIndex(n) ==> after == before;
  }

  lemma NoBits(w: Byte, i: nat)
    requires i < 32
    ensures GroupByte(w, [], i) == 0
  {
    hide ByteOf;
    NoBitsSet();
    assert seq(8, bit requires 0 <= bit < 8 => w as int * 0x100 + i * 8 + bit in []) == seq(8, _ => false);
  }

  /** Flushes a window. */
  method Flush(bitmap: Buffer, w: Byte, bits: array<Byte>, maxByte: nat, ghost g: seq<U16>)
    requires maxByte < 32 && g != [] && Holds(bits, w, g) && maxByte == ByteIndex(g[|g| - 1])
    modifies bitmap
    ensures bitmap.bytes == old(bitmap.bytes) + BlockOctets(w, g)
  {
    hide GroupByte;
    bitmap.Push(w);
    bitmap.Push(maxByte + 1);
    assert bits[..maxByte + 1] == GroupBytes(w, g);
    bitmap.Extend(bits[..maxByte + 1]);
  }

  /** `encode_type_bitmap`, from sorted distinct numbers on. */
  method EncodeNumbers(ns: seq<U16>) returns (r: seq<Byte>)
    requires Ascending(ns)
    ensures r == Octets(ns)
  {
    hide GroupByte, BlockOctets, SetBit, Octets, ByteIndex, Window, Run, Holds, Ascending;
    NoOctets();
    assert [] + ns == ns;
    var bitmap := new Buffer();
    var windowStart: int := -1;
    var bits := ClearBits(0);
    var maxByte := 0;
    ghost var g: seq<U16> := [];
    for i := 0 to |ns|
      invariant fresh(bits) && fresh(bitmap)
      invariant g == [] <==> windowStart == -1
      invariant g != [] ==> i > 0 && g[|g| - 1] == ns[i - 1]
      invariant -1 <= windowStart < 0x100 && maxByte < 32
      invariant windowStart >= 0 ==>
                  Holds(bits, windowStart, g) && maxByte == ByteIndex(g[|g| - 1])
                  && (forall k :: 0 <= k < |g| ==> Window(g[k]) == windowStart)
      invariant bitmap.bytes + Octets(g + ns[i..]) == Octets(ns)
    {
      var n := ns[i];
      var w := Window(n);
      if windowStart != w {
        if windowStart >= 0 {
          OctetsOfGroup(windowStart, g, ns[i..]);
          Regroup(bitmap.bytes, [], BlockOctets(windowStart, g), Octets(ns[i..]));
          Flush(bitmap, windowStart, bits, maxByte, g);
        }
        bits := ClearBits(w);
        maxByte := 0;
        windowStart := w;
        g := [];
      }
      assert [] + ns[i..] == ns[i..] && g + ns[i..] == g + [n] + ns[i + 1..];
      AddBit(bits, w, g, n);
      if g != [] { ByteIndexAscends(ns, i); }
      if ByteIndex(n) > maxByte {
        maxByte := ByteIndex(n);
      }
      g := g + [n];
    }
    if windowStart >= 0 {
      OctetsOfGroup(windowStart, g, []);
      assert g + ns[|ns|..] == g + [];
      Flush(bitmap, windowStart, bits, maxByte, g);
    }
    r := bitmap.bytes;
  }

  lemma NoOctets()
    ensures Octets([]) == []
  {}

  lemma ByteIndexAscends(ns: seq<U16>, i: nat)
    requires Ascending(ns) && 0 < i < |ns| && Window(ns[i - 1]) == Window(ns[i])
    ensures ByteIndex(ns[i - 1]) <= ByteIndex(ns[i])
  {}

  method ClearBits(ghost w: Byte) returns (bits: array<Byte>)
    ensures fresh(bits) && Holds(bits, w, [])
  {
    bits := new Byte[32](_ => 0);
    forall i | 0 <= i < 32 ensures GroupByte(w, [], i) == 0 { NoBits(w, i); }
  }

  method AddBit(bits: array<Byte>, w: Byte, ghost g: seq<U16>, n: U16)
    requires Window(n) == w && Holds(bits, w, g)
    modifies bits
    ensures Holds(bits, w, g + [n])
  {
    hide GroupByte, SetBit;
    var i := ByteIndex(n);
    bits[i] := SetBit(bits[i], n % 8);
    forall k | 0 <= k < 32 ensures bits[k] == GroupByte(w, g + [n], k) { GroupByteAdds(w, g, n, k); }
  }

  // ---- Decoding ------------------------------------------------------------

  /** `(window << 8) | p`, where `p` may reach into the window when a block is too long. */
  function TypeNumber(w: Byte, p: nat): U16
    requires p < 0x1_0000
  {
    OrByte(w, p / 0x100) as int * 0x100 + p % 0x100
  }

  /** The types of a block, from bit position `p` on. */
  function BlockNumbers(w: Byte, bytes: seq<Byte>, p: nat): seq<U16>
    requires |bytes| < 0x100 && p <= 8 * |bytes|
    decreases 8 * |bytes| - p
  {
    if p == 8 * |bytes| then []
    else (if BitSet(bytes[p / 8], p % 8) then [TypeNumber(w, p)] else []) + BlockNumbers(w, bytes, p + 1)
  }

  /** The types of all whole blocks. */
  function Numbers(s: seq<Byte>): seq<U16> {
    if |s| < 2 || 2 + s[1] as int > |s| then []
    else
      var end := 2 + s[1] as int;
      BlockNumbers(s[0], s[2..end], 0) + Numbers(s[end..])
  }

  method DecodeNumbers(bitmap: seq<Byte>) returns (types: seq<U16>)
    ensures types == Numbers(bitmap)
  {
    hide BitSet, TypeNumber;
    types := [];
    var pos := 0;
    assert bitmap[0..] == bitmap;
    while pos + 2 <= |bitmap|
      invariant pos <= |bitmap|
      invariant types + Numbers(bitmap[pos..]) == Numbers(bitmap)
    {
      ghost var rest := bitmap[pos..];
      var window := bitmap[pos];
      var len := bitmap[pos + 1] as int;
      pos := pos + 2;
      if pos + len > |bitmap| {
        assert Numbers(rest) == [];
        return;
      }
      assert rest[2 + len..] == bitmap[pos + len..] && rest[2..2 + len] == bitmap[pos..pos + len];
      var block := DecodeBlock(bitmap, pos, window, len);
      assert types + (block + Numbers(bitmap[pos + len..])) == types + block + Numbers(bitmap[pos + len..]);
      types := types + block;
      pos := pos + len;
    }
    assert types + [] == types;
  }

  /** The two inner loops. */
  method DecodeBlock(bitmap: seq<Byte>, pos: nat, window: Byte, len: nat) returns (types: seq<U16>)
    requires pos + len <= |bitmap| && len < 0x100
    ensures types == BlockNumbers(window, bitmap[pos..pos + len], 0)
  {
    hide BitSet, TypeNumber, BlockNumbers;
    types := [];
    ghost var bytes := bitmap[pos..pos + len];
    for i := 0 to len
      invariant types + BlockNumbers(window, bytes, 8 * i) == BlockNumbers(window, bytes, 0)
    {
      var byte := bitmap[pos + i];
      for bit := 0 to 8
        invariant types + BlockNumbers(window, bytes, 8 * i + bit) == BlockNumbers(window, bytes, 0)
      {
        NextBit(types, window, bytes, i, bit);
        if BitSet(byte, bit) {
          types := types + [TypeNumber(window, i * 8 + bit)];
        }
      }
    }
    NoMoreBits(types, window, bytes);
  }

  lemma NextBit(types: seq<U16>, w: Byte, bytes: seq<Byte>, i: nat, bit: nat)
    requires i < |bytes| < 0x100 && bit < 8
    ensures types + BlockNumbers(w, bytes, 8 * i + bit) ==
            (if BitSet(bytes[i], bit) then types + [TypeNumber(w, i * 8 + bit)] else types)
            + BlockNumbers(w, bytes, 8 * i + bit + 1)
  {
    hide BitSet, TypeNumber;
    var p := 8 * i + bit;
    assert p / 8 == i && p % 8 == bit;
  }

  lemma NoMoreBits(types: seq<U16>, w: Byte, bytes: seq<Byte>)
    requires |bytes| < 0x100
    ensures types + BlockNumbers(w, bytes, 8 * |bytes|) == types
  {}

  // ---- What a block holds --------------------------------------------------

  lemma TypeNumberInWindow(w: Byte, p: nat)
    requires p < 0x100
    ensures TypeNumber(w, p) == w as int * 0x100 + p
  {
    OrZero(w);
    hide OrByte;
  }

  /** A number a block lists: in its window, with its bit set. */
  predicate Listed(w: Byte, bytes: seq<Byte>, n: U16) {
    Window(n) == w && ByteIndex(n) < |bytes| && BitSet(bytes[ByteIndex(n)], n % 8)
  }

  /** A block's types are exactly its set bits, ascending. */
  lemma {:induction false} BlockLists(w: Byte, bytes: seq<Byte>, p: nat)
    requires |bytes| <= 32 && p <= 8 * |bytes|
    ensures Ascending(BlockNumbers(w, bytes, p))
    ensures forall n: U16 :: n in BlockNumbers(w, bytes, p) <==> Listed(w, bytes, n) && n >= w as int * 0x100 + p
    decreases 8 * |bytes| - p
  {
    hide BitSet, TypeNumber;
    if p < 8 * |bytes| {
      var rest := BlockNumbers(w, bytes, p + 1);
      BlockLists(w, bytes, p + 1);
      TypeNumberInWindow(w, p);
      var m := w as int * 0x100 + p;
      assert Window(m) == w && ByteIndex(m) == p / 8 && m % 8 == p % 8;
      if BitSet(bytes[p / 8], p % 8) {
        forall i | 0 <= i < |rest| ensures m < rest[i] { assert rest[i] in rest; }
        ConsAscends(m, rest);
      }
    } else {
      forall n: U16 | Listed(w, bytes, n) ensures n < w as int * 0x100 + p {}
    }
  }

  lemma GroupBit(w: Byte, g: seq<U16>, n: U16)
    requires Window(n) == w
    ensures BitSet(GroupByte(w, g, ByteIndex(n)), n % 8) <==> n in g
  {
    hide ByteOf, BitsOf;
    var i := ByteIndex(n);
    BitsRead(seq(8, bit requires 0 <= bit < 8 => w as int * 0x100 + i * 8 + bit in g));
    assert n == w as int * 0x100 + i * 8 + n % 8;
  }

  predicate InWindow(w: Byte, g: seq<U16>) {
    forall i :: 0 <= i < |g| ==> Window(g[i]) == w
  }

  /** Decoding an encoded window gives its group back. */
  lemma GroupReadsBack(w: Byte, g: seq<U16>)
    requires g != [] && Ascending(g) && InWindow(w, g)
    ensures BlockNumbers(w, GroupBytes(w, g), 0) == g
  {
    hide BitSet, GroupByte, BlockNumbers;
    var bytes := GroupBytes(w, g);
    BlockLists(w, bytes, 0);
    forall n: U16 ensures n in BlockNumbers(w, bytes, 0) <==> n in g {
      if Window(n) == w { GroupBit(w, g, n); }
      if n in g {
        var i :| 0 <= i < |g| && g[i] == n;
        assert g[i] <= g[|g| - 1];
        assert ByteIndex(n) <= ByteIndex(g[|g| - 1]);
      }
    }
    AscendingUnique(BlockNumbers(w, bytes, 0), g);
  }

  lemma NumbersOfBlock(w: Byte, g: seq<U16>, rest: seq<Byte>)
    requires g != []
    ensures Numbers(BlockOctets(w, g) + rest) == BlockNumbers(w, GroupBytes(w, g), 0) + Numbers(rest)
  {
    hide BlockNumbers, GroupByte;
    var s := BlockOctets(w, g) + rest;
    var bytes := GroupBytes(w, g);
    assert s[0] == w && s[1] as int == |bytes|;
    assert s[2..2 + |bytes|] == bytes && s[2 + |bytes|..] == rest;
  }

  lemma GroupSplits(ns: seq<U16>) returns (w: Byte, g: seq<U16>, rest: seq<U16>)
    requires ns != [] && Ascending(ns)
    ensures g != [] && ns == g + rest && Ascending(g) && Ascending(rest) && InWindow(w, g) && |rest| < |ns|
    ensures rest != [] ==> Window(rest[0]) > w
  {
    w := Window(ns[0]);
    var k := Run(w, ns);
    g, rest := ns[..k], ns[k..];
    if rest != [] { assert ns[0] < ns[k]; }
  }

  /** Decoding what was encoded lists exactly the encoded types, in ascending order. */
  lemma {:induction false} EncodeDecode(ns: seq<U16>)
    requires Ascending(ns)
    ensures Numbers(Octets(ns)) == ns
    decreases |ns|
  {
    hide BlockOctets, BlockNumbers, GroupBytes, Octets, Ascending, InWindow;
    if ns == [] {
      NoOctets();
    } else {
      var w, g, rest := GroupSplits(ns);
      assert InWindow(w, g) && rest == rest;
      GroupOctets(w, g, rest);
      NumbersOfBlock(w, g, Octets(rest));
      GroupReadsBack(w, g);
      EncodeDecode(rest);
    }
  }

  lemma GroupOctets(w: Byte, g: seq<U16>, rest: seq<U16>)
    requires g != [] && InWindow(w, g) && (rest == [] || Window(rest[0]) != w)
    ensures Octets(g + rest) == BlockOctets(w, g) + Octets(rest)
  {
    OctetsOfGroup(w, g, rest);
  }

  // ---- Canonical bitmaps ---------------------------------------------------

  /** Windows strictly ascend; blocks have 1 to 32 octets and do not end in a zero octet. */
  predicate Canonical(s: seq<Byte>) {
    s == [] ||
    (|s| > 2 && 1 <= s[1] <= 32 && 2 + s[1] as int <= |s| && s[1 + s[1] as int] != 0
     && var rest := s[2 + s[1] as int..]; (rest == [] || rest[0] > s[0]) && Canonical(rest))
  }

  lemma NonzeroHasBit(b: Byte)
    ensures b != 0 <==> exists bit :: 0 <= bit < 8 && BitSet(b, bit)
  {
    hide BitsOf, ByteOf;
    ByteReads(b);
    NoBitsSet();
    BitsRead(seq(8, _ => false));
    if forall bit :: 0 <= bit < 8 ==> !BitSet(b, bit) {
      forall i | 0 <= i < 8 ensures !BitsOf(b)[i] { assert BitsOf(b)[i] == BitSet(b, i); }
      assert BitsOf(b) == seq(8, _ => false);
    }
  }

  /** Encoding always gives a canonical bitmap. */
  lemma {:induction false} EncodeIsCanonical(ns: seq<U16>)
    requires Ascending(ns)
    ensures Canonical(Octets(ns)) && (ns != [] ==> Octets(ns) != [] && Octets(ns)[0] == Window(ns[0]))
    decreases |ns|
  {
    hide GroupBytes, Octets, Ascending, ByteIndex, Window, Canonical;
    NoOctets();
    if ns == [] {
      NothingIsCanonical();
    } else {
      var w, g, rest := GroupSplits(ns);
      GroupOctets(w, g, rest);
      EncodeIsCanonical(rest);
      LastByteSet(w, g);
      OneBlockMore(w, GroupBytes(w, g), Octets(rest));
      assert ns[0] == g[0];
    }
  }

  lemma LastByteSet(w: Byte, g: seq<U16>)
    requires g != [] && InWindow(w, g)
    ensures var bytes := GroupBytes(w, g);
            1 <= |bytes| <= 32 && bytes[|bytes| - 1] != 0 && |bytes| == ByteIndex(g[|g| - 1]) + 1
  {
    hide GroupByte, BitSet;
    var last := g[|g| - 1];
    GroupBit(w, g, last);
    NonzeroHasBit(GroupByte(w, g, ByteIndex(last)));
  }

  lemma OneBlockMore(w: Byte, bytes: seq<Byte>, rest: seq<Byte>)
    requires 1 <= |bytes| <= 32 && bytes[|bytes| - 1] != 0 && Canonical(rest) && (rest == [] || rest[0] > w)
    ensures Canonical([w, |bytes|] + bytes + rest)
  {
    var s := [w, |bytes|] + bytes + rest;
    assert s[2 + |bytes|..] == rest && s[1 + |bytes|] == bytes[|bytes| - 1];
  }

  lemma NothingIsCanonical()
    ensures Canonical([])
  {}

  lemma BlockByte(w: Byte, bytes: seq<Byte>, i: nat)
    requires i < |bytes| <= 32
    ensures GroupByte(w, BlockNumbers(w, bytes, 0), i) == bytes[i]
  {
    hide BitsOf, ByteOf, BlockNumbers;
    BlockLists(w, bytes, 0);
    ByteReads(bytes[i]);
    var g := BlockNumbers(w, bytes, 0);
    var bits := seq(8, bit requires 0 <= bit < 8 => w as int * 0x100 + i * 8 + bit in g);
    forall bit | 0 <= bit < 8 ensures bits[bit] == BitSet(bytes[i], bit) {
      var n := w as int * 0x100 + i * 8 + bit;
      assert Window(n) == w && ByteIndex(n) == i && n % 8 == bit;
    }
    assert bits == BitsOf(bytes[i]);
  }

  /** Encoding a decoded block that does not end in a zero octet gives it back. */
  lemma BlockWritesBack(w: Byte, bytes: seq<Byte>)
    requires 1 <= |bytes| <= 32 && bytes[|bytes| - 1] != 0
    ensures var g := BlockNumbers(w, bytes, 0);
            g != [] && Ascending(g) && InWindow(w, g) && BlockOctets(w, g) == [w, |bytes|] + bytes
  {
    hide BitSet, GroupByte, BlockNumbers;
    var g := BlockNumbers(w, bytes, 0);
    BlockLists(w, bytes, 0);
    NonzeroHasBit(bytes[|bytes| - 1]);
    var bit :| 0 <= bit < 8 && BitSet(bytes[|bytes| - 1], bit);
    var top := w as int * 0x100 + (|bytes| - 1) * 8 + bit;
    assert Window(top) == w && ByteIndex(top) == |bytes| - 1 && top % 8 == bit;
    assert top in g;
    var last := g[|g| - 1];
    assert last in g && top <= last;
    assert ByteIndex(last) == |bytes| - 1;
    forall i | 0 <= i < |bytes| ensures GroupByte(w, g, i) == bytes[i] { BlockByte(w, bytes, i); }
    assert GroupBytes(w, g) == bytes;
    forall i | 0 <= i < |g| ensures Window(g[i]) == w { assert g[i] in g; }
  }

  /** Re-encoding the types of any canonical bitmap gives it back. */
  lemma {:induction false} DecodeEncode(s: seq<Byte>)
    requires Canonical(s)
    ensures var ns := Numbers(s);
            Ascending(ns) && Octets(ns) == s && (s != [] ==> ns != [] && Window(ns[0]) == s[0])
  {
    hide BlockNumbers, BlockOctets, Octets;
    if s == [] {
      NoOctets();
    } else {
      var w, end := s[0], 2 + s[1] as int;
      var bytes, rest := s[2..end], s[end..];
      var g := BlockNumbers(w, bytes, 0);
      BlockWritesBack(w, bytes);
      DecodeEncode(rest);
      var later := Numbers(rest);
      GroupOctets(w, g, later);
      assert s == [w, |bytes|] + bytes + rest;
      if later != [] { WindowsAscend(w, g, later); }
      assert g + [] == g;
    }
  }

  lemma WindowsAscend(w: Byte, g: seq<U16>, later: seq<U16>)
    requires InWindow(w, g) && Ascending(g) && Ascending(later) && later != [] && Window(later[0]) > w
    ensures Ascending(g + later)
  {
    forall i, j | 0 <= i < |g| && 0 <= j < |later| ensures g[i] < later[j] {
      assert later[0] <= later[j];
    }
  }

  lemma AscendingIsSorted(ns: seq<U16>)
    requires Ascending(ns)
    ensures SortDedup(ns) == ns
  {
    SortDedupSorts(ns);
    AscendingUnique(SortDedup(ns), ns);
  }

  /** Bit 0 of an octet is worth 128, and bit 7 is worth 1. */
  lemma BitWorth(b: Byte, bit: nat)
    requires bit < 8
    ensures BitSet(b, bit) <==> b as int / Pow2(7 - bit) % 2 == 1
  {
    BitAt(b, 8, bit);
  }

  lemma {:induction false} BitAt(n: nat, k: nat, i: nat)
    requires i < k
    ensures LowBits(n, k)[i] <==> n / Pow2(k - 1 - i) % 2 == 1
  {
    if i < k - 1 {
      BitAt(n / 2, k - 1, i);
      var p := Pow2(k - 2 - i);
      DivTwice(n, p);
    }
  }

  lemma DivTwice(n: nat, p: nat)
    requires p > 0
    ensures n / 2 / p == n / (2 * p)
  {
    var q, r := n / 2 / p, n / 2 % p;
    assert n / 2 == q * p + r;
    assert n == q * (2 * p) + (2 * r + n % 2) && 0 <= 2 * r + n % 2 < 2 * p;
    Quotient(n, 2 * p, q);
  }
}
