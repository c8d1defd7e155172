/** Resource records, the RDATA field tables, and their wire encoding. */
module Records {
  import opened Bytes
  import opened Domain

  datatype Option<+T> = None | Some(value: T)

  type Ttl = n: U32 | n < 0x8000_0000
  type Ipv4 = s: seq<Byte> | |s| == 4 witness [0, 0, 0, 0]
  type Ipv6 = s: seq<Byte> | |s| == 16 witness seq(16, i => 0)

  datatype RecordData =
    | A(addr4: Ipv4)
    | Aaaa(addr6: Ipv6)
    | Cname(name: DomainName)
    | Ns(name: DomainName)
    | Ptr(name: DomainName)
    | Soa(mname: DomainName, rname: DomainName, serial: U32, refresh: Ttl, retry: Ttl, expire: Ttl, minimum: Ttl)
    | Mx(preference: U16, exchange: DomainName)
    | Txt(strings: seq<seq<Byte>>)
    | Srv(priority: U16, weight: U16, port: U16, target: DomainName)
    | Caa(caaFlags: Byte, tag: seq<Byte>, caaValue: seq<Byte>)
    | Dnskey(keyFlags: U16, protocol: Byte, algorithm: Byte, publicKey: seq<Byte>)
    | Rrsig(typeCovered: U16, algorithm: Byte, labelCount: Byte, originalTtl: U32, expiration: U32, inception: U32,
            keyTag: U16, signer: DomainName, signature: seq<Byte>)
    | Nsec(next: DomainName, bitmaps: seq<Byte>)
    | Nsec3(hashAlgorithm: Byte, hashFlags: Byte, iterations: U16, salt: seq<Byte>, nextHashed: seq<Byte>,
            bitmaps: seq<Byte>)
    | Ds(keyTag: U16, algorithm: Byte, digestType: Byte, digest: seq<Byte>)
    | Cds(keyTag: U16, algorithm: Byte, digestType: Byte, digest: seq<Byte>)
    | Cdnskey(keyFlags: U16, protocol: Byte, algorithm: Byte, publicKey: seq<Byte>)
    | Tlsa(usage: Byte, selector: Byte, matchingType: Byte, certificate: seq<Byte>)
    | Sshfp(algorithm: Byte, fpType: Byte, fingerprint: seq<Byte>)
    | Csync(soaSerial: U32, syncFlags: U16, bitmaps: seq<Byte>)
    | Rp(mbox: DomainName, txt: DomainName)
    | Nsec3param(hashAlgorithm: Byte, hashFlags: Byte, iterations: U16, salt: seq<Byte>)
    | Dlv(keyTag: U16, algorithm: Byte, digestType: Byte, digest: seq<Byte>)
    | Unknown(rtype: U16, rdata: seq<Byte>)

  datatype ResourceRecord = ResourceRecord(owner: DomainName, rclass: U16, ttl: Ttl, rdata: RecordData)

  /** IANA type number of a variant. */
  function TypeValue(rd: RecordData): U16 {
    match rd
    case A(_) => 1
    case Aaaa(_) => 28
    case Cname(_) => 5
    case Ns(_) => 2
    case Ptr(_) => 12
    case Soa(_, _, _, _, _, _, _) => 6
    case Mx(_, _) => 15
    case Txt(_) => 16
    case Srv(_, _, _, _) => 33
    case Caa(_, _, _) => 257
    case Dnskey(_, _, _, _) => 48
    case Rrsig(_, _, _, _, _, _, _, _, _) => 46
    case Nsec(_, _) => 47
    case Nsec3(_, _, _, _, _, _) => 50
    case Ds(_, _, _, _) => 43
    case Cds(_, _, _, _) => 59
    case Cdnskey(_, _, _, _) => 60
    case Tlsa(_, _, _, _) => 52
    case Sshfp(_, _, _) => 44
    case Csync(_, _, _) => 62
    case Rp(_, _) => 17
    case Nsec3param(_, _, _, _) => 51
    case Dlv(_, _, _, _) => 32769
    case Unknown(rtype, _) => rtype
  }

  // ---- RDATA as a list of fields -------------------------------------------

  /** One RDATA field. Names are full names when writing and bare label contents when reading. */
  datatype Field<+N> =
    | F8(b: Byte)
    | F16(h: U16)
    | F32(w: U32)
    | FName(name: N)
    | FCounted(bytes: seq<Byte>)
    | FRaw(bytes: seq<Byte>)

  /** The fields each variant writes, in order. */
  function FieldsOf(rd: RecordData): seq<Field<DomainName>> {
    match rd
    case A(addr) => [FRaw(addr)]
    case Aaaa(addr) => [FRaw(addr)]
    case Cname(n) => [FName(n)]
    case Ns(n) => [FName(n)]
    case Ptr(n) => [FName(n)]
    case Soa(m, r, serial, refresh, retry, expire, minimum) =>
      [FName(m), FName(r), F32(serial), F32(refresh), F32(retry), F32(expire), F32(minimum)]
    case Mx(p, x) => [F16(p), FName(x)]
    case Txt(strings) => seq(|strings|, i requires 0 <= i < |strings| => FCounted(strings[i]))
    case Srv(p, w, port, t) => [F16(p), F16(w), F16(port), FName(t)]
    case Caa(f, tag, v) => [F8(f), FCounted(tag), FRaw(v)]
    case Dnskey(f, p, a, k) => [F16(f), F8(p), F8(a), FRaw(k)]
    case Rrsig(t, a, l, ttl, e, i, k, s, sig) =>
      [F16(t), F8(a), F8(l), F32(ttl), F32(e), F32(i), F16(k), FName(s), FRaw(sig)]
    case Nsec(n, b) => [FName(n), FRaw(b)]
    case Nsec3(h, f, it, salt, next, b) => [F8(h), F8(f), F16(it), FCounted(salt), FCounted(next), FRaw(b)]
    case Ds(k, a, d, digest) => [F16(k), F8(a), F8(d), FRaw(digest)]
    case Cds(k, a, d, digest) => [F16(k), F8(a), F8(d), FRaw(digest)]
    case Cdnskey(f, p, a, k) => [F16(f), F8(p), F8(a), FRaw(k)]
    case Tlsa(u, s, m, c) => [F8(u), F8(s), F8(m), FRaw(c)]
    case Sshfp(a, t, f) => [F8(a), F8(t), FRaw(f)]
    case Csync(s, f, b) => [F32(s), F16(f), FRaw(b)]
    case Rp(m, t) => [FName(m), FName(t)]
    case Nsec3param(h, f, it, salt) => [F8(h), F8(f), F16(it), FCounted(salt)]
    case Dlv(k, a, d, digest) => [F16(k), F8(a), F8(d), FRaw(digest)]
    case Unknown(_, raw) => [FRaw(raw)]
  }

  predicate Encodable<N>(f: Field<N>) {
    f.FCounted? ==> |f.bytes| <= 255
  }

  predicate AllEncodable(fs: seq<Field<DomainName>>) {
    forall i :: 0 <= i < |fs| ==> Encodable(fs[i])
  }

  function FieldOctets(f: Field<DomainName>): seq<Byte> {
    match f
    case F8(b) => [b]
    case F16(h) => Be16(h)
    case F32(w) => Be32(w)
    case FName(n) => WireForm(n)
    case FCounted(s) => [|s| % 0x100] + s
    case FRaw(s) => s
  }

  function FieldsOctets(fs: seq<Field<DomainName>>): seq<Byte> {
    if fs == [] then [] else FieldOctets(fs[0]) + FieldsOctets(fs[1..])
  }

  function RdataOctets(rd: RecordData): seq<Byte> {
    FieldsOctets(FieldsOf(rd))
  }

  datatype RecordError = InvalidRecord

  /** Can the record's data be written: every counted string fits its length octet, and the
      whole fits RDLENGTH? */
  predicate RdataFits(rd: RecordData) {
    AllEncodable(FieldsOf(rd)) && |RdataOctets(rd)| <= 0xFFFF
  }

  method EncodeField(f: Field<DomainName>, wire: Buffer) returns (r: Result<(), RecordError>)
    modifies wire
    ensures r.Ok? <==> Encodable(f)
    ensures r.Ok? ==> wire.bytes == old(wire.bytes) + FieldOctets(f)
  {
    match f {
      case F8(b) => wire.Push(b);
      case F16(h) => wire.Extend(Be16(h));
      case F32(w) => wire.Extend(Be32(w));
      case FName(n) => WriteWire(n, wire);
      case FCounted(s) =>
        if |s| > 255 {
          return Err(InvalidRecord);
        }
        wire.Push(|s|);
        wire.Extend(s);
      case FRaw(s) => wire.Extend(s);
    }
    r := Ok(());
  }

  method EncodeFields(fields: seq<Field<DomainName>>, wire: Buffer) returns (r: Result<(), RecordError>)
    modifies wire
    ensures r.Ok? <==> AllEncodable(fields)
    ensures r.Ok? ==> wire.bytes == old(wire.bytes) + FieldsOctets(fields)
  {
    hide Encodable, FieldOctets;
    assert fields[0..] == fields;
    for i := 0 to |fields|
      invariant forall k :: 0 <= k < i ==> Encodable(fields[k])
      invariant wire.bytes + FieldsOctets(fields[i..]) == old(wire.bytes) + FieldsOctets(fields)
    {
      assert fields[i..][1..] == fields[i + 1..];
      ghost var before := wire.bytes;
      r := EncodeField(fields[i], wire);
      if r.Err? {
        return;
      }
      Regroup(before, [], FieldOctets(fields[i]), FieldsOctets(fields[i + 1..]));
    }
    r := Ok(());
  }

  method EncodeRdata(rd: RecordData, wire: Buffer) returns (r: Result<(), RecordError>)
    modifies wire
    ensures r.Ok? <==> AllEncodable(FieldsOf(rd))
    ensures r.Ok? ==> wire.bytes == old(wire.bytes) + RdataOctets(rd)
  {
    r := EncodeFields(FieldsOf(rd), wire);
  }

  /** Writes a zero RDLENGTH, the data, and then the real length over the zero. */
  method EncodeRdataWithLength(rd: RecordData, wire: Buffer) returns (r: Result<(), RecordError>)
    modifies wire
    ensures r.Ok? <==> RdataFits(rd)
    ensures r.Ok? ==> wire.bytes == old(wire.bytes) + Be16(|RdataOctets(rd)|) + RdataOctets(rd)
  {
    var start := |wire.bytes|;
    wire.Extend(Be16(0));
    var encoded := EncodeRdata(rd, wire);
    if encoded.Err? {
      return encoded;
    }
    var len := |wire.bytes| - start - 2;
    if len > 0xFFFF {
      return Err(InvalidRecord);
    }
    wire.bytes := wire.bytes[..start] + Be16(len) + wire.bytes[start + 2..];
    r := Ok(());
  }

  // ---- Reading RDATA back --------------------------------------------------

  /** The shape of a field, and of the open-ended tails RDATA can have. */
  datatype Kind = K8 | K16 | K32 | KName | KCounted | KRaw | KStrings

  /** RDATA formats by type number, from the defining RFCs (RFC 1035, RFC 2782, RFC 4034 and others). */
  function Layout(rtype: U16): seq<Kind> {
    match rtype
    case 5 => [KName]
    case 2 => [KName]
    case 12 => [KName]
    case 6 => [KName, KName, K32, K32, K32, K32, K32]
    case 15 => [K16, KName]
    case 16 => [KStrings]
    case 33 => [K16, K16, K16, KName]
    case 257 => [K8, KCounted, KRaw]
    case 48 => [K16, K8, K8, KRaw]
    case 43 => [K16, K8, K8, KRaw]
    case 59 => [K16, K8, K8, KRaw]
    case 60 => [K16, K8, K8, KRaw]
    case 32769 => [K16, K8, K8, KRaw]
    case 46 => [K16, K8, K8, K32, K32, K32, K16, KName, KRaw]
    case 47 => [KName, KRaw]
    case 50 => [K8, K8, K16, KCounted, KCounted, KRaw]
    case 52 => [K8, K8, K8, KRaw]
    case 44 => [K8, K8, KRaw]
    case 62 => [K32, K16, KRaw]
    case 17 => [KName, KName]
    case 51 => [K8, K8, K16, KCounted]
    case _ => [KRaw]
  }

  datatype Read<+T> = Got(value: T, rest: seq<Byte>) | Short

  /** Reads an uncompressed name. */
  function ReadName(s: seq<Byte>): (r: Read<WireLabels>)
    ensures r.Got? ==> |r.rest| < |s|
  {
    if s == [] then Short
    else if s[0] == 0 then Got([], s[1..])
    else if s[0] > 63 || |s| < 1 + s[0] as int then Short
    else
      match ReadName(s[1 + s[0] as int..])
      case Short => Short
      case Got(more, rest) => Got([s[1..1 + s[0] as int]] + more, rest)
  }

  function ReadField(kind: Kind, s: seq<Byte>): Read<Field<WireLabels>> {
    match kind
    case K8 => if |s| < 1 then Short else Got(F8(s[0]), s[1..])
    case K16 => if |s| < 2 then Short else Got(F16(ReadBe16(s)), s[2..])
    case K32 => if |s| < 4 then Short else Got(F32(ReadBe32(s)), s[4..])
    case KName => (match ReadName(s) case Short => Short case Got(n, rest) => Got(FName(n), rest))
    case KCounted =>
      if |s| < 1 || |s| < 1 + s[0] as int then Short else Got(FCounted(s[1..1 + s[0] as int]), s[1 + s[0] as int..])
    case KRaw => Got(FRaw(s), [])
    case KStrings => Short
  }

  /** Reads fields in order; a trailing `KStrings` takes counted strings to the end. */
  function ReadFields(kinds: seq<Kind>, s: seq<Byte>): Option<seq<Field<WireLabels>>>
    decreases |kinds|, |s|
  {
    if kinds == [] then if s == [] then Some([]) else None
    else if kinds[0] == KStrings && s == [] then ReadFields(kinds[1..], s)
    else if kinds[0] == KStrings then
      match ReadField(KCounted, s)
      case Short => None
      case Got(f, rest) => (match ReadFields(kinds, rest) case None => None case Some(more) => Some([f] + more))
    else
      match ReadField(kinds[0], s)
      case Short => None
      case Got(f, rest) => (match ReadFields(kinds[1..], rest) case None => None case Some(more) => Some([f] + more))
  }

  function OnWire(f: Field<DomainName>): Field<WireLabels> {
    match f
    case F8(b) => F8(b)
    case F16(h) => F16(h)
    case F32(w) => F32(w)
    case FName(n) => FName(Contents(n))
    case FCounted(s) => FCounted(s)
    case FRaw(s) => FRaw(s)
  }

  function AllOnWire(fs: seq<Field<DomainName>>): seq<Field<WireLabels>> {
    seq(|fs|, i requires 0 <= i < |fs| => OnWire(fs[i]))
  }

  function KindOf<N>(f: Field<N>): Kind {
    match f
    case F8(_) => K8
    case F16(_) => K16
    case F32(_) => K32
    case FName(_) => KName
    case FCounted(_) => KCounted
    case FRaw(_) => KRaw
  }

  /** Do the fields have the layout's shape? Raw bytes and string lists may only come last. */
  predicate Matches(kinds: seq<Kind>, fs: seq<Field<DomainName>>) {
    if kinds == [KStrings] then forall f <- fs :: f.FCounted?
    else |kinds| == |fs| && forall i :: 0 <= i < |fs| ==> kinds[i] == KindOf(fs[i]) && (kinds[i] == KRaw ==> i == |fs| - 1)
  }

  lemma {:induction false} NameReadsBack(ls: WireLabels, rest: seq<Byte>)
    ensures ReadName(EncodeLabels(ls) + rest) == Got(ls, rest)
  {
    var s := EncodeLabels(ls) + rest;
    if ls == [] {
      assert s[1..] == rest;
    } else {
      NameReadsBack(ls[1..], rest);
      var t := EncodeLabels(ls[1..]) + rest;
      assert s == [|ls[0]|] + ls[0] + t;
      hide EncodeLabels;
      assert s[0] == |ls[0]| && s[1..1 + |ls[0]|] == ls[0];
      assert s[1 + |ls[0]|..] == t;
      assert [ls[0]] + ls[1..] == ls;
    }
  }

  lemma FieldReadsBack(f: Field<DomainName>, rest: seq<Byte>)
    requires Encodable(f) && (f.FRaw? ==> rest == [])
    ensures ReadField(KindOf(f), FieldOctets(f) + rest) == Got(OnWire(f), rest)
  {
    hide Be16, Be32, EncodeLabels, ReadName, ReadBe16, ReadBe32;
    var s := FieldOctets(f) + rest;
    match f
    case F8(b) => assert s[1..] == rest;
    case F16(h) => Be16Reads(h, rest);
    case F32(w) => Be32Reads(w, rest);
    case FName(n) => NameReadsBack(Contents(n), rest);
    case FCounted(b) => assert s[0] == |b| && s[1..1 + |b|] == b && s[1 + |b|..] == rest;
    case FRaw(b) => assert s == b;
  }

  lemma {:induction false} FieldsReadBack(kinds: seq<Kind>, fs: seq<Field<DomainName>>)
    requires Matches(kinds, fs) && AllEncodable(fs)
    ensures ReadFields(kinds, FieldsOctets(fs)) == Some(AllOnWire(fs))
    decreases |fs|
  {
    if fs == [] {
      NoFieldsRead(kinds);
      assert AllOnWire(fs) == [];
    } else {
      hide ReadField, OnWire, Matches, FieldOctets, KindOf;
      var tail := fs[1..];
      MatchesTail(kinds, fs);
      FieldReadsBack(fs[0], FieldsOctets(tail));
      FieldsReadBack(if kinds == [KStrings] then kinds else kinds[1..], tail);
      assert AllOnWire(fs) == [OnWire(fs[0])] + AllOnWire(tail);
    }
  }

  lemma NoFieldsRead(kinds: seq<Kind>)
    requires Matches(kinds, [])
    ensures ReadFields(kinds, []) == Some([])
  {}

  lemma MatchesTail(kinds: seq<Kind>, fs: seq<Field<DomainName>>)
    requires Matches(kinds, fs) && AllEncodable(fs) && fs != []
    ensures kinds != [] && Encodable(fs[0]) && AllEncodable(fs[1..])
    ensures Matches(if kinds == [KStrings] then kinds else kinds[1..], fs[1..])
    ensures KindOf(fs[0]) == if kinds == [KStrings] then KCounted else kinds[0]
    ensures kinds[0] == KStrings ==> kinds == [KStrings] && FieldsOctets(fs) != []
    ensures fs[0].FRaw? ==> fs[1..] == [] && FieldsOctets(fs[1..]) == []
  {
    hide FieldOctets, Encodable;
    var tail := fs[1..];
    if kinds == [KStrings] {
      assert fs[0] in fs;
      assert forall f :: f in tail ==> f in fs;
      StringNotEmpty(fs[0]);
    } else {
      assert forall i :: 0 <= i < |tail| ==> tail[i] == fs[i + 1] && kinds[1..][i] == kinds[i + 1];
    }
  }

  lemma StringNotEmpty(f: Field<DomainName>)
    requires f.FCounted?
    ensures FieldOctets(f) != []
  {}

  predicate Digest(rd: RecordData) { rd.Dnskey? || rd.Cdnskey? || rd.Ds? || rd.Cds? || rd.Dlv? || rd.Tlsa? || rd.Sshfp? }

  predicate Denial(rd: RecordData) { rd.Nsec? || rd.Nsec3? || rd.Nsec3param? || rd.Csync? }

  predicate OneName(rd: RecordData) { rd.Cname? || rd.Ns? || rd.Ptr? || rd.Mx? || rd.Srv? || rd.Rp? }

  lemma LayoutMatchesDigest(rd: RecordData)
    requires Digest(rd)
    ensures Matches(Layout(TypeValue(rd)), FieldsOf(rd))
  {}

  lemma LayoutMatchesDenial(rd: RecordData)
    requires Denial(rd)
    ensures Matches(Layout(TypeValue(rd)), FieldsOf(rd))
  {}

  lemma LayoutMatchesRrsig(rd: RecordData)
    requires rd.Rrsig?
    ensures Matches(Layout(TypeValue(rd)), FieldsOf(rd))
  {}

  lemma LayoutMatchesName(rd: RecordData)
    requires OneName(rd)
    ensures Matches(Layout(TypeValue(rd)), FieldsOf(rd))
  {}

  lemma LayoutMatchesOther(rd: RecordData)
    requires !Digest(rd) && !Denial(rd) && !rd.Rrsig? && !OneName(rd) && (rd.Unknown? ==> Layout(rd.rtype) == [KRaw])
    ensures Matches(Layout(TypeValue(rd)), FieldsOf(rd))
  {}

  // ---- Nothing else is read ------------------------------------------------

  function WireField(f: Field<WireLabels>): seq<Byte> {
    match f
    case F8(b) => [b]
    case F16(h) => Be16(h)
    case F32(w) => Be32(w)
    case FName(ls) => EncodeLabels(ls)
    case FCounted(s) => [|s| % 0x100] + s
    case FRaw(s) => s
  }

  function WireFields(fs: seq<Field<WireLabels>>): seq<Byte> {
    if fs == [] then [] else WireField(fs[0]) + WireFields(fs[1..])
  }

  lemma {:induction false} ReadNameIsThere(s: seq<Byte>)
    requires ReadName(s).Got?
    ensures s == EncodeLabels(ReadName(s).value) + ReadName(s).rest
  {
    hide EncodeLabels;
    if s[0] == 0 {
      EncodeNone();
      assert s == [0] + s[1..];
    } else {
      var n := s[0] as int;
      var l: LabelBytes, more := s[1..1 + n], ReadName(s[1 + n..]);
      ReadNameIsThere(s[1 + n..]);
      assert ReadName(s) == Got([l] + more.value, more.rest);
      hide ReadName;
      EncodeOne(l, more.value);
      LabelInFront(s, n, EncodeLabels(more.value), more.rest);
    }
  }

  lemma LabelInFront(s: seq<Byte>, n: nat, name: seq<Byte>, rest: seq<Byte>)
    requires 1 + n <= |s| && s[0] == n && s[1 + n..] == name + rest
    ensures s == [n] + s[1..1 + n] + name + rest
  {}

  lemma ReadFieldIsThere(kind: Kind, s: seq<Byte>)
    requires ReadField(kind, s).Got?
    ensures s == WireField(ReadField(kind, s).value) + ReadField(kind, s).rest
  {
    hide EncodeLabels, ReadName, Be16, Be32, ReadBe16, ReadBe32;
    match kind
    case K16 => Be16OfRead(s);
    case K32 => Be32OfRead(s);
    case KName => ReadNameIsThere(s);
    case KCounted => assert s == [s[0]] + s[1..1 + s[0] as int] + s[1 + s[0] as int..];
    case _ =>
  }

  /** Whatever fields are read, their octets are the ones read from. */
  lemma {:induction false} ReadFieldsAreThere(kinds: seq<Kind>, s: seq<Byte>)
    requires ReadFields(kinds, s).Some?
    ensures WireFields(ReadFields(kinds, s).value) == s
    decreases |kinds|, |s|
  {
    hide ReadField, WireField;
    if kinds != [] {
      if kinds[0] == KStrings && s == [] {
        ReadFieldsAreThere(kinds[1..], s);
      } else {
        var kind, later := if kinds[0] == KStrings then KCounted else kinds[0], if kinds[0] == KStrings then kinds else kinds[1..];
        ReadFieldIsThere(kind, s);
        var f, rest := ReadField(kind, s).value, ReadField(kind, s).rest;
        CountedShrinks(s);
        ReadFieldsAreThere(later, rest);
        var more := ReadFields(later, rest).value;
        assert ([f] + more)[0] == f && ([f] + more)[1..] == more;
      }
    }
  }

  lemma CountedShrinks(s: seq<Byte>)
    ensures ReadField(KCounted, s).Got? ==> |ReadField(KCounted, s).rest| < |s|
  {}

  // ---- Every field at its place --------------------------------------------

  /** The fields read from RDATA are the named fields of the record, in the order of the defining RFCs. */
  predicate InRfcOrder(rd: RecordData, fs: seq<Field<WireLabels>>) {
    if rd.A? then fs == [FRaw(rd.addr4)]
    else if rd.Aaaa? then fs == [FRaw(rd.addr6)]
    else if rd.Cname? || rd.Ns? || rd.Ptr? then fs == [FName(Contents(rd.name))]
    else if rd.Soa? then
      |fs| == 7 && fs[0] == FName(Contents(rd.mname)) && fs[1] == FName(Contents(rd.rname)) && fs[2] == F32(rd.serial)
      && fs[3] == F32(rd.refresh) && fs[4] == F32(rd.retry) && fs[5] == F32(rd.expire) && fs[6] == F32(rd.minimum)
    else if rd.Mx? then fs == [F16(rd.preference), FName(Contents(rd.exchange))]
    else if rd.Txt? then |fs| == |rd.strings| && forall i :: 0 <= i < |fs| ==> fs[i] == FCounted(rd.strings[i])
    else if rd.Srv? then fs == [F16(rd.priority), F16(rd.weight), F16(rd.port), FName(Contents(rd.target))]
    else if rd.Caa? then fs == [F8(rd.caaFlags), FCounted(rd.tag), FRaw(rd.caaValue)]
    else if rd.Dnskey? || rd.Cdnskey? then fs == [F16(rd.keyFlags), F8(rd.protocol), F8(rd.algorithm), FRaw(rd.publicKey)]
    else if rd.Rrsig? then
      |fs| == 9 && fs[0] == F16(rd.typeCovered) && fs[1] == F8(rd.algorithm) && fs[2] == F8(rd.labelCount)
      && fs[3] == F32(rd.originalTtl) && fs[4] == F32(rd.expiration) && fs[5] == F32(rd.inception) && fs[6] == F16(rd.keyTag)
      && fs[7] == FName(Contents(rd.signer)) && fs[8] == FRaw(rd.signature)
    else if rd.Nsec? then fs == [FName(Contents(rd.next)), FRaw(rd.bitmaps)]
    else if rd.Nsec3? then
      fs == [F8(rd.hashAlgorithm), F8(rd.hashFlags), F16(rd.iterations), FCounted(rd.salt), FCounted(rd.nextHashed), FRaw(rd.bitmaps)]
    else if rd.Ds? || rd.Cds? || rd.Dlv? then fs == [F16(rd.keyTag), F8(rd.algorithm), F8(rd.digestType), FRaw(rd.digest)]
    else if rd.Tlsa? then fs == [F8(rd.usage), F8(rd.selector), F8(rd.matchingType), FRaw(rd.certificate)]
    else if rd.Sshfp? then fs == [F8(rd.algorithm), F8(rd.fpType), FRaw(rd.fingerprint)]
    else if rd.Csync? then fs == [F32(rd.soaSerial), F16(rd.syncFlags), FRaw(rd.bitmaps)]
    else if rd.Rp? then fs == [FName(Contents(rd.mbox)), FName(Contents(rd.txt))]
    else if rd.Nsec3param? then fs == [F8(rd.hashAlgorithm), F8(rd.hashFlags), F16(rd.iterations), FCounted(rd.salt)]
    else fs == [FRaw(rd.rdata)]
  }

  lemma FieldsInOrder(rd: RecordData)
    ensures InRfcOrder(rd, AllOnWire(FieldsOf(rd)))
  {
    hide Contents;
  }

  // ---- Reading back --------------------------------------------------------

  /** A reader that knows only the type number and the RFC layouts gets every field back. Only the bytes of an unknown
      record that reuses the number of a structured type need not follow its layout; if they do, the fields read have
      exactly those bytes. */
  lemma RdataReadsBack(rd: RecordData)
    requires AllEncodable(FieldsOf(rd))
    ensures var read := ReadFields(Layout(TypeValue(rd)), RdataOctets(rd));
            && ((rd.Unknown? ==> Layout(rd.rtype) == [KRaw]) ==>
                  read == Some(AllOnWire(FieldsOf(rd))) && InRfcOrder(rd, read.value))
            && (read.Some? ==> WireFields(read.value) == RdataOctets(rd))
  {
    FieldsInOrder(rd);
    hide Layout, ReadFields, RdataOctets, TypeValue, AllEncodable, InRfcOrder;
    if ReadFields(Layout(TypeValue(rd)), RdataOctets(rd)).Some? { ReadFieldsAreThere(Layout(TypeValue(rd)), RdataOctets(rd)); }
    if !rd.Unknown? || Layout(rd.rtype) == [KRaw] { StructuredReadsBack(rd); }
  }

  lemma StructuredReadsBack(rd: RecordData)
    requires AllEncodable(FieldsOf(rd))
    requires rd.Unknown? ==> Layout(rd.rtype) == [KRaw]
    ensures ReadFields(Layout(TypeValue(rd)), RdataOctets(rd)) == Some(AllOnWire(FieldsOf(rd)))
  {
    hide FieldsOf, TypeValue, Layout, Matches, Digest, Denial, OneName;
    if Digest(rd) {
      LayoutMatchesDigest(rd);
    } else if rd.Rrsig? {
      LayoutMatchesRrsig(rd);
    } else if Denial(rd) {
      LayoutMatchesDenial(rd);
    } else if OneName(rd) {
      LayoutMatchesName(rd);
    } else {
      LayoutMatchesOther(rd);
    }
    FieldsReadBack(Layout(TypeValue(rd)), FieldsOf(rd));
  }
}
