/** Printing a zone file, and the token list its text stands for. */
module Serializer {
  import opened Bytes
  import opened Domain
  import opened Records
  import opened CharString
  import opened Tokenizer
  import Base64
  import Bitmap
  import Decimal
  import Hex
  import RecordTypes
  import Timestamp

  datatype ZoneFile = ZoneFile(origin: DomainName, defaultTtl: Option<Ttl>, records: seq<ResourceRecord>)

  /** Text forms that come from libraries: IPv6 addresses and base32hex. */
  datatype Library = Library(ipv6: seq<Byte> -> Text, base32hex: seq<Byte> -> Text)

  // ---- Record data as pieces -----------------------------------------------

  /** One space-separated part of a record: text as it is, or text between quotes with the value it lexes to. */
  datatype Piece = Bare(text: Text) | Quoted(body: Text, value: Text)

  function Num(n: nat): Piece { Bare(Decimal.Digits(n)) }
  function Name(n: DomainName): Piece { Bare(Display(n)) }
  function HexText(s: seq<Byte>): Piece { Bare(Hex.Encode(s)) }
  function Base64Text(s: seq<Byte>): Piece { Bare(Base64.Encode(s)) }
  function Time(t: U32): Piece { Bare(Timestamp.FormatTimestamp(t)) }

  function Dotted4(a: Ipv4): Piece {
    Bare(Decimal.Digits(a[0]) + [DOT] + Decimal.Digits(a[1]) + [DOT] + Decimal.Digits(a[2]) + [DOT] + Decimal.Digits(a[3]))
  }

  /** An empty salt is a hyphen. */
  function Salt(s: seq<Byte>): Piece { if s == [] then Bare(Ascii("-")) else HexText(s) }

  function Types(bitmap: seq<Byte>): seq<Piece> {
    Words(RecordTypes.Mnemonics(Bitmap.Numbers(bitmap)))
  }

  function TxtPieces(strings: seq<seq<Byte>>): seq<Piece> {
    seq(|strings|, i requires 0 <= i < |strings| => Quoted(Escaped(strings[i]), Half(strings[i])))
  }

  /** The mark of generic data, the length, and the data if there is any. */
  function GenericPieces(rdata: seq<Byte>): seq<Piece> {
    [Bare(Ascii("\\#")), Num(|rdata|)] + if rdata == [] then [] else [HexText(rdata)]
  }

  /** `serialize_rdata`. */
  function RdataPieces(lib: Library, rd: RecordData): seq<Piece> {
    match rd
    case A(addr) => [Dotted4(addr)]
    case Aaaa(addr) => [Bare(lib.ipv6(addr))]
    case Cname(n) => [Name(n)]
    case Ns(n) => [Name(n)]
    case Ptr(n) => [Name(n)]
    case Soa(m, r, serial, refresh, retry, expire, minimum) =>
      [Name(m), Name(r), Num(serial), Num(refresh), Num(retry), Num(expire), Num(minimum)]
    case Mx(p, x) => [Num(p), Name(x)]
    case Txt(strings) => TxtPieces(strings)
    case Srv(p, w, port, t) => [Num(p), Num(w), Num(port), Name(t)]
    case Caa(f, tag, v) => [Num(f), Bare(tag), Quoted(v, v)]
    case Dnskey(f, p, a, k) => [Num(f), Num(p), Num(a), Base64Text(k)]
    case Rrsig(t, a, l, ttl, e, i, k, s, sig) =>
      [Bare(RecordTypes.Mnemonic(t)), Num(a), Num(l), Num(ttl), Time(e), Time(i), Num(k), Name(s), Base64Text(sig)]
    case Nsec(n, b) => [Name(n)] + Types(b)
    case Nsec3(h, f, it, salt, next, b) =>
      [Num(h), Num(f), Num(it), Salt(salt), Bare(lib.base32hex(next))] + Types(b)
    case Ds(k, a, d, digest) => [Num(k), Num(a), Num(d), HexText(digest)]
    case Cds(k, a, d, digest) => [Num(k), Num(a), Num(d), HexText(digest)]
    case Cdnskey(f, p, a, k) => [Num(f), Num(p), Num(a), Base64Text(k)]
    case Tlsa(u, s, m, c) => [Num(u), Num(s), Num(m), HexText(c)]
    case Sshfp(a, t, f) => [Num(a), Num(t), HexText(f)]
    case Csync(s, f, b) => [Num(s), Num(f)] + Types(b)
    case Rp(m, t) => [Name(m), Name(t)]
    case Nsec3param(h, f, it, salt) => [Num(h), Num(f), Num(it), Salt(salt)]
    case Dlv(k, a, d, digest) => [Num(k), Num(a), Num(d), HexText(digest)]
    case Unknown(_, raw) => GenericPieces(raw)
  }

  function PieceText(p: Piece): Text {
    match p
    case Bare(t) => t
    case Quoted(b, _) => [QUOTE] + b + [QUOTE]
  }

  /** Pieces, each after a separator. */
  function Separated(ps: seq<Piece>, sep: Byte): Text {
    if ps == [] then [] else [sep] + PieceText(ps[0]) + Separated(ps[1..], sep)
  }

  /** Pieces with single spaces between them. */
  function Spaced(ps: seq<Piece>): Text {
    if ps == [] then [] else PieceText(ps[0]) + Separated(ps[1..], SPACE)
  }

  /** The pieces of a TXT record make the text its own printer makes. */
  lemma {:induction false} TxtText(strings: seq<seq<Byte>>)
    ensures Spaced(TxtPieces(strings)) == Strings(strings)
  {
    hide Escaped, Half;
    if strings != [] {
      TxtText(strings[1..]);
      assert TxtPieces(strings)[1..] == TxtPieces(strings[1..]);
      assert QuotedText(strings[0]) == PieceText(TxtPieces(strings)[0]);
      if |strings| == 1 { assert TxtPieces(strings[1..]) == []; }
    }
  }

  function Words(words: seq<Text>): seq<Piece> { seq(|words|, i requires 0 <= i < |words| => Bare(words[i])) }

  lemma {:induction false} WordsText(words: seq<Text>)
    ensures Spaced(Words(words)) == RecordTypes.Join(words)
  {
    if words != [] {
      WordsText(words[1..]);
      assert Words(words)[1..] == Words(words[1..]);
      if |words| == 1 { assert Words(words[1..]) == []; }
    }
  }

  /** The pieces of a type bitmap make the text its own decoder makes. */
  lemma TypesText(bitmap: seq<Byte>)
    ensures Spaced(Types(bitmap)) == RecordTypes.DecodeText(bitmap)
  {
    hide RecordTypes.Mnemonics, Bitmap.Numbers, Words;
    WordsText(RecordTypes.Mnemonics(Bitmap.Numbers(bitmap)));
  }

  // ---- Zone text -----------------------------------------------------------

  /** Display of a class: IN, CH, HS, ANY or CLASS and the number. */
  function ClassText(c: U16): Text {
    if c == 1 then Ascii("IN")
    else if c == 3 then Ascii("CH")
    else if c == 4 then Ascii("HS")
    else if c == 255 then Ascii("ANY")
    else Ascii("CLASS") + Decimal.Digits(c)
  }

  /** `rdata_type_string`: the generic form for data kept as raw bytes, whatever its type. */
  function TypeText(rd: RecordData): Text {
    match rd
    case Unknown(rtype, _) => RecordTypes.TYPE + Decimal.Digits(rtype)
    case _ => RecordTypes.Mnemonic(TypeValue(rd))
  }

  /** The fields between owner and data. */
  function Fixed(rr: ResourceRecord): seq<Piece> {
    [Num(rr.ttl), Bare(ClassText(rr.rclass)), Bare(TypeText(rr.rdata))]
  }

  function RecordLine(lib: Library, rr: ResourceRecord, elided: bool): Text {
    (if elided then [] else Display(rr.owner)) + Separated(Fixed(rr), TAB) + ([TAB] + Spaced(RdataPieces(lib, rr.rdata)) + [NEWLINE])
  }

  /** The owner is left out when it is the same name as on the line before. */
  predicate Elided(last: Option<DomainName>, rr: ResourceRecord) {
    last.Some? && SameName(last.value, rr.owner)
  }

  function RecordLines(lib: Library, last: Option<DomainName>, rs: seq<ResourceRecord>): Text
    decreases rs
  {
    if rs == [] then []
    else RecordLine(lib, rs[0], Elided(last, rs[0])) + RecordLines(lib, Some(rs[0].owner), rs[1..])
  }

  const ORIGIN: Text := Ascii("$ORIGIN")
  const TTL: Text := Ascii("$TTL")

  function Header(z: ZoneFile): Text {
    ORIGIN + ([SPACE] + Display(z.origin) + [NEWLINE])
    + if z.defaultTtl.Some? then TTL + ([SPACE] + Decimal.Digits(z.defaultTtl.value) + [NEWLINE]) else []
  }

  function ZoneText(lib: Library, z: ZoneFile): Text { Header(z) + RecordLines(lib, None, z.records) }

  method Serialize(lib: Library, z: ZoneFile) returns (r: Text)
    ensures r == ZoneText(lib, z)
  {
    hide RdataPieces, SameName, Display, TypeText, ClassText, RecordLine, Elided, Header;
    var out := new Buffer();
    out.Extend(Header(z));
    var lastOwner: Option<DomainName> := None;
    assert z.records[0..] == z.records;
    for i := 0 to |z.records|
      invariant fresh(out)
      invariant out.bytes + RecordLines(lib, lastOwner, z.records[i..]) == ZoneText(lib, z)
    {
      var rr := z.records[i];
      assert z.records[i..][1..] == z.records[i + 1..];
      Regroup(out.bytes, [], RecordLine(lib, rr, Elided(lastOwner, rr)), RecordLines(lib, Some(rr.owner), z.records[i + 1..]));
      out.Extend(RecordLine(lib, rr, Elided(lastOwner, rr)));
      lastOwner := Some(rr.owner);
    }
    r := out.bytes;
    assert r + [] == r;
  }

  // ---- The expected tokens -------------------------------------------------

  /** Text of no characters leaves no token. */
  function PieceTokens(p: Piece): seq<Token> {
    match p
    case Bare(t) => if t == [] then [] else [Word(t)]
    case Quoted(_, v) => [QuotedString(v)]
  }

  function AllTokens(ps: seq<Piece>): seq<Token> {
    if ps == [] then [] else PieceTokens(ps[0]) + AllTokens(ps[1..])
  }

  function RecordTokens(lib: Library, rr: ResourceRecord, elided: bool): seq<Token> {
    [Word(if elided then [] else Display(rr.owner))] + AllTokens(Fixed(rr)) + AllTokens(RdataPieces(lib, rr.rdata)) + [Newline]
  }

  function RecordsTokens(lib: Library, last: Option<DomainName>, rs: seq<ResourceRecord>): seq<Token>
    decreases rs
  {
    if rs == [] then []
    else RecordTokens(lib, rs[0], Elided(last, rs[0])) + RecordsTokens(lib, Some(rs[0].owner), rs[1..])
  }

  function HeaderTokens(z: ZoneFile): seq<Token> {
    [Directive(ORIGIN), Word(Display(z.origin)), Newline]
    + if z.defaultTtl.Some? then [Directive(TTL), Word(Decimal.Digits(z.defaultTtl.value)), Newline] else []
  }

  function Expected(lib: Library, z: ZoneFile): seq<Token> { HeaderTokens(z) + RecordsTokens(lib, None, z.records) }

  // ---- Every field at its place --------------------------------------------

  /** The printed parts of record data are the named fields of the record, in the order of its presentation format. */
  predicate InPrintedOrder(lib: Library, rd: RecordData, ps: seq<Piece>) {
    if rd.A? then ps == [Dotted4(rd.addr4)]
    else if rd.Aaaa? then ps == [Bare(lib.ipv6(rd.addr6))]
    else if rd.Cname? || rd.Ns? || rd.Ptr? then ps == [Name(rd.name)]
    else if rd.Soa? then
      |ps| == 7 && ps[0] == Name(rd.mname) && ps[1] == Name(rd.rname) && ps[2] == Num(rd.serial) && ps[3] == Num(rd.refresh)
      && ps[4] == Num(rd.retry) && ps[5] == Num(rd.expire) && ps[6] == Num(rd.minimum)
    else if rd.Mx? then ps == [Num(rd.preference), Name(rd.exchange)]
    else if rd.Txt? then
      |ps| == |rd.strings| && forall i :: 0 <= i < |ps| ==> ps[i] == Quoted(Escaped(rd.strings[i]), Half(rd.strings[i]))
    else if rd.Srv? then ps == [Num(rd.priority), Num(rd.weight), Num(rd.port), Name(rd.target)]
    else if rd.Caa? then ps == [Num(rd.caaFlags), Bare(rd.tag), Quoted(rd.caaValue, rd.caaValue)]
    else if rd.Dnskey? || rd.Cdnskey? then ps == [Num(rd.keyFlags), Num(rd.protocol), Num(rd.algorithm), Base64Text(rd.publicKey)]
    else if rd.Rrsig? then
      |ps| == 9 && ps[0] == Bare(RecordTypes.Mnemonic(rd.typeCovered)) && ps[1] == Num(rd.algorithm) && ps[2] == Num(rd.labelCount)
      && ps[3] == Num(rd.originalTtl) && ps[4] == Time(rd.expiration) && ps[5] == Time(rd.inception) && ps[6] == Num(rd.keyTag)
      && ps[7] == Name(rd.signer) && ps[8] == Base64Text(rd.signature)
    else if rd.Nsec? then |ps| > 0 && ps[0] == Name(rd.next) && ps[1..] == Types(rd.bitmaps)
    else if rd.Nsec3? then
      |ps| > 4 && ps[0] == Num(rd.hashAlgorithm) && ps[1] == Num(rd.hashFlags) && ps[2] == Num(rd.iterations)
      && ps[3] == Salt(rd.salt) && ps[4] == Bare(lib.base32hex(rd.nextHashed)) && ps[5..] == Types(rd.bitmaps)
    else if rd.Ds? || rd.Cds? || rd.Dlv? then ps == [Num(rd.keyTag), Num(rd.algorithm), Num(rd.digestType), HexText(rd.digest)]
    else if rd.Tlsa? then ps == [Num(rd.usage), Num(rd.selector), Num(rd.matchingType), HexText(rd.certificate)]
    else if rd.Sshfp? then ps == [Num(rd.algorithm), Num(rd.fpType), HexText(rd.fingerprint)]
    else if rd.Csync? then |ps| > 1 && ps[0] == Num(rd.soaSerial) && ps[1] == Num(rd.syncFlags) && ps[2..] == Types(rd.bitmaps)
    else if rd.Rp? then ps == [Name(rd.mbox), Name(rd.txt)]
    else if rd.Nsec3param? then ps == [Num(rd.hashAlgorithm), Num(rd.hashFlags), Num(rd.iterations), Salt(rd.salt)]
    else
      |ps| == (if rd.rdata == [] then 2 else 3) && ps[0] == Bare(Ascii("\\#")) && ps[1] == Num(|rd.rdata|)
      && (rd.rdata != [] ==> ps[2] == HexText(rd.rdata))
  }

  lemma PiecesInOrder(lib: Library, rd: RecordData)
    ensures InPrintedOrder(lib, rd, RdataPieces(lib, rd))
  {
    hide Types, Salt, Name, Num, HexText, Base64Text, Time, Dotted4, Escaped, Half, RecordTypes.Mnemonic;
  }

  /** Every printed record is its owner or the empty word, its TTL, class and type, its data, and a line end. */
  lemma RecordInOrder(lib: Library, rr: ResourceRecord, elided: bool)
    ensures RecordTokens(lib, rr, elided) ==
            [Word(if elided then [] else Display(rr.owner)), Word(Decimal.Digits(rr.ttl)), Word(ClassText(rr.rclass)),
             Word(TypeText(rr.rdata))] + AllTokens(RdataPieces(lib, rr.rdata)) + [Newline]
  {
    hide RdataPieces, Display, Decimal.Digits;
    TypeTextNotEmpty(rr.rdata);
    var ps := Fixed(rr);
    hide TypeText;
    assert ps[1..] == [ps[1], ps[2]] && ps[1..][1..] == [ps[2]] && [ps[2]][1..] == [];
    assert AllTokens([ps[2]]) == [Word(TypeText(rr.rdata))];
    assert AllTokens(ps[1..]) == [Word(ClassText(rr.rclass))] + AllTokens([ps[2]]);
    assert AllTokens(ps) == [Word(Decimal.Digits(rr.ttl))] + AllTokens(ps[1..]);
  }

  lemma TypeTextNotEmpty(rd: RecordData)
    ensures TypeText(rd) != []
  {
    RecordTypes.MnemonicIsCapital(TypeValue(rd));
    hide RecordTypes.Mnemonic;
  }

  /** The name a structured record goes by. */
  function OwnName(rd: RecordData): string
    requires !rd.Unknown?
  {
    match rd
    case A(_) => "A"
    case Aaaa(_) => "AAAA"
    case Cname(_) => "CNAME"
    case Ns(_) => "NS"
    case Ptr(_) => "PTR"
    case Soa(_, _, _, _, _, _, _) => "SOA"
    case Mx(_, _) => "MX"
    case Txt(_) => "TXT"
    case Srv(_, _, _, _) => "SRV"
    case Caa(_, _, _) => "CAA"
    case Dnskey(_, _, _, _) => "DNSKEY"
    case Rrsig(_, _, _, _, _, _, _, _, _) => "RRSIG"
    case Nsec(_, _) => "NSEC"
    case Nsec3(_, _, _, _, _, _) => "NSEC3"
    case Ds(_, _, _, _) => "DS"
    case Cds(_, _, _, _) => "CDS"
    case Cdnskey(_, _, _, _) => "CDNSKEY"
    case Tlsa(_, _, _, _) => "TLSA"
    case Sshfp(_, _, _) => "SSHFP"
    case Csync(_, _, _) => "CSYNC"
    case Rp(_, _) => "RP"
    case Nsec3param(_, _, _, _) => "NSEC3PARAM"
    case Dlv(_, _, _, _) => "DLV"
  }

  /** The number a structured record is written under has the record's own name as its mnemonic. */
  lemma NumberNamed(rd: RecordData)
    requires !rd.Unknown?
    ensures RecordTypes.Word(TypeValue(rd)) == OwnName(rd) && OwnName(rd) != ""
  {}

  /** Every structured record prints its own name, and data kept raw the number of its type. */
  lemma TypeNamed(rd: RecordData)
    ensures rd.Unknown? ==> TypeText(rd) == Ascii("TYPE") + Decimal.Digits(rd.rtype)
    ensures !rd.Unknown? ==> (forall c :: c in OwnName(rd) ==> c as int < 0x80) && TypeText(rd) == Ascii(OwnName(rd))
  {
    if !rd.Unknown? {
      NumberNamed(rd);
      hide OwnName, TypeValue;
      assert RecordTypes.Mnemonic(TypeValue(rd)) == Ascii(OwnName(rd));
    }
  }
}
