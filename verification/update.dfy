/** RFC 2136 dynamic updates: the builder, the wire encoder, and a reader of the encoded layout. */
module Update {
  import opened Bytes
  import opened Domain
  import opened Records

  const CLASS_ANY: U16 := 255
  const CLASS_NONE: U16 := 254
  const TYPE_ANY: U16 := 255
  const TYPE_SOA: U16 := 6

  /** Opcode UPDATE (5) in the four bits below QR; every other flag clear. */
  const UPDATE_FLAGS: U16 := 0x2800

  datatype Prerequisite =
    | RrsetExists(name: DomainName, rtype: U16)
    | RrsetNotExists(name: DomainName, rtype: U16)
    | NameExists(name: DomainName)
    | NameNotExists(name: DomainName)
    | RrsetExistsWithData(name: DomainName, rtype: U16, records: seq<ResourceRecord>)

  datatype UpdateEntry =
    | AddRecord(record: ResourceRecord)
    | DeleteRrset(name: DomainName, rtype: U16)
    | DeleteRecord(record: ResourceRecord)
    | DeleteName(name: DomainName)

  // ---- Records as they appear on the wire ----------------------------------

  /** A resource record with its RDATA as raw bytes. */
  datatype WireRR = WireRR(owner: WireLabels, rtype: U16, rclass: U16, ttl: U32, rdata: seq<Byte>) {
    predicate Valid() { |rdata| <= 0xFFFF }
  }

  function RROctets(rr: WireRR): seq<Byte> {
    EncodeLabels(rr.owner) + RRFixed(rr) + rr.rdata
  }

  /** The ten octets between owner and RDATA. */
  function RRFixed(rr: WireRR): (s: seq<Byte>)
    ensures |s| == 10
  {
    Be16(rr.rtype) + Be16(rr.rclass) + Be32(rr.ttl) + Be16(|rr.rdata| % 0x1_0000)
  }

  predicate AllValid(rrs: seq<WireRR>) {
    forall rr <- rrs :: rr.Valid()
  }

  function RRsOctets(rrs: seq<WireRR>): seq<Byte> {
    if rrs == [] then [] else RROctets(rrs[0]) + RRsOctets(rrs[1..])
  }

  lemma {:induction false} RRsOctetsAppend(a: seq<WireRR>, b: seq<WireRR>)
    ensures RRsOctets(a + b) == RRsOctets(a) + RRsOctets(b)
  {
    hide RROctets;
    if a == [] {
      assert a + b == b;
    } else {
      RRsOctetsAppend(a[1..], b);
      assert (a + b)[1..] == a[1..] + b;
    }
  }

  /** A record without data: TTL and RDLENGTH are zero. */
  function Bare(name: DomainName, rtype: U16, rclass: U16): (rr: WireRR)
    ensures rr.Valid()
  {
    WireRR(Contents(name), rtype, rclass, 0, [])
  }

  function WithData(name: DomainName, rtype: U16, rclass: U16, ttl: U32, rd: RecordData): WireRR {
    WireRR(Contents(name), rtype, rclass, ttl, RdataOctets(rd))
  }

  /** The records section 2.4 of RFC 2136 assigns to a prerequisite. */
  function PrerequisiteRRs(p: Prerequisite, zoneClass: U16): seq<WireRR> {
    match p
    case RrsetExists(n, t) => [Bare(n, t, CLASS_ANY)]
    case RrsetNotExists(n, t) => [Bare(n, t, CLASS_NONE)]
    case NameExists(n) => [Bare(n, TYPE_ANY, CLASS_ANY)]
    case NameNotExists(n) => [Bare(n, TYPE_ANY, CLASS_NONE)]
    case RrsetExistsWithData(n, t, records) =>
      seq(|records|, i requires 0 <= i < |records| => WithData(n, t, zoneClass, 0, records[i].rdata))
  }

  /** The record section 2.5 of RFC 2136 assigns to an update. */
  function EntryRR(e: UpdateEntry): WireRR {
    match e
    case AddRecord(rr) => WithData(rr.owner, TypeValue(rr.rdata), rr.rclass, rr.ttl, rr.rdata)
    case DeleteRrset(n, t) => Bare(n, t, CLASS_ANY)
    case DeleteRecord(rr) => WithData(rr.owner, TypeValue(rr.rdata), CLASS_NONE, 0, rr.rdata)
    case DeleteName(n) => Bare(n, TYPE_ANY, CLASS_ANY)
  }

  function AllPrerequisiteRRs(ps: seq<Prerequisite>, zoneClass: U16): seq<WireRR> {
    if ps == [] then [] else PrerequisiteRRs(ps[0], zoneClass) + AllPrerequisiteRRs(ps[1..], zoneClass)
  }

  function EntryRRs(es: seq<UpdateEntry>): seq<WireRR> {
    seq(|es|, i requires 0 <= i < |es| => EntryRR(es[i]))
  }

  predicate PrerequisiteFits(p: Prerequisite) {
    p.RrsetExistsWithData? ==> forall rr <- p.records :: RdataFits(rr.rdata)
  }

  predicate EntryFits(e: UpdateEntry) {
    e.AddRecord? || e.DeleteRecord? ==> RdataFits(e.record.rdata)
  }

  predicate AllFit(ps: seq<Prerequisite>, es: seq<UpdateEntry>) {
    (forall p <- ps :: PrerequisiteFits(p)) && (forall e <- es :: EntryFits(e))
  }

  // ---- Encoding ------------------------------------------------------------

  method WriteFixed(rtype: U16, rclass: U16, ttl: U32, wire: Buffer)
    modifies wire
    ensures wire.bytes == old(wire.bytes) + (Be16(rtype) + Be16(rclass) + Be32(ttl))
  {
    wire.Extend(Be16(rtype));
    wire.Extend(Be16(rclass));
    wire.Extend(Be32(ttl));
  }

  /** Writes a record without data. */
  method WriteBare(name: DomainName, rtype: U16, rclass: U16, wire: Buffer)
    modifies wire
    ensures wire.bytes == old(wire.bytes) + RROctets(Bare(name, rtype, rclass))
  {
    WriteWire(name, wire);
    WriteFixed(rtype, rclass, 0, wire);
    wire.Extend(Be16(0));
  }

  method WriteWithData(name: DomainName, rtype: U16, rclass: U16, ttl: U32, rd: RecordData, wire: Buffer)
    returns (r: Result<(), RecordError>)
    modifies wire
    ensures r.Ok? <==> RdataFits(rd)
    ensures r.Ok? ==> wire.bytes == old(wire.bytes) + RROctets(WithData(name, rtype, rclass, ttl, rd))
  {
    hide EncodeLabels, Be16, Be32, RdataOctets, Contents, FieldsOf, TypeValue;
    WriteWire(name, wire);
    WriteFixed(rtype, rclass, ttl, wire);
    r := EncodeRdataWithLength(rd, wire);
  }

  method EncodePrerequisite(p: Prerequisite, zoneClass: U16, wire: Buffer) returns (r: Result<(), RecordError>)
    modifies wire
    ensures r.Ok? <==> PrerequisiteFits(p)
    ensures r.Ok? ==> wire.bytes == old(wire.bytes) + RRsOctets(PrerequisiteRRs(p, zoneClass))
  {
    match p {
      case RrsetExists(name, rtype) => WriteBare(name, rtype, CLASS_ANY, wire);
      case RrsetNotExists(name, rtype) => WriteBare(name, rtype, CLASS_NONE, wire);
      case NameExists(name) => WriteBare(name, TYPE_ANY, CLASS_ANY, wire);
      case NameNotExists(name) => WriteBare(name, TYPE_ANY, CLASS_NONE, wire);
      case RrsetExistsWithData(name, rtype, records) =>
        r := EncodeDataRecords(name, rtype, zoneClass, records, wire);
        return;
    }
    r := Ok(());
  }

  /** The records of a "must exist with this data" prerequisite, one per resource record. */
  function DataRRs(name: DomainName, rtype: U16, zoneClass: U16, records: seq<ResourceRecord>): seq<WireRR> {
    PrerequisiteRRs(RrsetExistsWithData(name, rtype, records), zoneClass)
  }

  method EncodeDataRecords(name: DomainName, rtype: U16, zoneClass: U16, records: seq<ResourceRecord>, wire: Buffer)
    returns (r: Result<(), RecordError>)
    modifies wire
    ensures r.Ok? <==> forall rr <- records :: RdataFits(rr.rdata)
    ensures r.Ok? ==> wire.bytes == old(wire.bytes) + RRsOctets(DataRRs(name, rtype, zoneClass, records))
  {
    hide RROctets, RdataFits, WithData;
    ghost var all := DataRRs(name, rtype, zoneClass, records);
    for i := 0 to |records|
      invariant forall j :: 0 <= j < i ==> RdataFits(records[j].rdata)
      invariant wire.bytes == old(wire.bytes) + RRsOctets(all[..i])
    {
      ghost var before := wire.bytes;
      r := WriteWithData(name, rtype, zoneClass, 0, records[i].rdata, wire);
      if r.Err? {
        return;
      }
      RRsOctetsNext(all, i);
    }
    assert all[..|records|] == all;
    r := Ok(());
  }

  lemma RRsOctetsNext(rrs: seq<WireRR>, i: nat)
    requires i < |rrs|
    ensures RRsOctets(rrs[..i + 1]) == RRsOctets(rrs[..i]) + RROctets(rrs[i])
  {
    RRsOctetsAppend(rrs[..i], [rrs[i]]);
    assert rrs[..i + 1] == rrs[..i] + [rrs[i]];
  }

  method EncodeUpdateEntry(e: UpdateEntry, wire: Buffer) returns (r: Result<(), RecordError>)
    modifies wire
    ensures r.Ok? <==> EntryFits(e)
    ensures r.Ok? ==> wire.bytes == old(wire.bytes) + RROctets(EntryRR(e))
  {
    r := Ok(());
    match e {
      case AddRecord(rr) => r := WriteWithData(rr.owner, TypeValue(rr.rdata), rr.rclass, rr.ttl, rr.rdata, wire);
      case DeleteRrset(name, rtype) => WriteBare(name, rtype, CLASS_ANY, wire);
      case DeleteRecord(rr) => r := WriteWithData(rr.owner, TypeValue(rr.rdata), CLASS_NONE, 0, rr.rdata, wire);
      case DeleteName(name) => WriteBare(name, TYPE_ANY, CLASS_ANY, wire);
    }
  }

  /** How many records a prerequisite expands to. */
  function WireRRCount(p: Prerequisite): nat {
    if p.RrsetExistsWithData? then |p.records| else 1
  }

  lemma CountMatches(p: Prerequisite, zoneClass: U16)
    ensures |PrerequisiteRRs(p, zoneClass)| == WireRRCount(p)
  {}

  lemma {:induction false} CountsAddUp(ps: seq<Prerequisite>, p: Prerequisite, zoneClass: U16)
    ensures AllPrerequisiteRRs(ps + [p], zoneClass) == AllPrerequisiteRRs(ps, zoneClass) + PrerequisiteRRs(p, zoneClass)
  {
    hide PrerequisiteRRs;
    if ps == [] {
      assert ps + [p] == [p];
      assert AllPrerequisiteRRs([p], zoneClass) == PrerequisiteRRs(p, zoneClass);
    } else {
      assert (ps + [p])[1..] == ps[1..] + [p];
      CountsAddUp(ps[1..], p, zoneClass);
    }
  }

  function Header(id: U16, prCount: U16, upCount: U16, adCount: U16): (h: seq<Byte>)
    ensures |h| == 12
  {
    Be16(id) + Be16(UPDATE_FLAGS) + Be16(1) + Be16(prCount) + Be16(upCount) + Be16(adCount)
  }

  function ZoneSection(zone: DomainName, class_: U16): seq<Byte> {
    WireForm(zone) + Be16(TYPE_SOA) + Be16(class_)
  }

  /** Everything one update message is built from. */
  datatype Request = Request(id: U16, zone: DomainName, class_: U16, prerequisites: seq<Prerequisite>,
                             updates: seq<UpdateEntry>) {
    function Pre(): seq<WireRR> { AllPrerequisiteRRs(prerequisites, class_) }

    function Upd(): seq<WireRR> { EntryRRs(updates) }

    /** Counts fit their header fields and every record fits its RDLENGTH. */
    predicate Countable() {
      |Pre()| <= 0xFFFF && |updates| <= 0xFFFF && AllFit(prerequisites, updates)
    }
  }

  lemma {:induction false} FittingRRsValid(ps: seq<Prerequisite>, zoneClass: U16)
    requires forall p <- ps :: PrerequisiteFits(p)
    ensures AllValid(AllPrerequisiteRRs(ps, zoneClass))
  {
    if ps != [] {
      assert PrerequisiteFits(ps[0]);
      assert AllValid(PrerequisiteRRs(ps[0], zoneClass));
      FittingRRsValid(ps[1..], zoneClass);
    }
  }

  function CountedHeader(id: U16, pre: nat, upd: nat, ads: nat): seq<Byte> {
    Header(id, pre % 0x1_0000, upd % 0x1_0000, ads % 0x1_0000)
  }

  function MessageOctets(q: Request): seq<Byte> {
    CountedHeader(q.id, |q.Pre()|, |q.updates|, 0) + ZoneSection(q.zone, q.class_) + RRsOctets(q.Pre()) + RRsOctets(q.Upd())
  }

  /** The message is accepted for encoding exactly when it is countable and at most 65535 bytes. */
  predicate Sendable(q: Request) {
    q.Countable() && |MessageOctets(q)| <= 0xFFFF
  }

  method EncodePrerequisites(ps: seq<Prerequisite>, zoneClass: U16, wire: Buffer) returns (r: Result<(), RecordError>)
    modifies wire
    ensures r.Ok? <==> forall p <- ps :: PrerequisiteFits(p)
    ensures r.Ok? ==> wire.bytes == old(wire.bytes) + RRsOctets(AllPrerequisiteRRs(ps, zoneClass))
  {
    hide RROctets, RdataFits, PrerequisiteRRs, PrerequisiteFits;
    for i := 0 to |ps|
      invariant forall j :: 0 <= j < i ==> PrerequisiteFits(ps[j])
      invariant wire.bytes == old(wire.bytes) + RRsOctets(AllPrerequisiteRRs(ps[..i], zoneClass))
    {
      r := EncodePrerequisite(ps[i], zoneClass, wire);
      if r.Err? {
        return;
      }
      CountsAddUp(ps[..i], ps[i], zoneClass);
      RRsOctetsAppend(AllPrerequisiteRRs(ps[..i], zoneClass), PrerequisiteRRs(ps[i], zoneClass));
      assert ps[..i + 1] == ps[..i] + [ps[i]];
    }
    assert ps[..|ps|] == ps;
    r := Ok(());
  }

  method EncodeUpdates(es: seq<UpdateEntry>, wire: Buffer) returns (r: Result<(), RecordError>)
    modifies wire
    ensures r.Ok? <==> forall e <- es :: EntryFits(e)
    ensures r.Ok? ==> wire.bytes == old(wire.bytes) + RRsOctets(EntryRRs(es))
  {
    hide RROctets, RdataFits, EntryRR, EntryFits;
    ghost var all := EntryRRs(es);
    for i := 0 to |es|
      invariant forall j :: 0 <= j < i ==> EntryFits(es[j])
      invariant wire.bytes == old(wire.bytes) + RRsOctets(all[..i])
    {
      r := EncodeUpdateEntry(es[i], wire);
      if r.Err? {
        return;
      }
      RRsOctetsNext(all, i);
    }
    assert all[..|es|] == all;
    r := Ok(());
  }

  method CountPrerequisites(ps: seq<Prerequisite>, ghost zoneClass: U16) returns (count: nat)
    ensures count == |AllPrerequisiteRRs(ps, zoneClass)|
  {
    hide PrerequisiteRRs, WireRRCount;
    count := 0;
    for i := 0 to |ps|
      invariant count == |AllPrerequisiteRRs(ps[..i], zoneClass)|
    {
      CountsAddUp(ps[..i], ps[i], zoneClass);
      CountMatches(ps[i], zoneClass);
      assert ps[..i + 1] == ps[..i] + [ps[i]];
      count := count + WireRRCount(ps[i]);
    }
    assert ps[..|ps|] == ps;
  }

  method EncodeUpdateMessage(q: Request) returns (r: Result<seq<Byte>, RecordError>)
    ensures r.Ok? <==> Sendable(q)
    ensures r.Ok? ==> r.value == MessageOctets(q)
  {
    hide RROctets, RRsOctets, WireForm, Be16, AllPrerequisiteRRs, EntryRRs, PrerequisiteFits, EntryFits;
    var wire := new Buffer();
    var prCount := CountPrerequisites(q.prerequisites, q.class_);
    if prCount > 0xFFFF || |q.updates| > 0xFFFF {
      return Err(InvalidRecord);
    }
    wire.Extend(Header(q.id, prCount, |q.updates|, 0));
    WriteWire(q.zone, wire);
    wire.Extend(Be16(TYPE_SOA));
    wire.Extend(Be16(q.class_));
    assert wire.bytes == Header(q.id, prCount, |q.updates|, 0) + ZoneSection(q.zone, q.class_);
    var ok := EncodePrerequisites(q.prerequisites, q.class_, wire);
    if ok.Err? {
      return Err(InvalidRecord);
    }
    ok := EncodeUpdates(q.updates, wire);
    if ok.Err? {
      return Err(InvalidRecord);
    }
    if |wire.bytes| > 0xFFFF {
      return Err(InvalidRecord);
    }
    r := Ok(wire.bytes);
  }

  // ---- Reading the layout back ---------------------------------------------

  /** An update message as section 2 of RFC 2136 lays it out. */
  datatype Layout = Layout(id: U16, flags: U16, zoneName: WireLabels, zoneType: U16, zoneClass: U16,
                           prerequisites: seq<WireRR>, updates: seq<WireRR>, additional: seq<WireRR>)

  function ReadRR(s: seq<Byte>): (r: Read<WireRR>)
    ensures r.Got? ==> |r.rest| < |s|
  {
    match ReadName(s)
    case Short => Short
    case Got(owner, t) =>
      if |t| < 10 then Short
      else
        var n := ReadBe16(t[8..]);
        if |t| < 10 + n as int then Short
        else Got(WireRR(owner, ReadBe16(t), ReadBe16(t[2..]), ReadBe32(t[4..]), t[10..10 + n as int]), t[10 + n as int..])
  }

  function ReadRRs(count: nat, s: seq<Byte>): Read<seq<WireRR>> {
    if count == 0 then Got([], s)
    else
      match ReadRR(s)
      case Short => Short
      case Got(first, t) =>
        match ReadRRs(count - 1, t)
        case Short => Short
        case Got(more, rest) => Got([first] + more, rest)
  }

  function ReadSections(id: U16, flags: U16, pr: nat, up: nat, ad: nat, s: seq<Byte>): Read<Layout> {
    match ReadName(s)
    case Short => Short
    case Got(zone, t) =>
      if |t| < 4 then Short
      else
        match ReadRRs(pr, t[4..])
        case Short => Short
        case Got(ps, u) =>
          match ReadRRs(up, u)
          case Short => Short
          case Got(us, v) =>
            match ReadRRs(ad, v)
            case Short => Short
            case Got(ads, rest) => Got(Layout(id, flags, zone, ReadBe16(t), ReadBe16(t[2..]), ps, us, ads), rest)
  }

  /** Reads a whole message; the zone section must hold exactly one entry. */
  function ReadMessage(s: seq<Byte>): Read<Layout> {
    if |s| < 12 || ReadBe16(s[4..]) != 1 then Short
    else ReadSections(ReadBe16(s), ReadBe16(s[2..]), ReadBe16(s[6..]), ReadBe16(s[8..]), ReadBe16(s[10..]), s[12..])
  }

  lemma FixedReadsBack(rr: WireRR, rest: seq<Byte>)
    requires rr.Valid()
    ensures var t := RRFixed(rr) + rest;
            ReadBe16(t) == rr.rtype && ReadBe16(t[2..]) == rr.rclass && ReadBe32(t[4..]) == rr.ttl
            && ReadBe16(t[8..]) == |rr.rdata| && t[10..] == rest
  {
    var t := RRFixed(rr) + rest;
    var a, b, c := Be16(|rr.rdata|) + rest, Be32(rr.ttl) + (Be16(|rr.rdata|) + rest), 0;
    assert t == Be16(rr.rtype) + (Be16(rr.rclass) + b);
    assert t[2..] == Be16(rr.rclass) + b;
    assert t[4..] == b;
    assert t[8..] == a;
    Be16Reads(rr.rtype, Be16(rr.rclass) + b);
    Be16Reads(rr.rclass, b);
    Be32Reads(rr.ttl, a);
    Be16Reads(|rr.rdata|, rest);
  }

  lemma RRReadsBack(rr: WireRR, rest: seq<Byte>)
    requires rr.Valid()
    ensures ReadRR(RROctets(rr) + rest) == Got(rr, rest)
  {
    hide RRFixed, EncodeLabels, ReadName, ReadBe16, ReadBe32;
    var t := RRFixed(rr) + (rr.rdata + rest);
    assert RROctets(rr) + rest == EncodeLabels(rr.owner) + t;
    NameReadsBack(rr.owner, t);
    FixedReadsBack(rr, rr.rdata + rest);
    var n := |rr.rdata|;
    assert t[10..10 + n] == t[10..][..n] == rr.rdata && t[10 + n..] == t[10..][n..] == rest;
  }

  lemma {:induction false} RRsReadBack(rrs: seq<WireRR>, rest: seq<Byte>)
    requires AllValid(rrs)
    ensures ReadRRs(|rrs|, RRsOctets(rrs) + rest) == Got(rrs, rest)
  {
    hide RROctets, ReadRR;
    if rrs == [] {
      assert RRsOctets(rrs) + rest == rest;
    } else {
      var t := RRsOctets(rrs[1..]) + rest;
      assert RRsOctets(rrs) + rest == RROctets(rrs[0]) + t;
      RRReadsBack(rrs[0], t);
      RRsReadBack(rrs[1..], rest);
      assert [rrs[0]] + rrs[1..] == rrs;
    }
  }

  lemma HeaderReadsBack(id: U16, pr: U16, up: U16, ad: U16, rest: seq<Byte>)
    ensures var s := Header(id, pr, up, ad) + rest;
            ReadBe16(s) == id && ReadBe16(s[2..]) == UPDATE_FLAGS && ReadBe16(s[4..]) == 1
            && ReadBe16(s[6..]) == pr && ReadBe16(s[8..]) == up && ReadBe16(s[10..]) == ad && s[12..] == rest
  {}

  lemma ZoneReadsBack(zone: DomainName, class_: U16, rest: seq<Byte>)
    ensures var t := Be16(TYPE_SOA) + (Be16(class_) + rest);
            ReadName(ZoneSection(zone, class_) + rest) == Got(Contents(zone), t)
            && |t| >= 4 && ReadBe16(t) == TYPE_SOA && ReadBe16(t[2..]) == class_ && t[4..] == rest
  {
    hide Contents, EncodeLabels, ReadName;
    var t := Be16(TYPE_SOA) + (Be16(class_) + rest);
    assert ZoneSection(zone, class_) + rest == EncodeLabels(Contents(zone)) + t;
    NameReadsBack(Contents(zone), t);
    assert t[2..] == Be16(class_) + rest && t[4..] == t[2..][2..];
  }

  function Sections(zone: DomainName, class_: U16, pre: seq<WireRR>, upd: seq<WireRR>, ads: seq<WireRR>): seq<Byte> {
    ZoneSection(zone, class_) + (RRsOctets(pre) + (RRsOctets(upd) + RRsOctets(ads)))
  }

  lemma SectionsReadBack(id: U16, flags: U16, zone: DomainName, class_: U16, pre: seq<WireRR>, upd: seq<WireRR>,
                         ads: seq<WireRR>)
    requires AllValid(pre) && AllValid(upd) && AllValid(ads)
    ensures ReadSections(id, flags, |pre|, |upd|, |ads|, Sections(zone, class_, pre, upd, ads))
            == Got(Layout(id, flags, Contents(zone), TYPE_SOA, class_, pre, upd, ads), [])
  {
    hide RRsOctets, ReadRRs, ReadName, ZoneSection, Contents, Be16, ReadBe16, AllValid;
    var c := RRsOctets(ads);
    var b := RRsOctets(upd) + c;
    var a := RRsOctets(pre) + b;
    ZoneReadsBack(zone, class_, a);
    RRsReadBack(pre, b);
    RRsReadBack(upd, c);
    assert c + [] == c;
    RRsReadBack(ads, []);
  }

  /** Every encoded update, read by its header counts alone, gives the records sections 2.4 and 2.5 of
      RFC 2136 prescribe, in order, and leaves no byte over. */
  lemma UpdateReadsBack(q: Request)
    requires q.Countable()
    ensures ReadMessage(MessageOctets(q))
            == Got(Layout(q.id, UPDATE_FLAGS, Contents(q.zone), TYPE_SOA, q.class_, q.Pre(), q.Upd(), []), [])
  {
    hide RRsOctets, ReadSections, ReadBe16, ZoneSection, Contents, AllPrerequisiteRRs, EntryRR, Header;
    FittingRRsValid(q.prerequisites, q.class_);
    EntriesValid(q.updates);
    SectionsReadBack(q.id, UPDATE_FLAGS, q.zone, q.class_, q.Pre(), q.Upd(), []);
    MessageSections(q);
    HeaderReadsBack(q.id, |q.Pre()|, |q.updates|, 0, Sections(q.zone, q.class_, q.Pre(), q.Upd(), []));
  }

  lemma EntriesValid(es: seq<UpdateEntry>)
    requires forall e <- es :: EntryFits(e)
    ensures AllValid(EntryRRs(es))
  {
    forall i | 0 <= i < |es| ensures EntryRRs(es)[i].Valid() {
      assert EntryFits(es[i]);
    }
  }

  lemma MessageSections(q: Request)
    ensures MessageOctets(q)
            == CountedHeader(q.id, |q.Pre()|, |q.updates|, 0) + Sections(q.zone, q.class_, q.Pre(), q.Upd(), [])
  {
    hide ZoneSection, AllPrerequisiteRRs, EntryRRs, Header;
    var zone, pre, upd := ZoneSection(q.zone, q.class_), RRsOctets(q.Pre()), RRsOctets(q.Upd());
    assert upd + RRsOctets([]) == upd;
    hide RRsOctets;
    assert zone + (pre + upd) == zone + pre + upd;
  }
}
