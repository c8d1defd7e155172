/** The update builder: collects prerequisites and updates, encodes, and signs. */
module Builder {
  import opened Bytes
  import opened Domain
  import opened Records
  import opened Update
  import opened Tsig

  datatype UpdateMessage = UpdateMessage(wireBytes: seq<Byte>, id: U16, requestMac: Option<seq<Byte>>,
                                         preTsigLen: Option<nat>)

  datatype BuildError = EmptyRecords | Unencodable | Unsignable | TooLong

  /** ARCOUNT, bytes 10 and 11 of the header. */
  function Arcount(m: seq<Byte>): U16
    requires |m| >= 12
  {
    ReadBe16(m[10..])
  }

  function WithArcount(m: seq<Byte>, count: U16): seq<Byte>
    requires |m| >= 12
  {
    m[..10] + Be16(count) + m[12..]
  }

  /** A message with one more additional record appended and counted. */
  function Appended(m: seq<Byte>, record: seq<Byte>): seq<Byte>
    requires |m| >= 12 && Arcount(m) < 0xFFFF
  {
    WithArcount(m, Arcount(m) + 1) + record
  }

  lemma FreshMessage(q: Request)
    ensures |MessageOctets(q)| >= 12 && Arcount(MessageOctets(q)) == 0
  {
    hide ZoneSection, RRsOctets, ReadBe16, EntryRRs, AllPrerequisiteRRs;
    var h := CountedHeader(q.id, |q.Pre()|, |q.updates|, 0);
    var rest := ZoneSection(q.zone, q.class_) + RRsOctets(q.Pre()) + RRsOctets(q.Upd());
    assert MessageOctets(q) == h + rest;
    hide MessageOctets, Header;
    HeaderReadsBack(q.id, |q.Pre()| % 0x1_0000, |q.updates| % 0x1_0000, 0, rest);
  }

  function SignedBytes(q: Request, key: TsigKey, time: U48): seq<Byte> {
    FreshMessage(q);
    Appended(MessageOctets(q), Built(key, MessageOctets(q), time, None).wire)
  }

  class UpdateBuilder {
    const id: U16
    const zone: DomainName
    const class_: U16
    var prerequisites: seq<Prerequisite>
    var updates: seq<UpdateEntry>

    constructor WithId(id: U16, zone: DomainName, class_: U16)
      ensures this.id == id && this.zone == zone && this.class_ == class_ && prerequisites == [] && updates == []
    {
      this.id, this.zone, this.class_ := id, zone, class_;
      prerequisites, updates := [], [];
    }

    /** What the builder would send. */
    function Request(): Request
      reads this
    {
      Update.Request.Request(id, zone, class_, prerequisites, updates)
    }

    method RequireRrsetExists(name: DomainName, rtype: U16)
      modifies `prerequisites
      ensures prerequisites == old(prerequisites) + [RrsetExists(name, rtype)]
    {
      prerequisites := prerequisites + [RrsetExists(name, rtype)];
    }

    method RequireRrsetNotExists(name: DomainName, rtype: U16)
      modifies `prerequisites
      ensures prerequisites == old(prerequisites) + [RrsetNotExists(name, rtype)]
    {
      prerequisites := prerequisites + [RrsetNotExists(name, rtype)];
    }

    method RequireNameExists(name: DomainName)
      modifies `prerequisites
      ensures prerequisites == old(prerequisites) + [NameExists(name)]
    {
      prerequisites := prerequisites + [NameExists(name)];
    }

    method RequireNameNotExists(name: DomainName)
      modifies `prerequisites
      ensures prerequisites == old(prerequisites) + [NameNotExists(name)]
    {
      prerequisites := prerequisites + [NameNotExists(name)];
    }

    /** Refused without records: such a prerequisite would encode to nothing. */
    method RequireRrsetExistsWithData(name: DomainName, rtype: U16, records: seq<ResourceRecord>)
      returns (r: Result<(), BuildError>)
      modifies `prerequisites
      ensures r.Ok? <==> records != []
      ensures prerequisites == old(prerequisites) + if records == [] then [] else [RrsetExistsWithData(name, rtype, records)]
    {
      if records == [] {
        return Err(EmptyRecords);
      }
      prerequisites := prerequisites + [RrsetExistsWithData(name, rtype, records)];
      r := Ok(());
    }

    method AddRecord(record: ResourceRecord)
      modifies `updates
      ensures updates == old(updates) + [UpdateEntry.AddRecord(record)]
    {
      updates := updates + [UpdateEntry.AddRecord(record)];
    }

    method DeleteRrset(name: DomainName, rtype: U16)
      modifies `updates
      ensures updates == old(updates) + [UpdateEntry.DeleteRrset(name, rtype)]
    {
      updates := updates + [UpdateEntry.DeleteRrset(name, rtype)];
    }

    method DeleteRecord(record: ResourceRecord)
      modifies `updates
      ensures updates == old(updates) + [UpdateEntry.DeleteRecord(record)]
    {
      updates := updates + [UpdateEntry.DeleteRecord(record)];
    }

    method DeleteName(name: DomainName)
      modifies `updates
      ensures updates == old(updates) + [UpdateEntry.DeleteName(name)]
    {
      updates := updates + [UpdateEntry.DeleteName(name)];
    }

    method BuildUnsigned() returns (r: Result<UpdateMessage, BuildError>)
      ensures r.Ok? <==> Sendable(Request())
      ensures r.Ok? ==> r.value == UpdateMessage(MessageOctets(Request()), id, None, None)
    {
      hide MessageOctets, Sendable;
      var encoded := EncodeUpdateMessage(Request());
      if encoded.Err? {
        return Err(Unencodable);
      }
      r := Ok(UpdateMessage(encoded.value, id, None, None));
    }

    /** Encodes, appends the TSIG record, and counts it in ARCOUNT. */
    method Sign(key: TsigKey, time: U64) returns (r: Result<UpdateMessage, BuildError>)
      ensures r.Ok? <==> Sendable(Request()) && Signable(time, None) && |SignedBytes(Request(), key, time)| <= 0xFFFF
      ensures r.Ok? ==>
          r.value == UpdateMessage(SignedBytes(Request(), key, time), id,
                                   Some(Built(key, MessageOctets(Request()), time, None).mac),
                                   Some(|MessageOctets(Request())|))
    {
      hide MessageOctets, Sendable, Built, Be16, ReadBe16;
      var encoded := EncodeUpdateMessage(Request());
      if encoded.Err? {
        return Err(Unencodable);
      }
      FreshMessage(Request());
      var tsig := Tsig.New(key, encoded.value, time, None);
      if tsig.Err? {
        return Err(Unsignable);
      }
      var wire := encoded.value;
      var preTsigLen := |wire|;
      wire := wire[..10] + Be16(Arcount(wire) + 1) + wire[12..];
      wire := wire + tsig.value.wire;
      if |wire| > 0xFFFF {
        return Err(TooLong);
      }
      r := Ok(UpdateMessage(wire, id, Some(tsig.value.mac), Some(preTsigLen)));
    }
  }
}
