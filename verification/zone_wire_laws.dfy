/** A zone difference sent as an update: a server that reads the message from its bytes ends up with the new zone's records. */
module ZoneWireLaws {
  import opened Bytes
  import opened Domain
  import opened Records
  import opened Update
  import opened UpdateLaws
  import opened ZoneDiff
  import opened ZoneDiffLaws

  // ---- What a server keeps -------------------------------------------------

  /** A record as a server identifies it: owner and names in the data without case, and the other fields. */
  datatype ServerKey = ServerKey(owner: WireLabels, rtype: U16, fields: seq<Field<WireLabels>>)

  type ServerMap = map<ServerKey, U32>

  function LowerLabels(ls: WireLabels): WireLabels {
    seq(|ls|, i requires 0 <= i < |ls| => LowerAll(ls[i]))
  }

  function LowerField(f: Field<WireLabels>): Field<WireLabels> {
    if f.FName? then FName(LowerLabels(f.name)) else f
  }

  function LowerFields(fs: seq<Field<WireLabels>>): seq<Field<WireLabels>> {
    seq(|fs|, i requires 0 <= i < |fs| => LowerField(fs[i]))
  }

  function KeyOnWire(owner: WireLabels, rtype: U16, rdata: seq<Byte>): ServerKey {
    var read := ReadFields(Records.Layout(rtype), rdata);
    ServerKey(LowerLabels(owner), rtype, if read.Some? then LowerFields(read.value) else [FRaw(rdata)])
  }

  /** An update in force on the server (section 3.4.2 of RFC 2136); a malformed one changes nothing. */
  function ServerPerform(m: ServerMap, u: UpdateMeaning): ServerMap {
    match u
    case Adds(owner, rtype, ttl, rdata) => m[KeyOnWire(owner, rtype, rdata) := ttl]
    case DeletesRecord(owner, rtype, rdata) => m - {KeyOnWire(owner, rtype, rdata)}
    case DeletesRrset(owner, rtype) => map k | k in m && !(k.owner == LowerLabels(owner) && k.rtype == rtype) :: m[k]
    case DeletesName(owner) => map k | k in m && k.owner != LowerLabels(owner) :: m[k]
    case FormErr => m
  }

  /** The records of an update section, performed in order. */
  function ServerReplay(m: ServerMap, rrs: seq<WireRR>, zoneClass: U16): ServerMap
    decreases rrs
  {
    if rrs == [] then m else ServerReplay(ServerPerform(m, UpdateMeaningOf(rrs[0], zoneClass)), rrs[1..], zoneClass)
  }

  function RecordKey(rr: ResourceRecord): ServerKey {
    KeyOnWire(Contents(rr.owner), TypeValue(rr.rdata), RdataOctets(rr.rdata))
  }

  /** What a server that serves these records keeps. */
  function Served(rs: seq<ResourceRecord>): ServerMap {
    if rs == [] then map[] else Served(rs[1..])[RecordKey(rs[0]) := rs[0].ttl]
  }

  // ---- Records a server tells apart as the comparison does -----------------

  const STRUCTURED: set<U16> := {1, 2, 5, 6, 12, 15, 16, 17, 28, 33, 43, 44, 46, 47, 48, 50, 51, 52, 59, 60, 62, 257, 32769}

  /** A record of the zone's class and no meta type, with data that fits and, if kept as raw bytes, of a type that has no
      structure. */
  predicate Proper(rr: ResourceRecord, zoneClass: U16) {
    rr.rclass == zoneClass && TypeValue(rr.rdata) !in META && AllEncodable(FieldsOf(rr.rdata))
    && (rr.rdata.Unknown? ==> rr.rdata.rtype !in STRUCTURED)
  }

  lemma RawIfUnstructured(rtype: U16)
    requires rtype !in STRUCTURED
    ensures Records.Layout(rtype) == [KRaw]
  {}

  lemma StructuredTypes(rd: RecordData)
    ensures !rd.Unknown? ==> TypeValue(rd) in STRUCTURED
  {}

  lemma LowerContents(n: DomainName)
    ensures LowerLabels(Contents(n)) == Canonical(n)
  {}

  lemma FieldsLower(fs: seq<Field<DomainName>>)
    ensures LowerFields(AllOnWire(fs)) == CanonicalFields(fs)
  {
    forall i | 0 <= i < |fs| ensures LowerField(OnWire(fs[i])) == CanonicalField(fs[i]) {
      if fs[i].FName? { LowerContents(fs[i].name); }
    }
  }

  /** What the server reads of a proper record is its canonical identity. */
  lemma RecordKeyIs(rr: ResourceRecord, zoneClass: U16)
    requires Proper(rr, zoneClass)
    ensures RecordKey(rr) == ServerKey(Canonical(rr.owner), TypeValue(rr.rdata), CanonicalFields(FieldsOf(rr.rdata)))
  {
    if rr.rdata.Unknown? { RawIfUnstructured(rr.rdata.rtype); }
    RdataReadsBack(rr.rdata);
    LowerContents(rr.owner);
    FieldsLower(FieldsOf(rr.rdata));
    hide Records.Layout, ReadFields, RdataOctets, Contents, Canonical, CanonicalFields, FieldsOf, LowerFields, LowerLabels, AllOnWire,
      InRfcOrder, WireFields, AllEncodable;
  }

  /** Two proper records are the same to a server exactly when the comparison says so. */
  lemma KeysAgree(a: ResourceRecord, b: ResourceRecord, zoneClass: U16)
    requires Proper(a, zoneClass) && Proper(b, zoneClass)
    ensures RecordKey(a) == RecordKey(b) <==> Key(a) == Key(b)
  {
    RecordKeyIs(a, zoneClass);
    RecordKeyIs(b, zoneClass);
    StructuredTypes(a.rdata);
    StructuredTypes(b.rdata);
    UnknownType(a.rdata);
    UnknownType(b.rdata);
    hide RecordKey, Canonical, CanonicalFields, FieldsOf, TypeValue, AllEncodable;
  }

  lemma UnknownType(rd: RecordData)
    ensures rd.Unknown? ==> TypeValue(rd) == rd.rtype
  {}

  // ---- The two views of a zone ---------------------------------------------

  predicate AllProper(rs: seq<ResourceRecord>, zoneClass: U16) { forall i :: 0 <= i < |rs| ==> Proper(rs[i], zoneClass) }

  /** The maps hold the same proper records with the same TTLs, and the server's holds no others. */
  ghost predicate Agree(m: TtlMap, s: ServerMap, zoneClass: U16) {
    && (forall rr: ResourceRecord :: Proper(rr, zoneClass) ==>
          (Key(rr) in m <==> RecordKey(rr) in s) && (Key(rr) in m ==> m[Key(rr)] == s[RecordKey(rr)]))
    && (forall k :: k in s ==> exists rr: ResourceRecord :: Proper(rr, zoneClass) && RecordKey(rr) == k)
  }

  lemma AgreeDetermines(m: TtlMap, s: ServerMap, t: ServerMap, zoneClass: U16)
    requires Agree(m, s, zoneClass) && Agree(m, t, zoneClass)
    ensures s == t
  {
    hide Proper, Key, RecordKey;
    forall k | k in s ensures k in t && t[k] == s[k] {
      var rr: ResourceRecord :| Proper(rr, zoneClass) && RecordKey(rr) == k;
      assert Key(rr) in m;
    }
    forall k | k in t ensures k in s {
      var rr: ResourceRecord :| Proper(rr, zoneClass) && RecordKey(rr) == k;
      assert Key(rr) in m;
    }
  }

  lemma AgreeSet(m: TtlMap, s: ServerMap, rr: ResourceRecord, ttl: Ttl, zoneClass: U16)
    requires Agree(m, s, zoneClass) && Proper(rr, zoneClass)
    ensures Agree(m[Key(rr) := ttl], s[RecordKey(rr) := ttl], zoneClass)
  {
    hide Proper, Key, RecordKey;
    forall x: ResourceRecord | Proper(x, zoneClass) ensures Key(x) == Key(rr) <==> RecordKey(x) == RecordKey(rr) {
      KeysAgree(x, rr, zoneClass);
    }
  }

  lemma AgreeGone(m: TtlMap, s: ServerMap, rr: ResourceRecord, zoneClass: U16)
    requires Agree(m, s, zoneClass) && Proper(rr, zoneClass)
    ensures Agree(m - {Key(rr)}, s - {RecordKey(rr)}, zoneClass)
  {
    hide Proper, Key, RecordKey;
    forall x: ResourceRecord | Proper(x, zoneClass) ensures Key(x) == Key(rr) <==> RecordKey(x) == RecordKey(rr) {
      KeysAgree(x, rr, zoneClass);
    }
  }

  lemma {:induction false} ServedAgrees(rs: seq<ResourceRecord>, zoneClass: U16)
    requires AllProper(rs, zoneClass)
    ensures Agree(MapOf(rs), Served(rs), zoneClass)
  {
    hide Proper, Key, RecordKey, Agree;
    if rs == [] {
      NothingAgrees(zoneClass);
    } else {
      ServedAgrees(rs[1..], zoneClass);
      AgreeSet(MapOf(rs[1..]), Served(rs[1..]), rs[0], rs[0].ttl, zoneClass);
    }
  }

  lemma NothingAgrees(zoneClass: U16)
    ensures Agree(map[], map[], zoneClass)
  {}

  // ---- Exported updates ----------------------------------------------------

  /** An addition or deletion of a proper record. */
  predicate ProperOp(op: UpdateEntry, zoneClass: U16) {
    (op.AddRecord? || op.DeleteRecord?) && Proper(op.record, zoneClass)
  }

  predicate AllProperOps(ops: seq<UpdateEntry>, zoneClass: U16) { forall i :: 0 <= i < |ops| ==> ProperOp(ops[i], zoneClass) }

  predicate EntryProper(e: DiffEntry, zoneClass: U16) { Proper(e.record, zoneClass) }

  predicate EntriesProper(es: seq<DiffEntry>, zoneClass: U16) { forall i :: 0 <= i < |es| ==> EntryProper(es[i], zoneClass) }

  lemma ProperAnyTtl(rr: ResourceRecord, ttl: Ttl, zoneClass: U16)
    ensures Proper(rr.(ttl := ttl), zoneClass) <==> Proper(rr, zoneClass)
  {}

  lemma {:induction false} NewProper(before: seq<ResourceRecord>, rs: seq<ResourceRecord>, zoneClass: U16)
    requires AllProper(rs, zoneClass)
    ensures EntriesProper(NewEntries(before, rs), zoneClass)
  {
    hide Proper, Key, Find;
    if rs != [] { NewProper(before, rs[1..], zoneClass); }
  }

  lemma {:induction false} OldProper(rs: seq<ResourceRecord>, latest: seq<ResourceRecord>, zoneClass: U16)
    requires AllProper(rs, zoneClass)
    ensures EntriesProper(OldEntries(rs, latest), zoneClass)
  {
    hide Proper, Key, Find;
    if rs != [] { OldProper(rs[1..], latest, zoneClass); }
  }

  lemma {:induction false} UpdatesProper(es: seq<DiffEntry>, zoneClass: U16)
    requires EntriesProper(es, zoneClass)
    ensures AllProperOps(Updates(es), zoneClass)
  {
    hide Proper;
    if es != [] {
      UpdatesProper(es[1..], zoneClass);
      assert EntryProper(es[0], zoneClass);
      if es[0].TtlChanged? { ProperAnyTtl(es[0].record, es[0].oldTtl, zoneClass); }
    }
  }

  lemma ProperSayable(op: UpdateEntry, zoneClass: U16)
    requires ProperOp(op, zoneClass)
    ensures Sayable(op, zoneClass)
  {}

  /** Performing one written record does on the server what the update does to the zone. */
  lemma OneReplays(m: TtlMap, s: ServerMap, op: UpdateEntry, zoneClass: U16)
    requires Agree(m, s, zoneClass) && ProperOp(op, zoneClass) && zoneClass !in {254, 255}
    ensures Agree(Perform(m, op), ServerPerform(s, UpdateMeaningOf(EntryRR(op), zoneClass)), zoneClass)
  {
    ProperSayable(op, zoneClass);
    UpdateUnderstoodIff(op, zoneClass);
    hide Proper, Key, Agree, UpdateMeaningOf, EntryRR, Sayable, KeyOnWire;
    if op.AddRecord? {
      AgreeSet(m, s, op.record, op.record.ttl, zoneClass);
    } else {
      AgreeGone(m, s, op.record, zoneClass);
    }
  }

  lemma {:induction false} WrittenReplays(m: TtlMap, s: ServerMap, ops: seq<UpdateEntry>, zoneClass: U16)
    requires Agree(m, s, zoneClass) && AllProperOps(ops, zoneClass) && zoneClass !in {254, 255}
    ensures Agree(Replay(m, ops), ServerReplay(s, EntryRRs(ops), zoneClass), zoneClass)
    decreases ops
  {
    hide Agree, ProperOp, Perform, ServerPerform, UpdateMeaningOf, EntryRR;
    if ops != [] {
      OneReplays(m, s, ops[0], zoneClass);
      assert EntryRRs(ops)[1..] == EntryRRs(ops[1..]);
      WrittenReplays(Perform(m, ops[0]), ServerPerform(s, UpdateMeaningOf(EntryRR(ops[0]), zoneClass)), ops[1..], zoneClass);
    }
  }

  /** The message that carries a zone difference, read from its bytes and performed by a server of the old zone, leaves
      exactly the new zone's records there, with their TTLs. */
  lemma SentDiffArrives(q: Request, a: Zone, b: Zone)
    requires q.Countable() && q.class_ !in {254, 255} && q.updates == Updates(Diff(a, b))
    requires AllProper(NonSoa(a.records), q.class_) && AllProper(NonSoa(b.records), q.class_) && Unique(NonSoa(b.records))
    ensures ReadMessage(MessageOctets(q)).Got? && ReadMessage(MessageOctets(q)).value.zoneClass == q.class_
    ensures ServerReplay(Served(NonSoa(a.records)), ReadMessage(MessageOctets(q)).value.updates, q.class_)
            == Served(NonSoa(b.records))
  {
    hide ReadMessage, MessageOctets, Agree, Key, Proper, EntryRRs, Replay, ServerReplay, NewEntries, OldEntries, Updates, Unique, NonSoa,
      Served, MapOf;
    var before, latest := NonSoa(a.records), NonSoa(b.records);
    UpdateReadsBack(q);
    ServedAgrees(before, q.class_);
    ServedAgrees(latest, q.class_);
    NewProper(before, latest, q.class_);
    OldProper(before, latest, q.class_);
    UpdatesProper(Diff(a, b), q.class_);
    WrittenReplays(MapOf(before), Served(before), q.updates, q.class_);
    ExportMeansDiff(a, b);
    AgreeDetermines(MapOf(latest), ServerReplay(Served(before), EntryRRs(q.updates), q.class_), Served(latest), q.class_);
  }
}
