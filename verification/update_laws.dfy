/** What a server makes of an encoded update: sections 2.4, 2.5, 3.2 and 3.4 of RFC 2136, read from the records alone. */
module UpdateLaws {
  import opened Bytes
  import opened Domain
  import opened Records
  import opened Update

  /** AXFR, MAILB, MAILA and ANY, which no record can have (section 3.4.1.3 of RFC 2136). */
  const META: set<U16> := {252, 253, 254, 255}

  datatype UpdateMeaning =
    | Adds(owner: WireLabels, rtype: U16, ttl: U32, rdata: seq<Byte>)
    | DeletesRecord(owner: WireLabels, rtype: U16, rdata: seq<Byte>)
    | DeletesRrset(owner: WireLabels, rtype: U16)
    | DeletesName(owner: WireLabels)
    | FormErr

  /** How a server reads one record of the update section (sections 2.5 and 3.4.1 of RFC 2136). */
  function UpdateMeaningOf(rr: WireRR, zoneClass: U16): UpdateMeaning {
    if rr.rclass == zoneClass then
      if rr.rtype in META then FormErr else Adds(rr.owner, rr.rtype, rr.ttl, rr.rdata)
    else if rr.ttl != 0 then FormErr
    else if rr.rclass == 255 then
      if rr.rdata != [] then FormErr
      else if rr.rtype == 255 then DeletesName(rr.owner)
      else if rr.rtype in META then FormErr
      else DeletesRrset(rr.owner, rr.rtype)
    else if rr.rclass == 254 && rr.rtype !in META then DeletesRecord(rr.owner, rr.rtype, rr.rdata)
    else FormErr
  }

  datatype PrerequisiteMeaning =
    | RrsetPresent(owner: WireLabels, rtype: U16)
    | RrsetAbsent(owner: WireLabels, rtype: U16)
    | NameInUse(owner: WireLabels)
    | NameNotInUse(owner: WireLabels)
    | RrsetHolds(owner: WireLabels, rtype: U16, rdata: seq<Byte>)
    | BadPrerequisite

  /** How a server reads one record of the prerequisite section (sections 2.4 and 3.2 of RFC 2136). */
  function PrerequisiteMeaningOf(rr: WireRR, zoneClass: U16): PrerequisiteMeaning {
    if rr.ttl != 0 then BadPrerequisite
    else if rr.rclass == zoneClass then RrsetHolds(rr.owner, rr.rtype, rr.rdata)
    else if rr.rdata != [] then BadPrerequisite
    else if rr.rclass == 255 then if rr.rtype == 255 then NameInUse(rr.owner) else RrsetPresent(rr.owner, rr.rtype)
    else if rr.rclass == 254 then if rr.rtype == 255 then NameNotInUse(rr.owner) else RrsetAbsent(rr.owner, rr.rtype)
    else BadPrerequisite
  }

  // ---- What was asked for --------------------------------------------------

  function AskedUpdate(e: UpdateEntry): UpdateMeaning {
    match e
    case AddRecord(rr) => Adds(Contents(rr.owner), TypeValue(rr.rdata), rr.ttl, RdataOctets(rr.rdata))
    case DeleteRecord(rr) => DeletesRecord(Contents(rr.owner), TypeValue(rr.rdata), RdataOctets(rr.rdata))
    case DeleteRrset(n, t) => DeletesRrset(Contents(n), t)
    case DeleteName(n) => DeletesName(Contents(n))
  }

  function AskedPrerequisites(p: Prerequisite): seq<PrerequisiteMeaning> {
    match p
    case RrsetExists(n, t) => [RrsetPresent(Contents(n), t)]
    case RrsetNotExists(n, t) => [RrsetAbsent(Contents(n), t)]
    case NameExists(n) => [NameInUse(Contents(n))]
    case NameNotExists(n) => [NameNotInUse(Contents(n))]
    case RrsetExistsWithData(n, t, records) =>
      seq(|records|, i requires 0 <= i < |records| => RrsetHolds(Contents(n), t, RdataOctets(records[i].rdata)))
  }

  /** Can a server understand the update as it was meant: the record's class is the zone's, and no type is a meta type. */
  predicate Sayable(e: UpdateEntry, zoneClass: U16) {
    match e
    case AddRecord(rr) => rr.rclass == zoneClass && TypeValue(rr.rdata) !in META
    case DeleteRecord(rr) => TypeValue(rr.rdata) !in META
    case DeleteRrset(_, t) => t !in META
    case DeleteName(_) => true
  }

  predicate SayablePrerequisite(p: Prerequisite) {
    (p.RrsetExists? || p.RrsetNotExists?) ==> p.rtype != 255
  }

  // ---- What is understood --------------------------------------------------

  /** An update is understood as meant exactly when it is sayable. */
  lemma UpdateUnderstoodIff(e: UpdateEntry, zoneClass: U16)
    requires zoneClass !in {254, 255}
    ensures UpdateMeaningOf(EntryRR(e), zoneClass) == AskedUpdate(e) <==> Sayable(e, zoneClass)
  {
    hide RdataOctets, TypeValue, Contents;
  }

  function PrerequisiteMeanings(rrs: seq<WireRR>, zoneClass: U16): seq<PrerequisiteMeaning> {
    seq(|rrs|, i requires 0 <= i < |rrs| => PrerequisiteMeaningOf(rrs[i], zoneClass))
  }

  lemma PrerequisiteUnderstoodIff(p: Prerequisite, zoneClass: U16)
    requires zoneClass !in {254, 255}
    ensures PrerequisiteMeanings(PrerequisiteRRs(p, zoneClass), zoneClass) == AskedPrerequisites(p) <==> SayablePrerequisite(p)
  {
    hide RdataOctets, Contents;
    var ms := PrerequisiteMeanings(PrerequisiteRRs(p, zoneClass), zoneClass);
    if !p.RrsetExistsWithData? { assert |ms| == 1 && ms[0] == PrerequisiteMeaningOf(PrerequisiteRRs(p, zoneClass)[0], zoneClass); }
  }

  function AllAsked(ps: seq<Prerequisite>): seq<PrerequisiteMeaning> {
    if ps == [] then [] else AskedPrerequisites(ps[0]) + AllAsked(ps[1..])
  }

  lemma {:induction false} PrerequisitesUnderstood(ps: seq<Prerequisite>, zoneClass: U16)
    requires zoneClass !in {254, 255} && forall i :: 0 <= i < |ps| ==> SayablePrerequisite(ps[i])
    ensures PrerequisiteMeanings(AllPrerequisiteRRs(ps, zoneClass), zoneClass) == AllAsked(ps)
  {
    hide PrerequisiteMeaningOf, PrerequisiteRRs, AskedPrerequisites, SayablePrerequisite;
    if ps != [] {
      PrerequisiteUnderstoodIff(ps[0], zoneClass);
      PrerequisitesUnderstood(ps[1..], zoneClass);
      MeaningsAppend(PrerequisiteRRs(ps[0], zoneClass), AllPrerequisiteRRs(ps[1..], zoneClass), zoneClass);
    }
  }

  lemma MeaningsAppend(a: seq<WireRR>, b: seq<WireRR>, zoneClass: U16)
    ensures PrerequisiteMeanings(a + b, zoneClass) == PrerequisiteMeanings(a, zoneClass) + PrerequisiteMeanings(b, zoneClass)
  {
    hide PrerequisiteMeaningOf;
  }

  /** Read from its bytes by a server, an encoded update is a request with opcode 5 and no flag for the zone, and
      every record means what was asked for, each exactly when it is sayable. */
  lemma MessageUnderstood(q: Request)
    requires q.Countable() && q.class_ !in {254, 255}
    ensures ReadMessage(MessageOctets(q)).Got? && ReadMessage(MessageOctets(q)).rest == []
    ensures var l := ReadMessage(MessageOctets(q)).value;
            && l.flags == 5 * 0x800 && l.id == q.id && l.additional == []
            && l.zoneName == Contents(q.zone) && l.zoneType == 6 && l.zoneClass == q.class_
            && |l.updates| == |q.updates|
            && (forall i :: 0 <= i < |q.updates| ==>
                  (UpdateMeaningOf(l.updates[i], l.zoneClass) == AskedUpdate(q.updates[i]) <==> Sayable(q.updates[i], q.class_)))
            && ((forall i :: 0 <= i < |q.prerequisites| ==> SayablePrerequisite(q.prerequisites[i])) ==>
                  PrerequisiteMeanings(l.prerequisites, l.zoneClass) == AllAsked(q.prerequisites))
  {
    UpdateReadsBack(q);
    hide ReadMessage, MessageOctets, PrerequisiteMeaningOf, AllAsked, UpdateMeaningOf, AskedUpdate, EntryRR, AllPrerequisiteRRs,
      Sayable, SayablePrerequisite, Contents;
    forall i | 0 <= i < |q.updates|
      ensures UpdateMeaningOf(q.Upd()[i], q.class_) == AskedUpdate(q.updates[i]) <==> Sayable(q.updates[i], q.class_)
    {
      UpdateUnderstoodIff(q.updates[i], q.class_);
    }
    if forall i :: 0 <= i < |q.prerequisites| ==> SayablePrerequisite(q.prerequisites[i]) {
      PrerequisitesUnderstood(q.prerequisites, q.class_);
    }
  }

  /** An addition of class ANY is written as it stands, and without data a server reads it as a deletion. */
  lemma ForeignClassDeletes(rr: ResourceRecord, zoneClass: U16)
    requires zoneClass !in {254, 255} && rr.rclass == 255 && rr.ttl == 0 && rr.rdata.Unknown? && rr.rdata.rdata == []
    requires rr.rdata.rtype !in META
    ensures UpdateMeaningOf(EntryRR(AddRecord(rr)), zoneClass) == DeletesRrset(Contents(rr.owner), rr.rdata.rtype)
  {
    assert FieldsOf(rr.rdata) == [FRaw([])] && FieldsOf(rr.rdata)[1..] == [];
    assert RdataOctets(rr.rdata) == FieldOctets(FRaw([])) + FieldsOctets([]) == [];
    assert TypeValue(rr.rdata) == rr.rdata.rtype;
  }
}
