/** The zone diff engine: computing, applying and exporting the difference between two zones. */
module ZoneDiff {
  import opened Bytes
  import opened Domain
  import opened Records
  import opened Update

  datatype Zone = Zone(name: DomainName, rclass: U16, records: seq<ResourceRecord>)

  datatype DiffEntry =
    | Added(record: ResourceRecord)
    | Removed(record: ResourceRecord)
    | TtlChanged(record: ResourceRecord, oldTtl: Ttl, newTtl: Ttl)

  // ---- Record identity -----------------------------------------------------

  predicate SameField(a: Field<DomainName>, b: Field<DomainName>) {
    match (a, b)
    case (FName(m), FName(n)) => SameName(m, n)
    case _ => a == b
  }

  /** Derived equality of record data: the same variant, with equal fields. Names compare without case. */
  predicate SameRdata(a: RecordData, b: RecordData) {
    a.Unknown? == b.Unknown? && TypeValue(a) == TypeValue(b)
    && var x, y := FieldsOf(a), FieldsOf(b);
       |x| == |y| && forall i :: 0 <= i < |x| ==> SameField(x[i], y[i])
  }

  /** Same owner, class and record data. */
  predicate SameIdentity(a: ResourceRecord, b: ResourceRecord) {
    SameName(a.owner, b.owner) && a.rclass == b.rclass && SameRdata(a.rdata, b.rdata)
  }

  datatype Identity = Identity(owner: WireLabels, rclass: U16, unknown: bool, rtype: U16, fields: seq<Field<WireLabels>>)

  function CanonicalField(f: Field<DomainName>): Field<WireLabels> {
    match f
    case F8(b) => F8(b)
    case F16(h) => F16(h)
    case F32(w) => F32(w)
    case FName(n) => FName(Canonical(n))
    case FCounted(s) => FCounted(s)
    case FRaw(s) => FRaw(s)
  }

  function CanonicalFields(fs: seq<Field<DomainName>>): (r: seq<Field<WireLabels>>)
    ensures |r| == |fs|
  {
    seq(|fs|, i requires 0 <= i < |fs| => CanonicalField(fs[i]))
  }

  /** What makes two records the same record, with every name in canonical form. */
  function Key(rr: ResourceRecord): Identity {
    Identity(Canonical(rr.owner), rr.rclass, rr.rdata.Unknown?, TypeValue(rr.rdata), CanonicalFields(FieldsOf(rr.rdata)))
  }

  lemma SameFieldCanonical(a: Field<DomainName>, b: Field<DomainName>)
    ensures SameField(a, b) <==> CanonicalField(a) == CanonicalField(b)
  {
    hide SameName, Canonical;
    if a.FName? && b.FName? { SameNameCanonical(a.name, b.name); }
  }

  /** The code's comparison is equality of canonical identities. */
  lemma SameIffKey(a: ResourceRecord, b: ResourceRecord)
    ensures SameIdentity(a, b) <==> Key(a) == Key(b)
  {
    hide SameName, Canonical, SameField, CanonicalField, FieldsOf, TypeValue;
    SameNameCanonical(a.owner, b.owner);
    var x, y := FieldsOf(a.rdata), FieldsOf(b.rdata);
    forall i | 0 <= i < |x| && i < |y| ensures SameField(x[i], y[i]) <==> CanonicalFields(x)[i] == CanonicalFields(y)[i] {
      SameFieldCanonical(x[i], y[i]);
    }
    if CanonicalFields(x) == CanonicalFields(y) {
      assert |x| == |CanonicalFields(x)| == |CanonicalFields(y)| == |y|;
    }
  }

  predicate IsSoa(rr: ResourceRecord) { rr.rdata.Soa? }

  lemma SoaKeys(a: ResourceRecord, b: ResourceRecord)
    requires Key(a) == Key(b)
    ensures IsSoa(a) <==> IsSoa(b)
  {
    hide Canonical, FieldsOf, CanonicalFields;
  }

  // ---- Specifications ------------------------------------------------------

  function NonSoa(rs: seq<ResourceRecord>): seq<ResourceRecord> {
    if rs == [] then [] else (if IsSoa(rs[0]) then [] else [rs[0]]) + NonSoa(rs[1..])
  }

  function Soas(rs: seq<ResourceRecord>): seq<ResourceRecord> {
    if rs == [] then [] else (if IsSoa(rs[0]) then [rs[0]] else []) + Soas(rs[1..])
  }

  /** The first record with an identity, if any. */
  function Find(rs: seq<ResourceRecord>, k: Identity): (r: Option<ResourceRecord>)
    ensures r.Some? ==> r.value in rs && Key(r.value) == k
    ensures r.None? ==> forall rr :: rr in rs ==> Key(rr) != k
  {
    if rs == [] then None
    else if Key(rs[0]) == k then Some(rs[0])
    else Find(rs[1..], k)
  }

  /** What a record of the new zone adds to the difference. */
  function EntryFor(before: seq<ResourceRecord>, rr: ResourceRecord): seq<DiffEntry> {
    match Find(before, Key(rr))
    case None => [Added(rr)]
    case Some(o) => if o.ttl != rr.ttl then [TtlChanged(rr, o.ttl, rr.ttl)] else []
  }

  function NewEntries(before: seq<ResourceRecord>, rs: seq<ResourceRecord>): seq<DiffEntry> {
    if rs == [] then [] else EntryFor(before, rs[0]) + NewEntries(before, rs[1..])
  }

  function OldEntries(rs: seq<ResourceRecord>, latest: seq<ResourceRecord>): seq<DiffEntry> {
    if rs == [] then []
    else (if Find(latest, Key(rs[0])).None? then [Removed(rs[0])] else []) + OldEntries(rs[1..], latest)
  }

  function Diff(a: Zone, b: Zone): seq<DiffEntry> {
    NewEntries(NonSoa(a.records), NonSoa(b.records)) + OldEntries(NonSoa(a.records), NonSoa(b.records))
  }

  function RemoveFirst(rs: seq<ResourceRecord>, k: Identity): seq<ResourceRecord> {
    if rs == [] then []
    else if Key(rs[0]) == k then rs[1..]
    else [rs[0]] + RemoveFirst(rs[1..], k)
  }

  function SetFirst(rs: seq<ResourceRecord>, k: Identity, ttl: Ttl): seq<ResourceRecord> {
    if rs == [] then []
    else if Key(rs[0]) == k then [rs[0].(ttl := ttl)] + rs[1..]
    else [rs[0]] + SetFirst(rs[1..], k, ttl)
  }

  function ApplyEntry(rs: seq<ResourceRecord>, e: DiffEntry): seq<ResourceRecord> {
    match e
    case Added(rr) => rs + [rr]
    case Removed(rr) => RemoveFirst(rs, Key(rr))
    case TtlChanged(rr, _, ttl) => SetFirst(rs, Key(rr), ttl)
  }

  function ApplyAll(rs: seq<ResourceRecord>, es: seq<DiffEntry>): seq<ResourceRecord>
    decreases es
  {
    if es == [] then rs else ApplyAll(ApplyEntry(rs, es[0]), es[1..])
  }

  function UpdatesFor(e: DiffEntry): seq<UpdateEntry> {
    match e
    case Added(rr) => [AddRecord(rr)]
    case Removed(rr) => [DeleteRecord(rr)]
    case TtlChanged(rr, oldTtl, _) => [DeleteRecord(rr.(ttl := oldTtl)), AddRecord(rr)]
  }

  function Updates(es: seq<DiffEntry>): seq<UpdateEntry> {
    if es == [] then [] else UpdatesFor(es[0]) + Updates(es[1..])
  }

  // ---- The operations ------------------------------------------------------

  method Filtered(rs: seq<ResourceRecord>) returns (r: seq<ResourceRecord>)
    ensures r == NonSoa(rs)
  {
    r := [];
    assert rs[0..] == rs;
    for i := 0 to |rs|
      invariant r + NonSoa(rs[i..]) == NonSoa(rs)
    {
      assert rs[i..][1..] == rs[i + 1..];
      if !IsSoa(rs[i]) {
        assert r + ([rs[i]] + NonSoa(rs[i + 1..])) == r + [rs[i]] + NonSoa(rs[i + 1..]);
        r := r + [rs[i]];
      } else {
        assert [] + NonSoa(rs[i + 1..]) == NonSoa(rs[i + 1..]);
      }
    }
    assert r + [] == r;
  }

  /** Index of the first record that is the same as `rr`, or the length. */
  method Position(rs: seq<ResourceRecord>, rr: ResourceRecord) returns (p: nat)
    ensures p <= |rs| && (forall i :: 0 <= i < p ==> Key(rs[i]) != Key(rr)) && (p < |rs| ==> Key(rs[p]) == Key(rr))
  {
    hide Key, SameIdentity;
    p := 0;
    while p < |rs|
      invariant p <= |rs| && forall i :: 0 <= i < p ==> Key(rs[i]) != Key(rr)
    {
      SameIffKey(rs[p], rr);
      if SameIdentity(rs[p], rr) {
        return;
      }
      p := p + 1;
    }
  }

  lemma {:induction false} FirstAt(rs: seq<ResourceRecord>, k: Identity, p: nat)
    requires p <= |rs| && (forall i :: 0 <= i < p ==> Key(rs[i]) != k) && (p < |rs| ==> Key(rs[p]) == k)
    ensures Find(rs, k) == if p < |rs| then Some(rs[p]) else None
    ensures RemoveFirst(rs, k) == if p < |rs| then rs[..p] + rs[p + 1..] else rs
  {
    hide Key;
    if 0 < p {
      FirstAt(rs[1..], k, p - 1);
      assert rs == [rs[0]] + rs[1..];
    }
  }

  lemma {:induction false} FirstSet(rs: seq<ResourceRecord>, k: Identity, p: nat, ttl: Ttl)
    requires p <= |rs| && (forall i :: 0 <= i < p ==> Key(rs[i]) != k) && (p < |rs| ==> Key(rs[p]) == k)
    ensures SetFirst(rs, k, ttl) == if p < |rs| then rs[p := rs[p].(ttl := ttl)] else rs
  {
    hide Key;
    if 0 < p {
      FirstSet(rs[1..], k, p - 1, ttl);
      assert rs == [rs[0]] + rs[1..];
    } else if p < |rs| {
      assert rs[0 := rs[0].(ttl := ttl)] == [rs[0].(ttl := ttl)] + rs[1..];
    }
  }

  /** Pass 1: records that are new or have a new TTL. */
  method FindNew(before: seq<ResourceRecord>, latest: seq<ResourceRecord>) returns (entries: seq<DiffEntry>)
    ensures entries == NewEntries(before, latest)
  {
    hide Key, Find, NewEntries;
    entries := [];
    assert latest[0..] == latest;
    for i := 0 to |latest|
      invariant entries + NewEntries(before, latest[i..]) == NewEntries(before, latest)
    {
      var rr := latest[i];
      var p := Position(before, rr);
      FirstAt(before, Key(rr), p);
      NewEntriesAt(entries, before, latest, i);
      if p == |before| {
        entries := entries + [Added(rr)];
      } else if before[p].ttl != rr.ttl {
        entries := entries + [TtlChanged(rr, before[p].ttl, rr.ttl)];
      } else {
        assert entries + [] == entries;
      }
    }
    assert NewEntries(before, latest[|latest|..]) == [] && entries + [] == entries by { NoEntries(before, latest[|latest|..]); }
  }

  lemma NoEntries(before: seq<ResourceRecord>, rs: seq<ResourceRecord>)
    requires rs == []
    ensures NewEntries(before, rs) == [] && OldEntries(rs, before) == []
  {}

  lemma NewEntriesAt(entries: seq<DiffEntry>, before: seq<ResourceRecord>, rs: seq<ResourceRecord>, i: nat)
    requires i < |rs|
    ensures entries + NewEntries(before, rs[i..]) == entries + EntryFor(before, rs[i]) + NewEntries(before, rs[i + 1..])
  {
    hide EntryFor;
    assert rs[i..][1..] == rs[i + 1..];
  }

  lemma OldEntriesAt(entries: seq<DiffEntry>, rs: seq<ResourceRecord>, latest: seq<ResourceRecord>, i: nat)
    requires i < |rs|
    ensures entries + OldEntries(rs[i..], latest) ==
            (if Find(latest, Key(rs[i])).None? then entries + [Removed(rs[i])] else entries) + OldEntries(rs[i + 1..], latest)
  {
    hide Key, Find;
    assert rs[i..][1..] == rs[i + 1..];
  }

  /** Pass 2: records that are gone. */
  method FindGone(before: seq<ResourceRecord>, latest: seq<ResourceRecord>, found: seq<DiffEntry>)
    returns (entries: seq<DiffEntry>)
    ensures entries == found + OldEntries(before, latest)
  {
    hide Key, Find, OldEntries;
    entries := found;
    assert before[0..] == before;
    for i := 0 to |before|
      invariant entries + OldEntries(before[i..], latest) == found + OldEntries(before, latest)
    {
      var p := Position(latest, before[i]);
      FirstAt(latest, Key(before[i]), p);
      OldEntriesAt(entries, before, latest, i);
      if p == |latest| {
        entries := entries + [Removed(before[i])];
      }
    }
    NoEntries(latest, before[|before|..]);
    assert entries + [] == entries;
  }

  method ComputeDiff(self: Zone, other: Zone) returns (entries: seq<DiffEntry>)
    ensures entries == Diff(self, other)
  {
    var before := Filtered(self.records);
    var latest := Filtered(other.records);
    entries := FindNew(before, latest);
    entries := FindGone(before, latest, entries);
  }

  method ApplyDiff(self: Zone, entries: seq<DiffEntry>) returns (r: Zone)
    ensures r == Zone(self.name, self.rclass, ApplyAll(self.records, entries))
  {
    hide Key;
    var records := self.records;
    assert entries[0..] == entries;
    for i := 0 to |entries|
      invariant ApplyAll(records, entries[i..]) == ApplyAll(self.records, entries)
    {
      assert entries[i..][1..] == entries[i + 1..];
      match entries[i] {
        case Added(rr) =>
          records := records + [rr];
        case Removed(rr) =>
          var p := Position(records, rr);
          FirstAt(records, Key(rr), p);
          if p < |records| {
            records := records[..p] + records[p + 1..];
          }
        case TtlChanged(rr, _, ttl) =>
          var p := Position(records, rr);
          FirstSet(records, Key(rr), p, ttl);
          if p < |records| {
            records := records[p := records[p].(ttl := ttl)];
          }
      }
    }
    r := Zone(self.name, self.rclass, records);
  }

  method ToUpdates(entries: seq<DiffEntry>) returns (ops: seq<UpdateEntry>)
    ensures ops == Updates(entries)
  {
    hide Updates;
    ops := [];
    assert entries[0..] == entries;
    for i := 0 to |entries|
      invariant ops + Updates(entries[i..]) == Updates(entries)
    {
      UpdatesAt(ops, entries, i);
      match entries[i] {
        case Added(rr) =>
          ops := ops + [AddRecord(rr)];
        case Removed(rr) =>
          ops := ops + [DeleteRecord(rr)];
        case TtlChanged(rr, oldTtl, _) =>
          ghost var had := ops;
          ops := ops + [DeleteRecord(rr.(ttl := oldTtl))];
          ops := ops + [AddRecord(rr)];
          assert ops == had + [DeleteRecord(rr.(ttl := oldTtl)), AddRecord(rr)];
      }
    }
    NoUpdates(ops, entries);
  }

  lemma UpdatesAt(ops: seq<UpdateEntry>, es: seq<DiffEntry>, i: nat)
    requires i < |es|
    ensures ops + Updates(es[i..]) == ops + UpdatesFor(es[i]) + Updates(es[i + 1..])
  {
    hide UpdatesFor;
    assert es[i..][1..] == es[i + 1..];
  }

  lemma NoUpdates(ops: seq<UpdateEntry>, es: seq<DiffEntry>)
    ensures ops + Updates(es[|es|..]) == ops
  {}
}
