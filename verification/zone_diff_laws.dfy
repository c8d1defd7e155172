/** Computing, applying and exporting a zone difference mean the same thing. */
module ZoneDiffLaws {
  import opened Bytes
  import opened Records
  import opened Update
  import opened ZoneDiff

  /** TTLs by record identity. */
  type TtlMap = map<Identity, Ttl>

  // ---- Zones as maps -------------------------------------------------------

  predicate Has(rs: seq<ResourceRecord>, k: Identity) { Find(rs, k).Some? }

  /** No identity occurs twice. */
  predicate Unique(rs: seq<ResourceRecord>) {
    rs == [] || (!Has(rs[1..], Key(rs[0])) && Unique(rs[1..]))
  }

  /** The first record with an identity gives its TTL. */
  function MapOf(rs: seq<ResourceRecord>): TtlMap {
    if rs == [] then map[] else MapOf(rs[1..])[Key(rs[0]) := rs[0].ttl]
  }

  lemma {:induction false} MapIs(rs: seq<ResourceRecord>)
    ensures forall k :: Has(rs, k) <==> k in MapOf(rs)
    ensures forall k :: k in MapOf(rs) ==> Has(rs, k) && MapOf(rs)[k] == Find(rs, k).value.ttl
  {
    hide Key;
    if rs != [] { MapIs(rs[1..]); }
  }

  /** An update in force: additions set a TTL, deletions remove a record (section 3.4.2 of RFC 2136). */
  function Replay(m: TtlMap, ops: seq<UpdateEntry>): TtlMap
    decreases ops
  {
    if ops == [] then m else Replay(Perform(m, ops[0]), ops[1..])
  }

  /** A diff exports only these two kinds of update. */
  function Perform(m: TtlMap, op: UpdateEntry): TtlMap {
    match op
    case AddRecord(rr) => m[Key(rr) := rr.ttl]
    case DeleteRecord(rr) => m - {Key(rr)}
    case DeleteRrset(name, rtype) => m
    case DeleteName(name) => m
  }

  function Effect(m: TtlMap, e: DiffEntry): TtlMap {
    match e
    case Added(rr) => m[Key(rr) := rr.ttl]
    case Removed(rr) => m - {Key(rr)}
    case TtlChanged(rr, _, _) => m[Key(rr) := rr.ttl]
  }

  function Effects(m: TtlMap, es: seq<DiffEntry>): TtlMap
    decreases es
  {
    if es == [] then m else Effects(Effect(m, es[0]), es[1..])
  }

  lemma {:induction false} EffectsJoin(m: TtlMap, a: seq<DiffEntry>, b: seq<DiffEntry>)
    ensures Effects(m, a + b) == Effects(Effects(m, a), b)
    decreases a
  {
    hide Effect;
    if a == [] {
      assert a + b == b;
    } else {
      assert (a + b)[1..] == a[1..] + b;
      EffectsJoin(Effect(m, a[0]), a[1..], b);
    }
  }

  /** After the entries for a new zone's records, the map agrees with it on all its identities. */
  lemma {:induction false} NewEffects(m: TtlMap, before: seq<ResourceRecord>, rs: seq<ResourceRecord>)
    requires Unique(rs)
    requires forall k :: Has(rs, k) ==> (k in m <==> Has(before, k)) && (k in m ==> m[k] == Find(before, k).value.ttl)
    ensures Effects(m, NewEntries(before, rs)) == m + MapOf(rs)
    decreases rs
  {
    hide Key, Effects, MapOf, EntryFor, Find, Has;
    if rs == [] {
      NoEffects(m);
      NoEntries(before, rs);
    } else {
      var m2 := m[Key(rs[0]) := rs[0].ttl];
      FirstHas(rs);
      OneEntry(m, before, rs[0]);
      EffectsJoin(m, EntryFor(before, rs[0]), NewEntries(before, rs[1..]));
      NewEffects(m2, before, rs[1..]);
      MapStep(m, rs);
    }
  }

  lemma NoEffects(m: TtlMap)
    ensures Effects(m, []) == m && m + MapOf([]) == m
  {}

  lemma FirstHas(rs: seq<ResourceRecord>)
    requires rs != [] && Unique(rs)
    ensures Has(rs, Key(rs[0])) && !Has(rs[1..], Key(rs[0]))
    ensures forall k :: Has(rs[1..], k) ==> Has(rs, k)
  {
    hide Key;
  }

  lemma MapStep(m: TtlMap, rs: seq<ResourceRecord>)
    requires rs != [] && Unique(rs)
    ensures m[Key(rs[0]) := rs[0].ttl] + MapOf(rs[1..]) == m + MapOf(rs)
  {
    hide Key, Find;
    MapIs(rs[1..]);
    assert Key(rs[0]) !in MapOf(rs[1..]);
  }

  lemma OneEntry(m: TtlMap, before: seq<ResourceRecord>, rr: ResourceRecord)
    requires Key(rr) in m <==> Has(before, Key(rr))
    requires Key(rr) in m ==> m[Key(rr)] == Find(before, Key(rr)).value.ttl
    ensures Effects(m, EntryFor(before, rr)) == m[Key(rr) := rr.ttl]
  {
    hide Key;
    var es := EntryFor(before, rr);
    if es == [] {
      assert m[Key(rr) := rr.ttl] == m;
    } else {
      assert es[1..] == [];
    }
  }

  /** After the entries for gone records, exactly those identities are out of the map. */
  lemma {:induction false} OldEffects(m: TtlMap, rs: seq<ResourceRecord>, latest: seq<ResourceRecord>)
    ensures Effects(m, OldEntries(rs, latest)) == map k | k in m && !(Has(rs, k) && !Has(latest, k)) :: m[k]
    decreases rs
  {
    hide Key;
    if rs != [] {
      var k := Key(rs[0]);
      var es := if Find(latest, k).None? then [Removed(rs[0])] else [];
      EffectsJoin(m, es, OldEntries(rs[1..], latest));
      assert es != [] ==> es[1..] == [];
      OldEffects(Effects(m, es), rs[1..], latest);
    }
  }

  /** The entries of a diff take the old zone's map to the new one's. */
  lemma DiffEffects(a: Zone, b: Zone)
    requires Unique(NonSoa(b.records))
    ensures Effects(MapOf(NonSoa(a.records)), Diff(a, b)) == MapOf(NonSoa(b.records))
  {
    hide Key, Effects, NewEntries, OldEntries, Unique;
    var before, latest := NonSoa(a.records), NonSoa(b.records);
    hide NonSoa, MapOf;
    var m := MapOf(before);
    MapIs(before);
    MapIs(latest);
    NewEffects(m, before, latest);
    OldEffects(m + MapOf(latest), before, latest);
    EffectsJoin(m, NewEntries(before, latest), OldEntries(before, latest));
  }

  // ---- Exporting -----------------------------------------------------------

  lemma {:induction false} ReplayJoin(m: TtlMap, a: seq<UpdateEntry>, b: seq<UpdateEntry>)
    ensures Replay(m, a + b) == Replay(Replay(m, a), b)
    decreases a
  {
    hide Perform;
    if a == [] {
      assert a + b == b;
    } else {
      assert (a + b)[1..] == a[1..] + b;
      ReplayJoin(Perform(m, a[0]), a[1..], b);
    }
  }

  lemma KeyIgnoresTtl(rr: ResourceRecord, ttl: Ttl)
    ensures Key(rr.(ttl := ttl)) == Key(rr)
  {}

  lemma EntryReplays(m: TtlMap, e: DiffEntry)
    ensures Replay(m, UpdatesFor(e)) == Effect(m, e)
  {
    hide Key, Replay;
    if e.TtlChanged? {
      var gone, again := DeleteRecord(e.record.(ttl := e.oldTtl)), AddRecord(e.record);
      KeyIgnoresTtl(e.record, e.oldTtl);
      assert [gone] + [again] == [gone, again];
      ReplayJoin(m, [gone], [again]);
      ReplayOne(m, gone);
      ReplayOne(m - {Key(e.record)}, again);
      assert (m - {Key(e.record)})[Key(e.record) := e.record.ttl] == m[Key(e.record) := e.record.ttl];
    } else {
      ReplayOne(m, UpdatesFor(e)[0]);
    }
  }

  lemma ReplayOne(m: TtlMap, op: UpdateEntry)
    ensures Replay(m, [op]) == Perform(m, op)
  {
    hide Perform;
    assert [op][1..] == [];
  }

  lemma {:induction false} UpdatesReplay(m: TtlMap, es: seq<DiffEntry>)
    ensures Replay(m, Updates(es)) == Effects(m, es)
    decreases es
  {
    hide UpdatesFor, Effect, Replay;
    if es != [] {
      ReplayJoin(m, UpdatesFor(es[0]), Updates(es[1..]));
      EntryReplays(m, es[0]);
      UpdatesReplay(Effect(m, es[0]), es[1..]);
    } else {
      NothingReplayed(m);
    }
  }

  lemma NothingReplayed(m: TtlMap)
    ensures Replay(m, []) == m
  {}

  /** Replaying the exported updates on the old zone's records gives the new zone's. */
  lemma ExportMeansDiff(a: Zone, b: Zone)
    requires Unique(NonSoa(b.records))
    ensures Replay(MapOf(NonSoa(a.records)), Updates(Diff(a, b))) == MapOf(NonSoa(b.records))
  {
    UpdatesReplay(MapOf(NonSoa(a.records)), Diff(a, b));
    DiffEffects(a, b);
  }

  // ---- Empty differences ---------------------------------------------------

  lemma {:induction false} NoNewEntries(before: seq<ResourceRecord>, rs: seq<ResourceRecord>)
    requires Unique(rs)
    ensures NewEntries(before, rs) == [] <==>
            forall k :: Has(rs, k) ==> Has(before, k) && Find(before, k).value.ttl == Find(rs, k).value.ttl
  {
    hide Key;
    if rs != [] {
      NoNewEntries(before, rs[1..]);
      var k := Key(rs[0]);
      assert Has(rs, k) && Find(rs, k).value == rs[0];
      assert forall q :: Has(rs, q) && q != k ==> Has(rs[1..], q) && Find(rs, q) == Find(rs[1..], q);
      assert forall q :: Has(rs[1..], q) ==> q != k && Find(rs, q) == Find(rs[1..], q);
    }
  }

  lemma {:induction false} NoOldEntries(rs: seq<ResourceRecord>, latest: seq<ResourceRecord>)
    ensures OldEntries(rs, latest) == [] <==> forall k :: Has(rs, k) ==> Has(latest, k)
  {
    hide Key;
    if rs != [] {
      NoOldEntries(rs[1..], latest);
      var k := Key(rs[0]);
      assert Has(rs, k);
      assert forall q :: Has(rs[1..], q) ==> Has(rs, q);
    }
  }

  /** A diff is empty exactly when the two zones have the same TTL for the same identities. */
  lemma EmptyIffEqual(a: Zone, b: Zone)
    requires Unique(NonSoa(b.records))
    ensures Diff(a, b) == [] <==> MapOf(NonSoa(a.records)) == MapOf(NonSoa(b.records))
  {
    var before, latest := NonSoa(a.records), NonSoa(b.records);
    hide Key, NonSoa, NewEntries, OldEntries, Find, Unique;
    NoNewEntries(before, latest);
    NoOldEntries(before, latest);
    var m, n := MapOf(before), MapOf(latest);
    MapIs(before);
    MapIs(latest);
    if Diff(a, b) == [] {
      assert NewEntries(before, latest) == [] && OldEntries(before, latest) == [];
      assert forall k :: k in m <==> k in n;
    }
    if m == n {
      forall k | Has(latest, k) ensures Has(before, k) && Find(before, k).value.ttl == Find(latest, k).value.ttl {
        assert k in n;
      }
      forall k | Has(before, k) ensures Has(latest, k) { assert k in m; }
    }
  }
}
