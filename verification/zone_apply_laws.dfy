/** Applying a zone difference rebuilds the target zone. */
module ZoneApplyLaws {
  import opened Bytes
  import opened Records
  import opened ZoneDiff
  import opened ZoneDiffLaws

  // ---- SOA records stay out of it ------------------------------------------

  predicate SoaFree(es: seq<DiffEntry>) {
    forall i :: 0 <= i < |es| ==> !IsSoa(es[i].record)
  }

  lemma Cons(r: ResourceRecord, rs: seq<ResourceRecord>)
    ensures NonSoa([r] + rs) == (if IsSoa(r) then NonSoa(rs) else [r] + NonSoa(rs))
    ensures Soas([r] + rs) == (if IsSoa(r) then [r] + Soas(rs) else Soas(rs))
  {
    assert ([r] + rs)[1..] == rs;
  }

  lemma ConsApply(r: ResourceRecord, rs: seq<ResourceRecord>, k: Identity, ttl: Ttl)
    ensures RemoveFirst([r] + rs, k) == (if Key(r) == k then rs else [r] + RemoveFirst(rs, k))
    ensures SetFirst([r] + rs, k, ttl) == (if Key(r) == k then [r.(ttl := ttl)] + rs else [r] + SetFirst(rs, k, ttl))
  {
    hide Key;
    assert ([r] + rs)[1..] == rs;
  }

  lemma Uncons(rs: seq<ResourceRecord>)
    requires rs != []
    ensures rs == [rs[0]] + rs[1..]
  {}

  lemma {:induction false} NonSoaAppend(rs: seq<ResourceRecord>, rr: ResourceRecord)
    requires !IsSoa(rr)
    ensures NonSoa(rs + [rr]) == NonSoa(rs) + [rr] && Soas(rs + [rr]) == Soas(rs)
  {
    hide IsSoa;
    if rs == [] {
      assert rs + [rr] == [rr] + [];
      Cons(rr, []);
    } else {
      assert rs + [rr] == [rs[0]] + (rs[1..] + [rr]);
      Cons(rs[0], rs[1..] + [rr]);
      NonSoaAppend(rs[1..], rr);
    }
  }

  lemma {:induction false} NonSoaChange(rs: seq<ResourceRecord>, rr: ResourceRecord, ttl: Ttl)
    requires !IsSoa(rr)
    ensures NonSoa(RemoveFirst(rs, Key(rr))) == RemoveFirst(NonSoa(rs), Key(rr))
    ensures NonSoa(SetFirst(rs, Key(rr), ttl)) == SetFirst(NonSoa(rs), Key(rr), ttl)
    ensures Soas(RemoveFirst(rs, Key(rr))) == Soas(rs) && Soas(SetFirst(rs, Key(rr), ttl)) == Soas(rs)
  {
    hide Key, RemoveFirst, SetFirst, NonSoa, Soas, IsSoa;
    var k := Key(rr);
    if rs == [] {
      NothingChanges(k, ttl);
    } else {
      var r, tail := rs[0], rs[1..];
      Uncons(rs);
      NonSoaChange(tail, rr, ttl);
      ConsApply(r, tail, k, ttl);
      ConsApply(r, NonSoa(tail), k, ttl);
      Cons(r, tail);
      Cons(r, RemoveFirst(tail, k));
      Cons(r, SetFirst(tail, k, ttl));
      if Key(r) == k { SoaKeys(r, rr); }
      SameKind(r, ttl);
      Cons(r.(ttl := ttl), tail);
    }
  }

  lemma NothingChanges(k: Identity, ttl: Ttl)
    ensures NonSoa([]) == [] && Soas([]) == [] && RemoveFirst([], k) == [] && SetFirst([], k, ttl) == []
  {}

  lemma SameKind(r: ResourceRecord, ttl: Ttl)
    ensures IsSoa(r.(ttl := ttl)) <==> IsSoa(r)
  {}

  /** Entries about other records leave SOA records alone, and SOA records do not get in their way. */
  lemma {:induction false} ApplyBesideSoa(rs: seq<ResourceRecord>, es: seq<DiffEntry>)
    requires SoaFree(es)
    ensures NonSoa(ApplyAll(rs, es)) == ApplyAll(NonSoa(rs), es) && Soas(ApplyAll(rs, es)) == Soas(rs)
    decreases es
  {
    hide Key, NonSoa, Soas, RemoveFirst, SetFirst, IsSoa;
    if es != [] {
      match es[0] {
        case Added(rr) => NonSoaAppend(rs, rr);
        case Removed(rr) => NonSoaChange(rs, rr, 0);
        case TtlChanged(rr, _, ttl) => NonSoaChange(rs, rr, ttl);
      }
      ApplyBesideSoa(ApplyEntry(rs, es[0]), es[1..]);
    }
  }

  lemma {:induction false} NonSoaIsNonSoa(rs: seq<ResourceRecord>)
    ensures forall i :: 0 <= i < |NonSoa(rs)| ==> !IsSoa(NonSoa(rs)[i])
  {
    if rs != [] { NonSoaIsNonSoa(rs[1..]); }
  }

  lemma {:induction false} NewEntriesSoaFree(before: seq<ResourceRecord>, rs: seq<ResourceRecord>)
    requires forall i :: 0 <= i < |rs| ==> !IsSoa(rs[i])
    ensures SoaFree(NewEntries(before, rs)) && SoaFree(OldEntries(rs, before))
    decreases rs
  {
    hide Key, Find, IsSoa;
    if rs != [] { NewEntriesSoaFree(before, rs[1..]); }
  }

  lemma DiffSoaFree(a: Zone, b: Zone)
    ensures SoaFree(Diff(a, b))
  {
    hide NewEntries, OldEntries, NonSoa, IsSoa;
    NonSoaIsNonSoa(a.records);
    NonSoaIsNonSoa(b.records);
    NewEntriesSoaFree(NonSoa(a.records), NonSoa(b.records));
    NewEntriesSoaFree(NonSoa(b.records), NonSoa(a.records));
  }

  // ---- Applying with unique identities -------------------------------------

  /** Additions are of new identities; TTL changes are of present ones. */
  predicate Fits(m: TtlMap, e: DiffEntry) {
    match e
    case Added(rr) => Key(rr) !in m
    case Removed(rr) => true
    case TtlChanged(rr, _, ttl) => Key(rr) in m && ttl == rr.ttl
  }

  predicate AllFit(m: TtlMap, es: seq<DiffEntry>)
    decreases es
  {
    es == [] || (Fits(m, es[0]) && AllFit(Effect(m, es[0]), es[1..]))
  }

  lemma ConsMap(r: ResourceRecord, rs: seq<ResourceRecord>)
    ensures MapOf([r] + rs) == MapOf(rs)[Key(r) := r.ttl]
    ensures Unique([r] + rs) <==> Key(r) !in MapOf(rs) && Unique(rs)
  {
    hide Key, Find;
    MapIs(rs);
    assert ([r] + rs)[1..] == rs;
  }

  lemma NoRecords()
    ensures MapOf([]) == map[] && Unique([])
  {}

  lemma {:induction false} AppendUnique(rs: seq<ResourceRecord>, rr: ResourceRecord)
    requires Unique(rs) && Key(rr) !in MapOf(rs)
    ensures Unique(rs + [rr]) && MapOf(rs + [rr]) == MapOf(rs)[Key(rr) := rr.ttl]
  {
    hide Key, MapOf, Unique;
    if rs == [] {
      assert rs + [rr] == [rr] + [];
      NoRecords();
      ConsMap(rr, []);
    } else {
      var r, tail := rs[0], rs[1..];
      Uncons(rs);
      ConsMap(r, tail);
      assert rs + [rr] == [r] + (tail + [rr]);
      ConsMap(r, tail + [rr]);
      AppendUnique(tail, rr);
    }
  }

  lemma {:induction false} RemoveUnique(rs: seq<ResourceRecord>, k: Identity)
    requires Unique(rs)
    ensures Unique(RemoveFirst(rs, k)) && MapOf(RemoveFirst(rs, k)) == MapOf(rs) - {k}
  {
    hide Key, MapOf, Unique, RemoveFirst, SetFirst;
    NoRecords();
    if rs == [] {
      NothingChanges(k, 0);
    } else {
      var r, tail := rs[0], rs[1..];
      Uncons(rs);
      ConsMap(r, tail);
      ConsApply(r, tail, k, 0);
      RemoveUnique(tail, k);
      ConsMap(r, RemoveFirst(tail, k));
    }
  }

  lemma {:induction false} SetUnique(rs: seq<ResourceRecord>, k: Identity, ttl: Ttl)
    requires Unique(rs) && k in MapOf(rs)
    ensures Unique(SetFirst(rs, k, ttl)) && MapOf(SetFirst(rs, k, ttl)) == MapOf(rs)[k := ttl]
  {
    hide Key, MapOf, Unique, RemoveFirst, SetFirst;
    NoRecords();
    if rs != [] {
      var r, tail := rs[0], rs[1..];
      Uncons(rs);
      ConsMap(r, tail);
      ConsApply(r, tail, k, ttl);
      KeyIgnoresTtl(r, ttl);
      ConsMap(r.(ttl := ttl), tail);
      if Key(r) != k {
        SetUnique(tail, k, ttl);
        ConsMap(r, SetFirst(tail, k, ttl));
      }
    }
  }

  /** Applying entries that fit changes the zone's map as the entries say, and repeats no identity. */
  lemma {:induction false} ApplyIsEffects(rs: seq<ResourceRecord>, es: seq<DiffEntry>)
    requires Unique(rs) && AllFit(MapOf(rs), es)
    ensures Unique(ApplyAll(rs, es)) && MapOf(ApplyAll(rs, es)) == Effects(MapOf(rs), es)
    decreases es
  {
    hide Key, Unique, MapOf, RemoveFirst, SetFirst, Has;
    if es != [] {
      var m := MapOf(rs);
      match es[0] {
        case Added(rr) => AppendUnique(rs, rr);
        case Removed(rr) => RemoveUnique(rs, Key(rr));
        case TtlChanged(rr, _, ttl) => SetUnique(rs, Key(rr), ttl);
      }
      ApplyIsEffects(ApplyEntry(rs, es[0]), es[1..]);
    }
  }

  lemma {:induction false} AllFitJoin(m: TtlMap, a: seq<DiffEntry>, b: seq<DiffEntry>)
    requires AllFit(m, a) && AllFit(Effects(m, a), b)
    ensures AllFit(m, a + b)
    decreases a
  {
    hide Fits, Effect;
    if a == [] {
      assert a + b == b;
    } else {
      assert (a + b)[1..] == a[1..] + b;
      AllFitJoin(Effect(m, a[0]), a[1..], b);
    }
  }

  lemma {:induction false} NewEntriesFit(m: TtlMap, before: seq<ResourceRecord>, rs: seq<ResourceRecord>)
    requires Unique(rs)
    requires forall k :: Has(rs, k) ==> (k in m <==> Has(before, k)) && (k in m ==> m[k] == Find(before, k).value.ttl)
    ensures AllFit(m, NewEntries(before, rs))
    decreases rs
  {
    hide Key, Effects, EntryFor, Find, Has;
    if rs != [] {
      FirstHas(rs);
      OneEntry(m, before, rs[0]);
      OneFits(m, before, rs[0]);
      NewEntriesFit(m[Key(rs[0]) := rs[0].ttl], before, rs[1..]);
      AllFitJoin(m, EntryFor(before, rs[0]), NewEntries(before, rs[1..]));
    }
  }

  lemma OneFits(m: TtlMap, before: seq<ResourceRecord>, rr: ResourceRecord)
    requires Key(rr) in m <==> Has(before, Key(rr))
    ensures AllFit(m, EntryFor(before, rr))
  {
    hide Key, Effect;
    var es := EntryFor(before, rr);
    if es != [] { assert es[1..] == []; }
  }

  lemma {:induction false} OldEntriesFit(m: TtlMap, rs: seq<ResourceRecord>, latest: seq<ResourceRecord>)
    ensures AllFit(m, OldEntries(rs, latest))
    decreases rs
  {
    hide Key, Find;
    if rs != [] {
      OldEntriesFit(m, rs[1..], latest);
      OldEntriesFit(m - {Key(rs[0])}, rs[1..], latest);
      var tail := OldEntries(rs[1..], latest);
      assert ([Removed(rs[0])] + tail)[1..] == tail && [] + tail == tail;
    }
  }

  // ---- The same records, whatever their order ------------------------------

  function Pairs(rs: seq<ResourceRecord>): multiset<(Identity, Ttl)> {
    if rs == [] then multiset{} else multiset{(Key(rs[0]), rs[0].ttl)} + Pairs(rs[1..])
  }

  lemma {:induction false} PairsOfUnique(rs: seq<ResourceRecord>)
    requires Unique(rs)
    ensures forall p: (Identity, Ttl) :: Pairs(rs)[p] == if p.0 in MapOf(rs) && MapOf(rs)[p.0] == p.1 then 1 else 0
  {
    hide Key, Find;
    if rs != [] {
      PairsOfUnique(rs[1..]);
      MapIs(rs[1..]);
      assert Key(rs[0]) !in MapOf(rs[1..]);
    }
  }

  lemma PairsFromMap(a: seq<ResourceRecord>, b: seq<ResourceRecord>)
    requires Unique(a) && Unique(b) && MapOf(a) == MapOf(b)
    ensures Pairs(a) == Pairs(b)
  {
    hide Unique, MapOf, Pairs;
    PairsOfUnique(a);
    PairsOfUnique(b);
  }

  /** Applying a diff rebuilds the target: when neither zone repeats a non-SOA identity, the result has the
      target's other records with their TTLs, counted, and the old zone's SOA records in order. */
  lemma ApplyRebuilds(a: Zone, b: Zone)
    requires Unique(NonSoa(a.records)) && Unique(NonSoa(b.records))
    ensures var r := ApplyAll(a.records, Diff(a, b));
            Pairs(NonSoa(r)) == Pairs(NonSoa(b.records)) && Soas(r) == Soas(a.records)
  {
    hide Key, Unique, NewEntries, OldEntries, Effects, AllFit, ApplyAll, Find, Has;
    var before, latest := NonSoa(a.records), NonSoa(b.records);
    MapIs(before);
    DiffSoaFree(a, b);
    ApplyBesideSoa(a.records, Diff(a, b));
    NewEntriesFit(MapOf(before), before, latest);
    OldEntriesFit(Effects(MapOf(before), NewEntries(before, latest)), before, latest);
    AllFitJoin(MapOf(before), NewEntries(before, latest), OldEntries(before, latest));
    ApplyIsEffects(before, Diff(a, b));
    DiffEffects(a, b);
    PairsFromMap(ApplyAll(before, Diff(a, b)), latest);
  }

  // ---- Without unique identities -------------------------------------------

  /** How often an identity occurs. */
  function Count(rs: seq<ResourceRecord>, k: Identity): nat {
    if rs == [] then 0 else (if Key(rs[0]) == k then 1 else 0) + Count(rs[1..], k)
  }

  lemma ConsCount(r: ResourceRecord, rs: seq<ResourceRecord>, k: Identity)
    ensures Count([r] + rs, k) == (if Key(r) == k then 1 else 0) + Count(rs, k) && Count([], k) == 0
  {
    hide Key;
    assert ([r] + rs)[1..] == rs;
  }

  lemma {:induction false} CountAppend(rs: seq<ResourceRecord>, rr: ResourceRecord, k: Identity)
    ensures Count(rs + [rr], k) == Count(rs, k) + if Key(rr) == k then 1 else 0
  {
    hide Key, Count;
    if rs == [] {
      assert rs + [rr] == [rr] + [];
      ConsCount(rr, [], k);
    } else {
      Uncons(rs);
      ConsCount(rs[0], rs[1..], k);
      assert rs + [rr] == [rs[0]] + (rs[1..] + [rr]);
      ConsCount(rs[0], rs[1..] + [rr], k);
      CountAppend(rs[1..], rr, k);
    }
  }

  lemma {:induction false} CountChange(rs: seq<ResourceRecord>, q: Identity, ttl: Ttl, k: Identity)
    ensures Count(RemoveFirst(rs, q), k) == if q == k && Count(rs, k) > 0 then Count(rs, k) - 1 else Count(rs, k)
    ensures Count(SetFirst(rs, q, ttl), k) == Count(rs, k)
  {
    hide Key, RemoveFirst, SetFirst, Count;
    if rs == [] {
      NothingChanges(q, ttl);
      NoneCounted(k);
    } else {
      var r, tail := rs[0], rs[1..];
      Uncons(rs);
      ConsApply(r, tail, q, ttl);
      KeyIgnoresTtl(r, ttl);
      CountChange(tail, q, ttl, k);
      ConsCount(r, tail, k);
      ConsCount(r, RemoveFirst(tail, q), k);
      ConsCount(r, SetFirst(tail, q, ttl), k);
      ConsCount(r.(ttl := ttl), tail, k);
    }
  }

  lemma NoneCounted(k: Identity)
    ensures Count([], k) == 0
  {}

  lemma {:induction false} CountIs(rs: seq<ResourceRecord>, k: Identity)
    ensures Count(rs, k) > 0 <==> Has(rs, k)
  {
    hide Key;
    if rs != [] { CountIs(rs[1..], k); }
  }

  lemma ApplyFirst(rs: seq<ResourceRecord>, e: DiffEntry, es: seq<DiffEntry>)
    ensures ApplyAll(rs, [e] + es) == ApplyAll(ApplyEntry(rs, e), es)
  {
    hide ApplyEntry;
    assert ([e] + es)[1..] == es;
  }

  lemma NothingApplied(rs: seq<ResourceRecord>)
    ensures ApplyAll(rs, []) == rs
  {}

  /** One record of the new zone: an addition only if its identity was not there. */
  lemma CountAfterEntry(rs: seq<ResourceRecord>, before: seq<ResourceRecord>, rr: ResourceRecord, k: Identity)
    ensures Count(ApplyAll(rs, EntryFor(before, rr)), k) ==
            Count(rs, k) + if Key(rr) == k && !Has(before, k) then 1 else 0
  {
    hide Key, Find, RemoveFirst, SetFirst, ApplyAll, Count;
    NothingApplied(rs);
    match Find(before, Key(rr)) {
      case None =>
        assert [Added(rr)] + [] == [Added(rr)];
        ApplyFirst(rs, Added(rr), []);
        NothingApplied(rs + [rr]);
        CountAppend(rs, rr, k);
      case Some(o) =>
        var e := TtlChanged(rr, o.ttl, rr.ttl);
        assert [e] + [] == [e];
        ApplyFirst(rs, e, []);
        NothingApplied(SetFirst(rs, Key(rr), rr.ttl));
        CountChange(rs, Key(rr), rr.ttl, k);
    }
  }

  lemma {:induction false} CountAfterNew(rs: seq<ResourceRecord>, before: seq<ResourceRecord>, latest: seq<ResourceRecord>, k: Identity)
    ensures Count(ApplyAll(rs, NewEntries(before, latest)), k) ==
            Count(rs, k) + if Has(before, k) then 0 else Count(latest, k)
    decreases latest
  {
    hide Key, Find, Has, EntryFor, ApplyAll, Count;
    NothingApplied(rs);
    NoneCounted(k);
    if latest != [] {
      var rr, es := latest[0], EntryFor(before, latest[0]);
      Uncons(latest);
      ConsCount(rr, latest[1..], k);
      CountAfterEntry(rs, before, rr, k);
      ApplyJoin(rs, es, NewEntries(before, latest[1..]));
      CountAfterNew(ApplyAll(rs, es), before, latest[1..], k);
    }
  }

  lemma {:induction false} CountAfterOld(rs: seq<ResourceRecord>, before: seq<ResourceRecord>, latest: seq<ResourceRecord>, k: Identity)
    ensures Count(ApplyAll(rs, OldEntries(before, latest)), k) ==
            var gone := if Has(latest, k) then 0 else Count(before, k);
            if Count(rs, k) < gone then 0 else Count(rs, k) - gone
    decreases before
  {
    hide Key, Find, RemoveFirst, ApplyAll, Count;
    NothingApplied(rs);
    NoneCounted(k);
    if before != [] {
      var rr, tail := before[0], OldEntries(before[1..], latest);
      Uncons(before);
      ConsCount(rr, before[1..], k);
      if Find(latest, Key(rr)).None? {
        ApplyFirst(rs, Removed(rr), tail);
        CountChange(rs, Key(rr), 0, k);
        CountAfterOld(RemoveFirst(rs, Key(rr)), before[1..], latest, k);
      } else {
        assert [] + tail == tail;
        CountAfterOld(rs, before[1..], latest, k);
      }
    }
  }

  lemma {:induction false} ApplyJoin(rs: seq<ResourceRecord>, a: seq<DiffEntry>, b: seq<DiffEntry>)
    ensures ApplyAll(rs, a + b) == ApplyAll(ApplyAll(rs, a), b)
    decreases a
  {
    hide ApplyEntry;
    if a == [] {
      assert a + b == b;
    } else {
      assert (a + b)[1..] == a[1..] + b;
      ApplyJoin(ApplyEntry(rs, a[0]), a[1..], b);
    }
  }

  /** Even when identities repeat, the result has exactly the target's identities. */
  lemma ApplyGivesIdentities(a: Zone, b: Zone, k: Identity)
    ensures Has(NonSoa(ApplyAll(a.records, Diff(a, b))), k) <==> Has(NonSoa(b.records), k)
  {
    hide Key, NonSoa, NewEntries, OldEntries, ApplyAll, Count, Find, Has;
    var before, latest := NonSoa(a.records), NonSoa(b.records);
    DiffSoaFree(a, b);
    ApplyBesideSoa(a.records, Diff(a, b));
    var es, fs := NewEntries(before, latest), OldEntries(before, latest);
    ApplyJoin(before, es, fs);
    CountAfterNew(before, before, latest, k);
    CountAfterOld(ApplyAll(before, es), before, latest, k);
    CountIs(before, k);
    CountIs(latest, k);
    CountIs(ApplyAll(before, es + fs), k);
  }
}
