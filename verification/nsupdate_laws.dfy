/** The walk by header counts agrees with every well-formed message, and undoes signing. */
module NsUpdateLaws {
  import opened Bytes
  import opened Domain
  import opened Records
  import opened Update
  import opened Tsig
  import opened TsigLaws
  import opened Builder
  import opened NsUpdate

  // ---- Well-formed messages, with compressed names -------------------------

  type Pointer = n: U16 | n < 0x4000

  /** Up to 191 octets, as the walk passes over length octets below 192 without a further check. */
  type LooseLabel = l: seq<Byte> | 1 <= |l| < 0xC0 witness [0]

  /** A name as servers send it: labels, then the root or a compression pointer. */
  datatype AnyName = AnyName(labels: seq<LooseLabel>, pointer: Option<Pointer>)

  function LabelRun(ls: seq<LooseLabel>): seq<Byte> {
    if ls == [] then [] else [|ls[0]|] + ls[0] + LabelRun(ls[1..])
  }

  function NameEnd(pointer: Option<Pointer>): seq<Byte> {
    match pointer
    case None => [0]
    case Some(p) => Be16(0xC000 + p)
  }

  function NameOctets(n: AnyName): seq<Byte> { LabelRun(n.labels) + NameEnd(n.pointer) }

  datatype Question = Question(name: AnyName, qtype: U16, qclass: U16)

  function QuestionOctets(q: Question): seq<Byte> { NameOctets(q.name) + (Be16(q.qtype) + Be16(q.qclass)) }

  /** A record under any name; `rr` gives everything but the owner. */
  datatype AnyRR = AnyRR(name: AnyName, rr: WireRR)

  function AnyOctets(a: AnyRR): seq<Byte> { NameOctets(a.name) + RRFixed(a.rr) + a.rr.rdata }

  function QuestionsOctets(qs: seq<Question>): seq<Byte> {
    if qs == [] then [] else QuestionOctets(qs[0]) + QuestionsOctets(qs[1..])
  }

  function AnysOctets(rrs: seq<AnyRR>): seq<Byte> {
    if rrs == [] then [] else AnyOctets(rrs[0]) + AnysOctets(rrs[1..])
  }

  predicate AllFits(rrs: seq<AnyRR>) {
    forall i :: 0 <= i < |rrs| ==> rrs[i].rr.Valid()
  }

  /** A message whose header counts match its sections; answers and authority are one list. */
  datatype Message = Message(header: seq<Byte>, questions: seq<Question>, records: seq<AnyRR>, additional: seq<AnyRR>) {
    predicate Valid() {
      && |header| == 12
      && U16At(header, 4) == |questions|
      && U16At(header, 6) as int + U16At(header, 8) as int == |records|
      && Arcount(header) == |additional|
      && AllFits(records) && AllFits(additional)
    }

    function Octets(): seq<Byte> {
      header + (QuestionsOctets(questions) + (AnysOctets(records) + AnysOctets(additional)))
    }
  }

  // ---- One step of the walk ------------------------------------------------

  lemma {:induction false} NameSkipped(pre: seq<Byte>, n: AnyName, post: seq<Byte>)
    ensures SkipName(pre + NameOctets(n) + post, |pre|) == Ok(|pre| + |NameOctets(n)|)
    decreases |n.labels|
  {
    var w := pre + NameOctets(n) + post;
    if n.labels == [] {
      assert NameOctets(n) == NameEnd(n.pointer);
      assert w[|pre|] == NameEnd(n.pointer)[0];
    } else {
      var l, rest := n.labels[0], AnyName(n.labels[1..], n.pointer);
      var pre' := pre + ([|l|] + l);
      assert NameOctets(n) == [|l|] + l + NameOctets(rest);
      assert w == pre' + NameOctets(rest) + post;
      NameSkipped(pre', rest, post);
      assert w[|pre|] == |l|;
    }
  }

  lemma QuestionSkipped(pre: seq<Byte>, q: Question, post: seq<Byte>)
    ensures SkipQuestion(pre + QuestionOctets(q) + post, |pre|) == Ok(|pre| + |QuestionOctets(q)|)
  {
    hide NameOctets, SkipName;
    NameSkipped(pre, q.name, Be16(q.qtype) + Be16(q.qclass) + post);
    assert pre + QuestionOctets(q) + post == pre + NameOctets(q.name) + (Be16(q.qtype) + Be16(q.qclass) + post);
  }

  lemma RRSkipped(pre: seq<Byte>, a: AnyRR, post: seq<Byte>)
    requires a.rr.Valid()
    ensures var w := pre + AnyOctets(a) + post;
            SkipRR(w, |pre|) == Ok(|pre| + |AnyOctets(a)|) && RRType(w, |pre|) == a.rr.rtype
  {
    hide NameOctets, SkipName, RRFixed, ReadBe16, ReadBe32;
    var w := pre + AnyOctets(a) + post;
    var rest := RRFixed(a.rr) + (a.rr.rdata + post);
    assert w == pre + NameOctets(a.name) + rest;
    NameSkipped(pre, a.name, rest);
    var p := |pre| + |NameOctets(a.name)|;
    assert w[p..] == rest && w[p + 8..] == rest[8..];
    FixedReadsBack(a.rr, a.rr.rdata + post);
  }

  // ---- Sections ------------------------------------------------------------

  lemma {:induction false} QuestionsSkipped(pre: seq<Byte>, qs: seq<Question>, post: seq<Byte>)
    ensures SkipQuestions(pre + QuestionsOctets(qs) + post, |pre|, |qs|) == Ok(|pre| + |QuestionsOctets(qs)|)
    decreases |qs|
  {
    hide QuestionOctets, SkipQuestion;
    if qs != [] {
      var rest := QuestionsOctets(qs[1..]);
      var w := pre + QuestionsOctets(qs) + post;
      assert w == pre + QuestionOctets(qs[0]) + (rest + post) == (pre + QuestionOctets(qs[0])) + rest + post;
      QuestionSkipped(pre, qs[0], rest + post);
      QuestionsSkipped(pre + QuestionOctets(qs[0]), qs[1..], post);
    }
  }

  lemma {:induction false} RRsSkipped(pre: seq<Byte>, rrs: seq<AnyRR>, post: seq<Byte>)
    requires AllFits(rrs)
    ensures SkipRRs(pre + AnysOctets(rrs) + post, |pre|, |rrs|) == Ok(|pre| + |AnysOctets(rrs)|)
    decreases |rrs|
  {
    hide AnyOctets, SkipRR, RRType;
    if rrs != [] {
      var rest := AnysOctets(rrs[1..]);
      var w := pre + AnysOctets(rrs) + post;
      assert w == pre + AnyOctets(rrs[0]) + (rest + post) == (pre + AnyOctets(rrs[0])) + rest + post;
      RRSkipped(pre, rrs[0], rest + post);
      RRsSkipped(pre + AnyOctets(rrs[0]), rrs[1..], post);
    }
  }

  /** Where the last record starts, and its type. */
  function LastOf(at: nat, rrs: seq<AnyRR>, last: Last): Last {
    if rrs == [] then last
    else Last(Some(at + |AnysOctets(rrs[..|rrs| - 1])|), rrs[|rrs| - 1].rr.rtype)
  }

  lemma {:induction false} LastFound(pre: seq<Byte>, rrs: seq<AnyRR>, post: seq<Byte>, last: Last)
    requires AllFits(rrs)
    ensures LastRR(pre + AnysOctets(rrs) + post, |pre|, |rrs|, last) == Ok(LastOf(|pre|, rrs, last))
    decreases |rrs|
  {
    hide AnyOctets, SkipRR, RRType;
    if rrs != [] {
      var first, tail := rrs[0], rrs[1..];
      var rest := AnysOctets(tail);
      var w := pre + AnysOctets(rrs) + post;
      assert w == pre + AnyOctets(first) + (rest + post) == (pre + AnyOctets(first)) + rest + post;
      RRSkipped(pre, first, rest + post);
      LastFound(pre + AnyOctets(first), tail, post, Last(Some(|pre|), first.rr.rtype));
      if tail != [] {
        assert rrs[..|rrs| - 1][1..] == tail[..|tail| - 1];
      } else {
        assert rrs[..|rrs| - 1] == [];
      }
    }
  }

  // ---- Whole messages ------------------------------------------------------

  lemma HeaderAt(h: seq<Byte>, rest: seq<Byte>, k: nat)
    requires |h| == 12 && k + 2 <= 12
    ensures U16At(h + rest, k) == U16At(h, k)
  {}

  /** The walk over any well-formed message finds its last additional record if that is a TSIG record, at
      its exact offset, and otherwise finds nothing; trailing bytes do not matter. */
  lemma WalkFindsLast(m: Message, post: seq<Byte>)
    requires m.Valid()
    ensures FindTsig(m.Octets() + post)
            == Ok(var last := LastOf(|m.header + QuestionsOctets(m.questions) + AnysOctets(m.records)|, m.additional, Last(None, 0));
                  if last.rtype == TSIG_TYPE then last.start else None)
  {
    hide QuestionsOctets, AnysOctets, SkipQuestions, SkipRRs, LastRR, ReadBe16;
    var qs, rs, ads := QuestionsOctets(m.questions), AnysOctets(m.records), AnysOctets(m.additional);
    var w := m.Octets() + post;
    var rest := qs + (rs + ads) + post;
    assert w == m.header + rest;
    HeaderAt(m.header, rest, 4);
    HeaderAt(m.header, rest, 6);
    HeaderAt(m.header, rest, 8);
    HeaderAt(m.header, rest, 10);
    assert w == m.header + qs + (rs + ads + post);
    QuestionsSkipped(m.header, m.questions, rs + ads + post);
    assert w == (m.header + qs) + rs + (ads + post);
    RRsSkipped(m.header + qs, m.records, ads + post);
    assert w == (m.header + qs + rs) + ads + post;
    LastFound(m.header + qs + rs, m.additional, post, Last(None, 0));
  }

  function Tsiged(m: Message, tsig: WireRR): Message
    requires m.Valid() && |m.additional| < 0xFFFF
  {
    Message(WithArcount(m.header, Arcount(m.header) + 1), m.questions, m.records,
            m.additional + [AnyRR(AnyName(tsig.owner, None), tsig)])
  }

  lemma {:induction false} RunIsEncode(ls: WireLabels)
    ensures LabelRun(ls) + [0] == EncodeLabels(ls)
  {
    if ls != [] {
      RunIsEncode(ls[1..]);
      assert LabelOctets(ls[0]) + LabelRun(ls[1..]) + [0] == LabelOctets(ls[0]) + (LabelRun(ls[1..]) + [0]);
    }
  }

  lemma PlainOctets(rr: WireRR)
    ensures AnyOctets(AnyRR(AnyName(rr.owner, None), rr)) == RROctets(rr)
  {
    RunIsEncode(rr.owner);
  }

  lemma {:induction false} AnysAppend(a: seq<AnyRR>, b: seq<AnyRR>)
    ensures AnysOctets(a + b) == AnysOctets(a) + AnysOctets(b)
  {
    hide AnyOctets;
    if a == [] {
      assert a + b == b;
    } else {
      AnysAppend(a[1..], b);
      assert (a + b)[1..] == a[1..] + b && (a + b)[0] == a[0];
      var first, x, y := AnyOctets(a[0]), AnysOctets(a[1..]), AnysOctets(b);
      assert AnysOctets(a + b) == first + (x + y) && AnysOctets(a) == first + x;
      hide AnysOctets;
      assert first + (x + y) == first + x + y;
    }
  }

  lemma AnysOne(a: AnyRR)
    ensures AnysOctets([a]) == AnyOctets(a)
  {
    hide AnyOctets;
    assert AnysOctets([a]) == AnyOctets(a) + AnysOctets([]);
  }

  lemma HeaderCounted(h: seq<Byte>, rest: seq<Byte>, count: U16)
    requires |h| == 12
    ensures WithArcount(h + rest, count) == WithArcount(h, count) + rest
    ensures |WithArcount(h, count)| == 12 && Arcount(WithArcount(h, count)) == count
    ensures forall k :: 0 <= k <= 8 ==> U16At(WithArcount(h, count), k) == U16At(h, k)
  {
    Be16Reads(count, []);
    var v := WithArcount(h, count);
    assert v == h[..10] + Be16(count) && v[10..] == Be16(count) + [];
  }

  lemma AddedLast(m: Message, tsig: WireRR)
    requires tsig.Valid()
    ensures AnysOctets(m.additional + [AnyRR(AnyName(tsig.owner, None), tsig)]) == AnysOctets(m.additional) + RROctets(tsig)
  {
    var added := AnyRR(AnyName(tsig.owner, None), tsig);
    PlainOctets(tsig);
    AnysAppend(m.additional, [added]);
    AnysOne(added);
  }

  lemma TsigedValid(m: Message, tsig: WireRR)
    requires m.Valid() && |m.additional| < 0xFFFF && tsig.Valid()
    ensures Tsiged(m, tsig).Valid()
  {
    HeaderCounted(m.header, [], Arcount(m.header) + 1);
    hide WithArcount, ReadBe16, Be16, WireRR.Valid;
  }

  lemma TsigedOctets(m: Message, tsig: WireRR)
    requires m.Valid() && |m.additional| < 0xFFFF && tsig.Valid()
    ensures Tsiged(m, tsig).Valid() && |m.Octets()| >= 12 && Arcount(m.Octets()) == Arcount(m.header)
    ensures Tsiged(m, tsig).Octets() == Appended(m.Octets(), RROctets(tsig))
  {
    TsigedValid(m, tsig);
    AddedLast(m, tsig);
    var qs, rs, ads := QuestionsOctets(m.questions), AnysOctets(m.records), AnysOctets(m.additional);
    var rest := qs + (rs + ads);
    var count := Arcount(m.header) + 1;
    HeaderAt(m.header, rest, 10);
    HeaderCounted(m.header, rest, count);
    hide QuestionsOctets, AnysOctets, RROctets, ReadBe16, Be16, WithArcount, WireRR.Valid, Message.Valid;
    LastPart(WithArcount(m.header, count), qs, rs, ads, RROctets(tsig));
  }

  lemma LastPart(h: seq<Byte>, qs: seq<Byte>, rs: seq<Byte>, ads: seq<Byte>, more: seq<Byte>)
    ensures h + (qs + (rs + (ads + more))) == h + (qs + (rs + ads)) + more
  {
    assert rs + (ads + more) == rs + ads + more;
    assert qs + (rs + ads + more) == qs + (rs + ads) + more;
  }

  lemma AppendedIsFound(m: Message, tsig: WireRR)
    requires m.Valid() && |m.additional| < 0xFFFF && tsig.Valid() && tsig.rtype == TSIG_TYPE
    ensures FindTsig(Tsiged(m, tsig).Octets()) == Ok(Some(|m.Octets()|))
  {
    hide QuestionsOctets, AnysOctets, FindTsig, ReadBe16, Be16, AnyOctets, RROctets;
    TsigedOctets(m, tsig);
    var t := Tsiged(m, tsig);
    WalkFindsLast(t, []);
    assert t.Octets() + [] == t.Octets();
    assert t.additional[..|t.additional| - 1] == m.additional;
  }

  lemma AppendedIsStripped(o: seq<Byte>, record: seq<Byte>)
    requires |o| >= 12 && Arcount(o) < 0xFFFF
    ensures var w := Appended(o, record);
            |o| <= |w| && Strip(w, |o|) == o && w[|o|..] == record
  {
    var h, rest, n := o[..12], o[12..], Arcount(o) + 1;
    hide ReadBe16, Be16;
    assert o == h + rest && o[10..] == h[10..] + rest;
    HeaderAt(h, rest, 10);
    HeaderCounted(h, rest, n);
    HeaderCounted(WithArcount(h, n), rest, n - 1);
    HeaderAt(WithArcount(h, n), rest, 10);
    RestoreCount(h, n);
    assert Appended(o, record) == WithArcount(h, n) + rest + record;
    assert Appended(o, record)[..|o|] == WithArcount(h, n) + rest;
  }

  /** Appending a TSIG record and counting it: the walk finds it exactly where the message used to end,
      and cutting there gives the message back byte for byte. */
  lemma AppendedIsFoundAndStripped(m: Message, tsig: WireRR)
    requires m.Valid() && |m.additional| < 0xFFFF && tsig.Valid() && tsig.rtype == TSIG_TYPE
    ensures |m.Octets()| >= 12 && Arcount(m.Octets()) < 0xFFFF
    ensures var w := Appended(m.Octets(), RROctets(tsig));
            |m.Octets()| <= |w| && FindTsig(w) == Ok(Some(|m.Octets()|)) && Strip(w, |m.Octets()|) == m.Octets()
            && w[|m.Octets()|..] == RROctets(tsig)
  {
    TsigedOctets(m, tsig);
    AppendedIsFound(m, tsig);
    AppendedIsStripped(m.Octets(), RROctets(tsig));
  }

  lemma RestoreCount(h: seq<Byte>, n: U16)
    requires |h| == 12 && n == Arcount(h) + 1
    ensures WithArcount(WithArcount(h, n), n - 1) == h
  {
    Be16Reads(n, []);
    assert WithArcount(h, n)[..10] == h[..10];
    var b := Be16(n - 1);
    assert b[0] == h[10] && b[1] == h[11];
    assert h == h[..10] + [h[10], h[11]];
  }

  // ---- Updates -------------------------------------------------------------

  function Named(rrs: seq<WireRR>): seq<AnyRR> {
    seq(|rrs|, i requires 0 <= i < |rrs| => AnyRR(AnyName(rrs[i].owner, None), rrs[i]))
  }

  lemma {:induction false} NamedOctets(rrs: seq<WireRR>)
    ensures AnysOctets(Named(rrs)) == RRsOctets(rrs)
  {
    hide AnyOctets, RROctets;
    if rrs != [] {
      PlainOctets(rrs[0]);
      assert Named(rrs)[1..] == Named(rrs[1..]);
      NamedOctets(rrs[1..]);
    }
  }

  /** An encoded update, seen as a DNS message: the zone entry stands in the question section. */
  function AsMessage(q: Request): Message {
    Message(CountedHeader(q.id, |q.Pre()|, |q.updates|, 0),
            [Question(AnyName(Contents(q.zone), None), TYPE_SOA, q.class_)], Named(q.Pre() + q.Upd()), [])
  }

  lemma UpdateIsMessage(q: Request)
    requires q.Countable()
    ensures AsMessage(q).Valid() && AsMessage(q).Octets() == MessageOctets(q)
  {
    UpdateMessageValid(q);
    NamedOctets(q.Pre() + q.Upd());
    RRsOctetsAppend(q.Pre(), q.Upd());
    ZoneAsQuestion(q.zone, q.class_);
    assert AnysOctets([]) == [];
    hide RRsOctets, AnysOctets, QuestionsOctets, ZoneSection, Contents, CountedHeader, Request.Pre, Request.Upd, Named;
    FiveParts(CountedHeader(q.id, |q.Pre()|, |q.updates|, 0), ZoneSection(q.zone, q.class_), RRsOctets(q.Pre()),
              RRsOctets(q.Upd()));
  }

  lemma FiveParts(a: seq<Byte>, b: seq<Byte>, c: seq<Byte>, d: seq<Byte>)
    ensures a + (b + ((c + d) + [])) == a + b + c + d
  {}

  lemma NamedFits(a: seq<WireRR>, b: seq<WireRR>)
    requires AllValid(a) && AllValid(b)
    ensures AllFits(Named(a + b))
  {
    forall i | 0 <= i < |a + b| ensures (a + b)[i].Valid() {
      if i < |a| { assert a[i] in a; } else { assert b[i - |a|] in b; }
    }
  }

  lemma UpdateMessageValid(q: Request)
    requires q.Countable()
    ensures AsMessage(q).Valid()
  {
    hide Contents, AllPrerequisiteRRs, EntryRR, CountedHeader, U16At, Arcount, PrerequisiteFits, EntryFits, AllValid, AllFits;
    FittingRRsValid(q.prerequisites, q.class_);
    EntriesValid(q.updates);
    NamedFits(q.Pre(), q.Upd());
    HeaderCounts(q.id, |q.Pre()|, |q.updates|);
    NothingFits();
  }

  lemma NothingFits()
    ensures AllFits([])
  {}

  lemma HeaderCounts(id: U16, pre: U16, upd: U16)
    ensures var h := CountedHeader(id, pre, upd, 0);
            |h| == 12 && U16At(h, 4) == 1 && U16At(h, 6) == pre && U16At(h, 8) == upd && Arcount(h) == 0
  {
    var h := Header(id, pre, upd, 0);
    assert h + [] == h;
    hide Header, ReadBe16;
    HeaderReadsBack(id, pre, upd, 0, []);
  }

  lemma ZoneAsQuestion(zone: DomainName, class_: U16)
    ensures QuestionsOctets([Question(AnyName(Contents(zone), None), TYPE_SOA, class_)]) == ZoneSection(zone, class_)
  {
    hide Be16, Contents, LabelRun, EncodeLabels;
    RunIsEncode(Contents(zone));
  }

  /** Signing an update and walking the signed bytes: the TSIG record is found at the length the message
      had before signing, cutting there gives the unsigned message back, and what follows is the record. */
  lemma SignedUpdateStrips(q: Request, key: TsigKey, time: U48)
    requires q.Countable() && key.Valid()
    ensures var u := MessageOctets(q);
            var w := SignedBytes(q, key, time);
            FindTsig(w) == Ok(Some(|u|)) && |u| <= |w| && Strip(w, |u|) == u
            && w[|u|..] == Built(key, u, time, None).wire
  {
    UpdateIsMessage(q);
    FreshMessage(q);
    var u := MessageOctets(q);
    BuiltIsRaw(key, u, time, None);
    var rr := TsigRR(key.name, BuiltRdata(key, u, time, None));
    AppendedIsFoundAndStripped(AsMessage(q), rr);
  }

  /** The walk finds no TSIG record in an unsigned update. */
  lemma UnsignedHasNoTsig(q: Request)
    ensures FindTsig(MessageOctets(q)) == Ok(None)
  {
    FreshMessage(q);
  }

  // ---- Responses -----------------------------------------------------------

  /** The whole path on any response, whoever signed it: find, parse, strip, rebuild the MAC input. It is accepted exactly
      when the record reports no error, its owner reads as the key's name and its fields are right for that message. */
  lemma ResponseAcceptedIff(m: Message, r: RawTsig, key: TsigKey, requestMac: seq<Byte>, now: U64)
    requires m.Valid() && |m.additional| < 0xFFFF && r.Fits()
    ensures |m.Octets()| >= 12 && Arcount(m.Octets()) < 0xFFFF
    ensures Check(key, requestMac, Appended(m.Octets(), r.Octets()), now).Ok?
            <==> r.error == 0 && ReadsAs(r.owner, key.name) && RightFields(key, r, m.Octets(), requestMac, now)
  {
    AppendedIsFoundAndStripped(m, r.RR());
    hide FindTsig, Strip, ParseTsig, Verifies, ReadsAs, RightFields, r.Rdata, RROctets;
    AcceptsIff(key, r, m.Octets(), requestMac, now);
    RawParses(r);
  }

  /** Why it is refused: an unreadable record, then an error the record reports, then anything else that is wrong. */
  lemma ResponseRefusedAs(m: Message, r: RawTsig, key: TsigKey, requestMac: seq<Byte>, now: U64)
    requires m.Valid() && |m.additional| < 0xFFFF && r.Fits()
    ensures |m.Octets()| >= 12 && Arcount(m.Octets()) < 0xFFFF
    ensures var outcome := Check(key, requestMac, Appended(m.Octets(), r.Octets()), now);
            && (outcome == Err(BadTsig) <==> r.Read().Err?)
            && (outcome == Err(Rejected(r.error)) <==> r.Read().Ok? && r.error != 0)
            && ((outcome.Ok? || outcome == Err(VerificationFailed)) <==> r.Read().Ok? && r.error == 0)
  {
    AppendedIsFoundAndStripped(m, r.RR());
    hide FindTsig, Strip, Appended, RROctets, ParseTsig, Judge;
    RawParses(r);
    JudgedAs(r, m.Octets(), key, requestMac, now);
  }

  lemma JudgedAs(r: RawTsig, o: seq<Byte>, key: TsigKey, requestMac: seq<Byte>, now: U64)
    ensures var outcome := Judge(key, requestMac, o, r.Read(), now);
            && (outcome == Err(BadTsig) <==> r.Read().Err?)
            && (outcome == Err(Rejected(r.error)) <==> r.Read().Ok? && r.error != 0)
            && ((outcome.Ok? || outcome == Err(VerificationFailed)) <==> r.Read().Ok? && r.error == 0)
  {
    ReadKeepsFields(r);
    hide Verifies, r.Read;
  }

  /** A message without a TSIG record in its last additional place is refused for that, whatever it says. */
  lemma UnsignedRefused(m: Message, post: seq<Byte>, key: TsigKey, requestMac: seq<Byte>, now: U64)
    requires m.Valid()
    requires m.additional == [] || m.additional[|m.additional| - 1].rr.rtype != TSIG_TYPE
    ensures Check(key, requestMac, m.Octets() + post, now) == Err(NoTsig)
  {
    WalkFindsLast(m, post);
    hide FindTsig, m.Octets;
  }

  /** Whatever bytes were received, they are accepted only if they are some message with one TSIG record appended and
      counted, which reports no error, has an owner that reads as the key's name, and right fields for that message. */
  lemma AcceptedIsSigned(w: seq<Byte>, key: TsigKey, requestMac: seq<Byte>, now: U64) returns (o: seq<Byte>, r: RawTsig)
    requires Check(key, requestMac, w, now).Ok?
    ensures |o| >= 12 && Arcount(o) < 0xFFFF && r.Fits() && w == Appended(o, r.Octets())
    ensures r.error == 0 && ReadsAs(r.owner, key.name) && RightFields(key, r, o, requestMac, now)
  {
    hide ReadsAs, RightFields, ParseTsig, r.Octets, r.Fits, r.Read, ReadBe16, Be16, SkipQuestions, SkipRRs, LastRR;
    var offset := FindTsig(w).value.value;
    o := Strip(w, offset);
    StripUndone(w, offset);
    r := ParsedIsRaw(w[offset..]);
    AcceptsIff(key, r, o, requestMac, now);
    ReadKeepsFields(r);
  }

  lemma ReadKeepsFields(r: RawTsig)
    ensures r.Read().Ok? ==> r.Read().value.error == r.error
  {
    hide r.Octets, ParseName, NameText, AlgorithmFromText;
  }

  /** Appending what was cut off gives the bytes back. */
  lemma StripUndone(w: seq<Byte>, offset: nat)
    requires offset <= |w| && |Strip(w, offset)| >= 12 && Arcount(w) > 0
    ensures Arcount(Strip(w, offset)) == Arcount(w) - 1 && w == Appended(Strip(w, offset), w[offset..])
  {
    var m, tail := w[..offset], w[offset..];
    var h, rest := m[..12], m[12..];
    assert m == h + rest && w == h + (rest + tail) == h + rest + tail;
    hide ReadBe16, Be16, WithArcount;
    HeaderAt(h, rest + tail, 10);
    CountedDown(h, rest);
  }

  lemma CountedDown(h: seq<Byte>, rest: seq<Byte>)
    requires |h| == 12 && Arcount(h) > 0
    ensures Arcount(h + rest) == Arcount(h)
    ensures var s := WithArcount(h + rest, Arcount(h) - 1);
            |s| >= 12 && Arcount(s) == Arcount(h) - 1 && WithArcount(s, Arcount(h)) == h + rest
  {
    var n: U16 := Arcount(h) - 1;
    HeaderCounted(h, rest, n);
    HeaderAt(h, rest, 10);
    RestoreUp(h, n);
    hide ReadBe16, Be16, WithArcount;
    HeaderAt(WithArcount(h, n), rest, 10);
    HeaderCounted(WithArcount(h, n), rest, n + 1);
  }

  lemma RestoreUp(h: seq<Byte>, n: U16)
    requires |h| == 12 && n + 1 == Arcount(h)
    ensures WithArcount(WithArcount(h, n), n + 1) == h
  {
    Be16Reads(n, []);
    assert WithArcount(h, n)[..10] == h[..10];
    var b := Be16(n + 1);
    assert b[0] == h[10] && b[1] == h[11];
    assert h == h[..10] + [h[10], h[11]];
  }

  /** What a server holding `key` returns for a response `m` to a request whose MAC was `requestMac`. */
  function SignedResponse(m: Message, key: TsigKey, time: U48, requestMac: seq<Byte>): seq<Byte>
    requires m.Valid() && |m.Octets()| >= 12 && Arcount(m.Octets()) < 0xFFFF
  {
    Appended(m.Octets(), Built(key, m.Octets(), time, Some(requestMac)).wire)
  }

  /** The whole path: find, parse, strip, rebuild the MAC input. A signed response is accepted exactly
      when the clock is inside the fudge window, if the key name is plain, and never otherwise. */
  lemma SignedResponseAccepted(m: Message, key: TsigKey, time: U48, requestMac: seq<Byte>, now: U64)
    requires m.Valid() && |m.additional| < 0xFFFF && key.Valid()
    ensures |m.Octets()| >= 12 && Arcount(m.Octets()) < 0xFFFF
    ensures Check(key, requestMac, SignedResponse(m, key, time, requestMac), now).Ok?
            <==> PlainName(key.name) && -300 <= now - time <= 300
  {
    var o := m.Octets();
    var r := BuiltRaw(key, o, time, Some(requestMac));
    BuiltIsRaw(key, o, time, Some(requestMac));
    SignedResponseVerifies(key, o, time, requestMac, now);
    hide ParseTsig, Verifies, ReadsAs, RightFields, PlainName, RROctets, r.Rdata, BuiltRdata, Canonical, Check, Appended, MacFor,
      r.Fits;
    ResponseAcceptedIff(m, r, key, requestMac, now);
    AcceptsIff(key, r, o, requestMac, now);
  }
}
