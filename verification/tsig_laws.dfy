/** Building, parsing and verifying a TSIG record agree. */
module TsigLaws {
  import opened Bytes
  import opened Domain
  import opened Records
  import opened Update
  import opened Utf8
  import opened Tsig

  // ---- Names ---------------------------------------------------------------

  predicate AllUtf8(ls: WireLabels) {
    forall i :: 0 <= i < |ls| ==> ValidUtf8(ls[i])
  }

  /** What reading labels that end at `end` gives. */
  function ReadOutcome(ls: WireLabels, end: nat): Result<NameAt, TsigError> {
    if AllUtf8(ls) then Ok(NameAt(ls, end)) else Err(TsigError)
  }

  /** Reading an encoded name gives its labels, or fails when a label is not UTF-8. */
  lemma {:induction false} LabelsReadAt(w: seq<Byte>, pos: nat, ls: WireLabels)
    requires pos + |EncodeLabels(ls)| <= |w| && w[pos..pos + |EncodeLabels(ls)|] == EncodeLabels(ls)
    ensures ReadLabels(w, pos) == ReadOutcome(ls, pos + |EncodeLabels(ls)|)
    decreases |ls|
  {
    hide ReadLabels, EncodeLabels, AllUtf8, ValidUtf8;
    if ls == [] {
      RootReads(w, pos);
    } else {
      LabelStep(w, pos, ls);
      ReadStep(w, pos, ls[0]);
      AllUtf8Splits(ls);
      LabelsReadAt(w, pos + 1 + |ls[0]|, ls[1..]);
    }
  }

  lemma RootReads(w: seq<Byte>, pos: nat)
    requires pos + |EncodeLabels([])| <= |w| && w[pos..pos + |EncodeLabels([])|] == EncodeLabels([])
    ensures ReadLabels(w, pos) == ReadOutcome([], pos + |EncodeLabels([])|)
  {
    assert w[pos] == w[pos..pos + 1][0] == 0;
  }

  /** The first label of an encoded name, and the name after it. */
  lemma LabelStep(w: seq<Byte>, pos: nat, ls: WireLabels)
    requires pos + |EncodeLabels(ls)| <= |w| && w[pos..pos + |EncodeLabels(ls)|] == EncodeLabels(ls)
    requires ls != []
    ensures var next, end := pos + 1 + |ls[0]|, pos + |EncodeLabels(ls)|;
            && next <= end && end - next == |EncodeLabels(ls[1..])|
            && w[pos] == |ls[0]| && w[pos + 1..next] == ls[0] && w[next..end] == EncodeLabels(ls[1..])
  {
    var n, s := |ls[0]|, EncodeLabels(ls);
    assert s == [n] + ls[0] + EncodeLabels(ls[1..]);
    hide EncodeLabels;
    Within(w, pos, s, 0, 1);
    Within(w, pos, s, 1, 1 + n);
    Within(w, pos, s, 1 + n, |s|);
    assert w[pos] == w[pos..pos + 1][0] == s[0..1][0];
  }

  lemma Within(w: seq<Byte>, pos: nat, s: seq<Byte>, i: nat, j: nat)
    requires pos + |s| <= |w| && w[pos..pos + |s|] == s && i <= j <= |s|
    ensures w[pos + i..pos + j] == s[i..j]
  {
    forall k | 0 <= k < j - i ensures w[pos + i..pos + j][k] == s[i..j][k] {
      assert w[pos..pos + |s|][i + k] == w[pos + i + k];
    }
  }

  /** Reading past one label. */
  lemma ReadStep(w: seq<Byte>, pos: nat, l: LabelBytes)
    requires pos + 1 + |l| <= |w| && w[pos] == |l| && w[pos + 1..pos + 1 + |l|] == l
    ensures ReadLabels(w, pos) == if ValidUtf8(l) then Before([l], ReadLabels(w, pos + 1 + |l|)) else Err(TsigError)
  {
    hide ValidUtf8;
  }

  lemma AllUtf8Splits(ls: WireLabels)
    requires ls != []
    ensures [ls[0]] + ls[1..] == ls && (AllUtf8(ls) <==> ValidUtf8(ls[0]) && AllUtf8(ls[1..]))
  {
    hide ValidUtf8;
    forall i | 1 <= i < |ls| ensures ls[i] == ls[1..][i - 1] {}
  }

  lemma LabelsReadBack(pre: seq<Byte>, ls: WireLabels, post: seq<Byte>)
    ensures ReadLabels(pre + EncodeLabels(ls) + post, |pre|) == ReadOutcome(ls, |pre| + |EncodeLabels(ls)|)
  {
    hide ReadLabels, EncodeLabels, ReadOutcome;
    var w := pre + EncodeLabels(ls) + post;
    assert w[|pre|..|pre| + |EncodeLabels(ls)|] == EncodeLabels(ls);
    LabelsReadAt(w, |pre|, ls);
  }

  lemma PlainIsUtf8(ls: WireLabels)
    requires PlainLabels(ls)
    ensures AllUtf8(ls)
  {
    forall i | 0 <= i < |ls| ensures ValidUtf8(ls[i]) {
      forall j | 0 <= j < |ls[i]| ensures ls[i][j] < 0x80 {
        assert ls[i][j] in ls[i];
      }
      AsciiIsUtf8(ls[i]);
    }
  }

  function SelfLabels(ls: WireLabels): seq<Label> {
    seq(|ls|, i requires 0 <= i < |ls| => Label(ls[i], ls[i]))
  }

  lemma {:induction false} SelfLabelsDotted(ls: WireLabels)
    ensures Dotted(SelfLabels(ls)) == DottedBytes(ls) && LabelsLen(SelfLabels(ls)) + 1 == |EncodeLabels(ls)|
  {
    if ls != [] {
      assert SelfLabels(ls)[1..] == SelfLabels(ls[1..]);
      SelfLabelsDotted(ls[1..]);
    }
  }

  /** Plain label contents, joined by dots, parse back to themselves. */
  lemma PlainNameParses(ls: WireLabels)
    requires PlainLabels(ls) && |EncodeLabels(ls)| <= 255
    ensures ParseName(NameText(ls)) == Ok(NameRep(SelfLabels(ls)))
  {
    forall i | 0 <= i < |ls| ensures SelfLabels(ls)[i].Valid() { PlainDecodes(ls[i]); }
    SelfLabelsDotted(ls);
    DisplayRoundTrip(NameRep(SelfLabels(ls)));
  }

  /** The labels of a name as some sender writes them: upper and lower case may differ. */
  predicate Spells(ls: WireLabels, n: DomainName) {
    |ls| == |n.labels| && forall i :: 0 <= i < |ls| ==> LowerAll(ls[i]) == LowerAll(n.labels[i].wire)
  }

  lemma SpellsCanonical(ls: WireLabels, n: DomainName)
    ensures Spells(ls, n) <==> |ls| == |Canonical(n)| && forall i :: 0 <= i < |ls| ==> LowerAll(ls[i]) == Canonical(n)[i]
  {
    forall i | 0 <= i < |n.labels| ensures Canonical(n)[i] == LowerAll(n.labels[i].wire) { CanonicalAt(n, i); }
  }

  lemma CanonicalSpells(n: DomainName)
    ensures Spells(Canonical(n), n)
  {
    forall i | 0 <= i < |n.labels| ensures LowerAll(Canonical(n)[i]) == LowerAll(n.labels[i].wire) {
      CanonicalAt(n, i);
      LowerTwice(n.labels[i].wire);
    }
  }

  lemma LowerTwice(s: seq<Byte>)
    ensures LowerAll(LowerAll(s)) == LowerAll(s)
  {}

  /** Names with the same spelling are the same name. */
  lemma SameSpelling(ls: WireLabels, m: DomainName, n: DomainName)
    requires Spells(ls, m)
    ensures SameName(m, n) <==> Spells(ls, n)
  {
    SpellsCanonical(ls, m);
    SpellsCanonical(ls, n);
    SameNameCanonical(m, n);
    hide Canonical, LowerAll;
    if Spells(ls, n) {
      assert Canonical(m) == Canonical(n);
    }
  }

  lemma LowerKeepsPlain(s: seq<Byte>)
    ensures Plain(LowerAll(s)) <==> Plain(s)
  {
    forall i | 0 <= i < |s|
      ensures IsGraphic(s[i]) && s[i] != DOT && s[i] != BACKSLASH
              <==> IsGraphic(LowerAll(s)[i]) && LowerAll(s)[i] != DOT && LowerAll(s)[i] != BACKSLASH
    {}
    if Plain(s) {
      forall b | b in LowerAll(s) ensures IsGraphic(b) && b != DOT && b != BACKSLASH {
        var i :| 0 <= i < |s| && LowerAll(s)[i] == b;
        assert s[i] in s;
      }
    }
    if Plain(LowerAll(s)) {
      forall b | b in s ensures IsGraphic(b) && b != DOT && b != BACKSLASH {
        var i :| 0 <= i < |s| && s[i] == b;
        assert LowerAll(s)[i] in LowerAll(s);
      }
    }
  }

  lemma SpellingKeepsPlain(ls: WireLabels, n: DomainName)
    requires Spells(ls, n)
    ensures PlainLabels(ls) <==> PlainName(n)
  {
    forall i | 0 <= i < |ls| ensures Plain(ls[i]) <==> Plain(Contents(n)[i]) {
      LowerKeepsPlain(ls[i]);
      LowerKeepsPlain(n.labels[i].wire);
    }
  }

  /** Are these labels, read from the wire into text and parsed, the name `n`? */
  predicate ReadsAs(ls: WireLabels, n: DomainName) {
    AllUtf8(ls) && ParseName(NameText(ls)).Ok? && SameName(ParseName(NameText(ls)).value, n)
  }

  lemma PlainReadsAs(ls: WireLabels, n: DomainName)
    requires Spells(ls, n) && PlainName(n)
    ensures ReadsAs(ls, n)
  {
    SpellingKeepsPlain(ls, n);
    PlainIsUtf8(ls);
    forall i | 0 <= i < |ls| ensures |n.labels[i].wire| == |ls[i]| { assert |LowerAll(n.labels[i].wire)| == |LowerAll(ls[i])|; }
    SameLengths(n.labels, ls);
    PlainNameParses(ls);
    SameSpelling(ls, NameRep(SelfLabels(ls)), n);
  }

  // ---- Exactly which names survive -----------------------------------------

  /** Total length of labels, each with its dot. */
  function TextLen(parts: seq<Text>): nat {
    if parts == [] then 0 else |parts[0]| + 1 + TextLen(parts[1..])
  }

  lemma {:induction false} SplitLength(part: Text, s: Text)
    requires SplitFrom(part, s).Ok?
    ensures var sp := SplitFrom(part, s).value;
            TextLen(sp.labels) == |part| + |s| + (if sp.absolute then 0 else 1)
    decreases |s|
  {
    if s == [] {
      assert TextLen([part]) == |part| + 1 + TextLen([]);
    } else if s[0] == DOT {
      SplitLength([], s[1..]);
      var rest := SplitFrom([], s[1..]).value.labels;
      assert ([part] + rest)[1..] == rest;
    } else {
      var n := if s[0] != BACKSLASH then 1 else if DecimalEscape(s) then 4 else 2;
      SplitLength(part + s[..n], s[n..]);
    }
  }

  predicate Ends(s: seq<Byte>, b: Byte) {
    s != [] && s[|s| - 1] == b
  }

  /** Decoding never lengthens; it keeps the length only when there is no escape, and then changes nothing. */
  lemma {:induction false} DecodeShortens(s: Text)
    requires Decode(s).Ok?
    ensures |Decode(s).value| <= |s|
    ensures |Decode(s).value| == |s| ==> Plain(s) && Decode(s).value == s
    ensures Ends(s, DOT) ==> Ends(Decode(s).value, DOT)
  {
    if s != [] {
      var n := if s[0] != BACKSLASH then 1 else if DecimalEscape(s) then 4 else 2;
      DecodeShortens(s[n..]);
      if |Decode(s).value| == |s| {
        assert s == [s[0]] + s[1..];
      }
    }
  }

  /** A text whose final dot is escaped ends in backslash and dot, and so does its last label. */
  lemma {:induction false} EscapedEnd(part: Text, s: Text)
    requires SplitFrom(part, s).Ok? && !SplitFrom(part, s).value.absolute
    requires Ends(s, DOT)
    ensures var ls := SplitFrom(part, s).value.labels;
            |s| >= 2 && s[|s| - 2] == BACKSLASH && ls != [] && Ends(ls[|ls| - 1], DOT)
    decreases |s|
  {
    hide SplitFrom;
    SplitStep(part, s);
    if s[0] == DOT {
      SplitEnd([]);
      if s[1..] != [] { EscapedEnd([], s[1..]); }
    } else {
      var n := if s[0] != BACKSLASH then 1 else if DecimalEscape(s) then 4 else 2;
      if s[n..] == [] {
        SplitEnd(part + s[..n]);
        assert s == s[..n] && (part + s)[|part + s| - 1] == s[|s| - 1];
      } else {
        EscapedEnd(part + s[..n], s[n..]);
      }
    }
  }

  lemma SplitStep(part: Text, s: Text)
    requires s != [] && SplitFrom(part, s).Ok?
    ensures s[0] == DOT ==> SplitFrom(part, s) == After([part], SplitFrom([], s[1..]))
    ensures s[0] != DOT ==> var n := if s[0] != BACKSLASH then 1 else if DecimalEscape(s) then 4 else 2;
                            n <= |s| && SplitFrom(part, s) == SplitFrom(part + s[..n], s[n..])
  {}

  lemma SplitEnd(part: Text)
    ensures SplitFrom(part, []) == Ok(Split(if part == [] then [] else [part], part == []))
  {}

  lemma {:induction false} DecodedLength(parts: seq<Text>)
    requires NewLabels(parts).Ok?
    ensures var ls := NewLabels(parts).value;
            |ls| == |parts| && LabelsLen(ls) <= TextLen(parts)
            && (forall i :: 0 <= i < |ls| ==> ls[i].text == parts[i] && Decode(parts[i]) == Ok(ls[i].wire))
            && (LabelsLen(ls) == TextLen(parts) ==> forall i :: 0 <= i < |ls| ==> ls[i].wire == parts[i] && Plain(parts[i]))
  {
    if parts != [] {
      DecodedLength(parts[1..]);
      DecodeShortens(parts[0]);
      var ls := NewLabels(parts).value;
      assert ls[1..] == NewLabels(parts[1..]).value;
      forall i | 1 <= i < |ls| ensures ls[i] == ls[1..][i - 1] && parts[i] == parts[1..][i - 1] {}
    }
  }

  lemma {:induction false} DottedLength(ls: WireLabels)
    ensures |DottedBytes(ls)| + 1 == |EncodeLabels(ls)|
    ensures ls != [] ==> Ends(DottedBytes(ls), DOT) && |DottedBytes(ls)| >= 2
                         && Ends(ls[|ls| - 1], DottedBytes(ls)[|DottedBytes(ls)| - 2])
  {
    if ls != [] {
      DottedLength(ls[1..]);
      if |ls| == 1 {
        assert DottedBytes(ls) == ls[0] + [DOT] + [];
      }
    }
  }

  lemma {:induction false} SameLengths(a: seq<Label>, ls: WireLabels)
    requires |a| == |ls| && forall i :: 0 <= i < |a| ==> |a[i].wire| == |ls[i]|
    ensures LabelsLen(a) + 1 == |EncodeLabels(ls)|
  {
    if a != [] { SameLengths(a[1..], ls[1..]); }
  }

  /** Only plain names survive: a dot inside a label moves a label boundary, a backslash is read as an
      escape, and anything else is refused. */
  lemma ReadsAsIsPlain(ls: WireLabels, n: DomainName)
    requires Spells(ls, n) && ReadsAs(ls, n)
    ensures PlainName(n)
  {
    var m := ParseName(NameText(ls)).value;
    SameSpelling(ls, n, m);
    SameNameSymmetric(m, n);
    if ls != [] {
      ReadAsWritten(ls, m);
      var parts := SplitFrom([], NameText(ls)).value.labels;
      forall i | 0 <= i < |ls| ensures Plain(ls[i]) {
        LowerKeepsPlain(parts[i]);
        LowerKeepsPlain(ls[i]);
      }
    }
    SpellingKeepsPlain(ls, n);
  }

  lemma SameNameSymmetric(m: DomainName, n: DomainName)
    ensures SameName(m, n) <==> SameName(n, m)
  {
    SameNameCanonical(m, n);
    SameNameCanonical(n, m);
  }

  /** If the labels read from `ls` are `ls` up to case, the text had no escape and no inner dot. */
  lemma ReadAsWritten(ls: WireLabels, m: DomainName)
    requires ls != [] && ParseName(NameText(ls)) == Ok(m)
    requires Spells(ls, m)
    ensures SplitFrom([], NameText(ls)).Ok?
    ensures var parts := SplitFrom([], NameText(ls)).value.labels;
            |parts| == |ls| && forall i :: 0 <= i < |ls| ==> m.labels[i].wire == parts[i] && Plain(parts[i])
  {
    var text := NameText(ls);
    DottedLength(ls);
    var sp := SplitFrom([], text).value;
    FinalDotUnescaped(ls, m, sp);
    SplitLength([], text);
    DecodedLength(sp.labels);
    forall i | 0 <= i < |ls| ensures |m.labels[i].wire| == |ls[i]| { assert |LowerAll(m.labels[i].wire)| == |LowerAll(ls[i])|; }
    SameLengths(m.labels, ls);
  }

  lemma FinalDotUnescaped(ls: WireLabels, m: DomainName, sp: Split)
    requires ls != [] && SplitFrom([], NameText(ls)) == Ok(sp) && NewLabels(sp.labels) == Ok(m.labels)
    requires Spells(ls, m)
    ensures sp.absolute
  {
    hide SplitFrom, Decode, NewLabels, LowerAll, DottedBytes, Ends, Plain, EncodeLabels, LabelsLen, TextLen;
    var k := |ls| - 1;
    var text := DottedBytes(ls);
    DottedLength(ls);
    DecodedLength(sp.labels);
    LowerEnds(m.labels[k].wire);
    LowerEnds(ls[k]);
    EndsOnce(ls[k], text[|text| - 2], DOT);
    DecodeShortens(sp.labels[k]);
    if !sp.absolute { EscapedEnd([], text); }
  }

  lemma EndsOnce(s: seq<Byte>, a: Byte, b: Byte)
    ensures Ends(s, a) && Ends(s, b) ==> a == b
  {}

  lemma LowerEnds(w: seq<Byte>)
    ensures Ends(w, DOT) <==> Ends(LowerAll(w), DOT)
  {}

  /** A name survives the wire, in any letter case, exactly when every label is graphic ASCII without dot or backslash. */
  lemma ReadsAsIffPlain(ls: WireLabels, n: DomainName)
    requires Spells(ls, n)
    ensures ReadsAs(ls, n) <==> PlainName(n)
  {
    hide ReadsAs, PlainName, Spells;
    if PlainName(n) { PlainReadsAs(ls, n); }
    if ReadsAs(ls, n) { ReadsAsIsPlain(ls, n); }
  }

  lemma {:induction false} DottedTexts(ls: WireLabels, labels: seq<Label>)
    requires |ls| == |labels| && forall i :: 0 <= i < |ls| ==> ls[i] == labels[i].text
    ensures DottedBytes(ls) == Dotted(labels)
  {
    if ls != [] { DottedTexts(ls[1..], labels[1..]); }
  }

  /** Any name can be carried another way: its printed labels, escapes and all, written raw as labels, read as it. */
  lemma PrintedReadsAs(ls: WireLabels, n: DomainName)
    requires |ls| == |n.labels| && forall i :: 0 <= i < |ls| ==> ls[i] == n.labels[i].text
    ensures ReadsAs(ls, n) <==> AllUtf8(ls)
  {
    DottedTexts(ls, n.labels);
    DisplayRoundTrip(n);
    SameNameCanonical(n, n);
  }

  // ---- Records on the wire -------------------------------------------------

  /** A TSIG record as any sender may write it: labels for its owner and its algorithm, and the other fields. */
  datatype RawTsig = RawTsig(owner: WireLabels, algorithm: WireLabels, time: U48, fudge: U16, mac: seq<Byte>, id: U16,
                             error: U16, other: seq<Byte>) {
    /** The fields after the algorithm name. */
    function Tail(): seq<Byte> { Be48(time) + (Be16(fudge) + (Be16(|mac| % 0x1_0000) + (mac + Trailer()))) }

    function Trailer(): seq<Byte> { Be16(id) + (Be16(error) + (Be16(|other| % 0x1_0000) + other)) }

    function Rdata(): seq<Byte> { EncodeLabels(algorithm) + Tail() }

    /** The record, with class ANY and TTL 0. */
    function RR(): WireRR { WireRR(owner, TSIG_TYPE, CLASS_ANY, 0, Rdata()) }

    function Octets(): seq<Byte> { RROctets(RR()) }

    predicate Fits() { RR().Valid() }

    /** What a reader that turns names into text makes of it. */
    function Read(): Result<TsigRecord, TsigError> {
      var name := ParseName(NameText(owner));
      var alg := AlgorithmFromText(NameText(algorithm));
      if AllUtf8(owner) && name.Ok? && AllUtf8(algorithm) && alg.Some?
      then Ok(TsigRecord(name.value, alg.value, time, fudge, mac, id, error, other, Octets()))
      else Err(TsigError)
    }
  }

  /** The fields of a tail stand at these places of a record. */
  predicate TailFields(r: RawTsig, w: seq<Byte>, p: nat) {
    && |r.mac| <= 0xFFFF && p + 10 + |r.mac| <= |w|
    && ReadBe48(w[p..]) == r.time && U16At(w, p + 6) == r.fudge
    && U16At(w, p + 8) == |r.mac| && w[p + 10..p + 10 + |r.mac|] == r.mac
    && TrailerFields(r, w, p + 10 + |r.mac|)
  }

  predicate TrailerFields(r: RawTsig, w: seq<Byte>, q: nat) {
    && |r.other| <= 0xFFFF && q + 6 + |r.other| == |w|
    && U16At(w, q) == r.id && U16At(w, q + 2) == r.error && U16At(w, q + 4) == |r.other| && w[q + 6..] == r.other
  }

  lemma TailLength(r: RawTsig)
    ensures |r.Tail()| == 16 + |r.mac| + |r.other|
  {}

  lemma TailAt(r: RawTsig, pre: seq<Byte>)
    requires |r.mac| <= 0xFFFF && |r.other| <= 0xFFFF
    ensures TailFields(r, pre + r.Tail(), |pre|)
  {
    hide Be16, Be48, ReadBe48, U16At, r.Trailer, TrailerFields;
    var w, p := pre + r.Tail(), |pre|;
    var d := r.Trailer();
    var c := Be16(|r.mac|) + (r.mac + d);
    var b := Be16(r.fudge) + c;
    assert w[p..] == Be48(r.time) + b;
    Be48Reads(r.time, b);
    Past(w, p, Be48(r.time), b);
    NumberAt(w, p + 6, r.fudge, c);
    NumberAt(w, p + 8, |r.mac|, r.mac + d);
    Past(w, p + 10, r.mac, d);
    TrailerAt(r, w, p + 10 + |r.mac|);
  }

  lemma TrailerAt(r: RawTsig, w: seq<Byte>, q: nat)
    requires |r.other| <= 0xFFFF && q <= |w| && w[q..] == r.Trailer()
    ensures TrailerFields(r, w, q)
  {
    hide Be16, U16At;
    var f := Be16(|r.other|) + r.other;
    NumberAt(w, q, r.id, Be16(r.error) + f);
    NumberAt(w, q + 2, r.error, f);
    NumberAt(w, q + 4, |r.other|, r.other);
  }

  lemma Past(w: seq<Byte>, p: nat, head: seq<Byte>, tail: seq<Byte>)
    requires p <= |w| && w[p..] == head + tail
    ensures p + |head| <= |w| && w[p + |head|..] == tail && w[p..p + |head|] == head
  {
    assert w[p + |head|..] == w[p..][|head|..];
    assert w[p..p + |head|] == w[p..][..|head|];
  }

  lemma NumberAt(w: seq<Byte>, p: nat, n: U16, tail: seq<Byte>)
    requires p <= |w| && w[p..] == Be16(n) + tail
    ensures p + 2 <= |w| && U16At(w, p) == n && w[p + 2..] == tail
  {
    hide Be16, ReadBe16;
    Be16Reads(n, tail);
    Past(w, p, Be16(n), tail);
  }

  lemma FixedAt(w: seq<Byte>, p: nat, rr: WireRR, rest: seq<Byte>)
    requires rr.Valid() && p <= |w| && w[p..] == RRFixed(rr) + rest
    ensures p + 10 <= |w| && U16At(w, p) == rr.rtype && U16At(w, p + 2) == rr.rclass && ReadBe32(w[p + 4..]) == rr.ttl
            && U16At(w, p + 8) == |rr.rdata|
  {
    hide RRFixed, ReadBe16, ReadBe32;
    FixedReadsBack(rr, rest);
    assert w[p + 2..] == w[p..][2..] && w[p + 4..] == w[p..][4..] && w[p + 8..] == w[p..][8..];
  }

  /** Any record with these fields, whoever wrote it, parses to exactly these fields, or not at all if a name in it
      does not read. */
  lemma RawParses(r: RawTsig)
    requires r.Fits()
    ensures ParseTsig(r.Octets()) == r.Read()
  {
    hide U16At, ReadBe32, EncodeLabels, ReadLabels, ParseName, ParseTail, AlgorithmFromText, NameText, RRFixed, AllUtf8;
    var w, owner, alg, tail := r.Octets(), EncodeLabels(r.owner), EncodeLabels(r.algorithm), r.Tail();
    TailLength(r);
    hide r.Tail;
    var fixed := RRFixed(r.RR());
    Reslice(owner, fixed, alg, tail);
    LabelsReadBack([], r.owner, fixed + (alg + tail));
    if AllUtf8(r.owner) && ParseName(NameText(r.owner)).Ok? {
      var p, pre := |owner|, owner + fixed;
      FixedAt(w, p, r.RR(), r.Rdata());
      LabelsReadBack(pre, r.algorithm, tail);
      if AllUtf8(r.algorithm) && AlgorithmFromText(NameText(r.algorithm)).Some? {
        TailAt(r, pre + alg);
        TailParses(r, w, |pre + alg|, ParseName(NameText(r.owner)).value, AlgorithmFromText(NameText(r.algorithm)).value);
      }
    }
  }

  lemma Reslice(a: seq<Byte>, b: seq<Byte>, c: seq<Byte>, d: seq<Byte>)
    ensures var w := a + b + (c + d);
            w == [] + a + (b + (c + d)) && w[|a|..] == b + (c + d) && w == (a + b) + c + d && w == (a + b + c) + d
  {}

  lemma TailParses(r: RawTsig, w: seq<Byte>, p: nat, name: DomainName, a: Algorithm)
    requires TailFields(r, w, p)
    ensures ParseTail(name, a, w, p) == Ok(TsigRecord(name, a, r.time, r.fudge, r.mac, r.id, r.error, r.other, w))
  {
    hide U16At, ReadBe48;
  }

  /** Reading labels gives only what was there. */
  lemma {:induction false} ReadIsEncoded(w: seq<Byte>, pos: nat)
    requires ReadLabels(w, pos).Ok?
    ensures var n := ReadLabels(w, pos).value;
            AllUtf8(n.labels) && w[pos..n.end] == EncodeLabels(n.labels)
    decreases |w| - pos
  {
    hide ValidUtf8, EncodeLabels;
    var len := w[pos] as int;
    if len == 0 {
      EncodeNone();
      assert w[pos..pos + 1] == [0];
    } else {
      var next := pos + 1 + len;
      ReadIsEncoded(w, next);
      var l, more, end := w[pos + 1..next], ReadLabels(w, next).value.labels, ReadLabels(w, pos).value.end;
      hide ReadLabels;
      EncodeOne(l, more);
      assert w[pos..end] == [len] + l + w[next..end];
      AllUtf8Splits([l] + more);
    }
  }

  /** Fields found at their places are the bytes of the tail. */
  lemma TailIsThere(r: RawTsig, w: seq<Byte>, p: nat)
    requires TailFields(r, w, p)
    ensures w[p..] == r.Tail()
  {
    hide Be16, Be48, U16At, ReadBe48, r.Trailer, TrailerFields;
    var q, d := p + 10 + |r.mac|, r.Trailer();
    var c := Be16(|r.mac|) + (r.mac + d);
    TrailerIsThere(r, w, q);
    Cut(w, p + 10, |r.mac|);
    NumberInFront(w, p + 8, r.mac + d);
    NumberInFront(w, p + 6, c);
    Be48OfRead(w[p..]);
    Cut(w, p, 6);
  }

  lemma TrailerIsThere(r: RawTsig, w: seq<Byte>, q: nat)
    requires TrailerFields(r, w, q)
    ensures w[q..] == r.Trailer()
  {
    hide Be16, U16At;
    NumberInFront(w, q + 4, r.other);
    NumberInFront(w, q + 2, Be16(|r.other|) + r.other);
    NumberInFront(w, q, Be16(r.error) + (Be16(|r.other|) + r.other));
  }

  lemma NumberInFront(w: seq<Byte>, p: nat, tail: seq<Byte>)
    requires p + 2 <= |w| && w[p + 2..] == tail
    ensures w[p..] == Be16(U16At(w, p)) + tail
  {
    hide Be16, ReadBe16;
    Be16OfRead(w[p..]);
    Cut(w, p, 2);
  }

  lemma Cut(w: seq<Byte>, p: nat, n: nat)
    requires p + n <= |w|
    ensures w[p..][..n] == w[p..p + n] && w[p..] == w[p..p + n] + w[p + n..]
  {}

  function RawOf(owner: WireLabels, algorithm: WireLabels, rec: TsigRecord): RawTsig {
    RawTsig(owner, algorithm, rec.timeSigned, rec.fudge, rec.mac, rec.originalId, rec.error, rec.otherData)
  }

  lemma TailOfParsed(w: seq<Byte>, p: nat, name: DomainName, a: Algorithm, owner: WireLabels, algorithm: WireLabels)
    requires ParseTail(name, a, w, p).Ok?
    ensures TailFields(RawOf(owner, algorithm, ParseTail(name, a, w, p).value), w, p)
  {
    hide U16At, ReadBe48;
  }

  lemma FixedIsThere(rr: WireRR, w: seq<Byte>, p: nat)
    requires p + 10 <= |w| && U16At(w, p) == rr.rtype && U16At(w, p + 2) == rr.rclass && ReadBe32(w[p + 4..]) == rr.ttl
    requires U16At(w, p + 8) == |rr.rdata|
    ensures w[p..p + 10] == RRFixed(rr)
  {
    hide Be16, Be32, ReadBe16, ReadBe32;
    Be16OfRead(w[p..]);
    Be16OfRead(w[p + 2..]);
    Be32OfRead(w[p + 4..]);
    Be16OfRead(w[p + 8..]);
    Cut(w, p, 2);
    Cut(w, p + 2, 2);
    Cut(w, p + 4, 4);
    Cut(w, p + 8, 2);
    assert w[p..p + 10] == w[p..p + 2] + w[p + 2..p + 4] + w[p + 4..p + 8] + w[p + 8..p + 10];
  }

  lemma RawIsThere(r: RawTsig, w: seq<Byte>, p: nat, e: nat)
    requires p + 10 <= e <= |w| && w[0..p] == EncodeLabels(r.owner) && w[p + 10..e] == EncodeLabels(r.algorithm)
    requires w[e..] == r.Tail()
    requires U16At(w, p) == TSIG_TYPE && U16At(w, p + 2) == CLASS_ANY && ReadBe32(w[p + 4..]) == 0
    requires p + 10 + U16At(w, p + 8) as int == |w|
    ensures r.Fits() && r.Octets() == w
  {
    hide U16At, ReadBe32, EncodeLabels, RRFixed, r.Tail;
    Cut(w, p + 10, e - p - 10);
    assert w[p + 10..] == r.Rdata();
    hide r.Rdata;
    FixedIsThere(r.RR(), w, p);
    Cut(w, 0, p);
    Cut(w, p, 10);
    Regroup3(w[0..p], w[p..p + 10], w[p + 10..]);
  }

  lemma Regroup3(a: seq<Byte>, b: seq<Byte>, c: seq<Byte>)
    ensures a + (b + c) == a + b + c
  {}

  /** What parses is a record with the fields returned, and nothing after it. */
  lemma ParsedIsRaw(w: seq<Byte>) returns (r: RawTsig)
    requires ParseTsig(w).Ok?
    ensures r.Fits() && r.Octets() == w && r.Read() == ParseTsig(w)
  {
    hide U16At, ReadBe32, EncodeLabels, ReadLabels, ParseName, ParseTail, AlgorithmFromText, NameText, RRFixed, AllUtf8;
    var owner := ReadLabels(w, 0).value;
    var p := owner.end;
    var algorithm := ReadLabels(w, p + 10).value;
    var e := algorithm.end;
    var name, a := ParseName(NameText(owner.labels)).value, AlgorithmFromText(NameText(algorithm.labels)).value;
    r := RawOf(owner.labels, algorithm.labels, ParseTsig(w).value);
    ReadIsEncoded(w, 0);
    ReadIsEncoded(w, p + 10);
    TailOfParsed(w, e, name, a, owner.labels, algorithm.labels);
    TailIsThere(r, w, e);
    hide r.Tail, r.Fits;
    RawIsThere(r, w, p, e);
    hide r.Octets, ParseTsig;
    RawParses(r);
  }

  /** Exactly the bytes that are one TSIG record with readable names, and nothing after it, are accepted, and the
      fields are those the record was written with. */
  lemma ParsesExactly(w: seq<Byte>, rec: TsigRecord)
    ensures ParseTsig(w) == Ok(rec) <==> exists r: RawTsig :: r.Fits() && r.Octets() == w && r.Read() == Ok(rec)
  {
    hide ParseTsig;
    if ParseTsig(w) == Ok(rec) {
      var r := ParsedIsRaw(w);
      assert r.Octets() == w;
    }
    forall r: RawTsig | r.Fits() && r.Octets() == w && r.Read() == Ok(rec) ensures ParseTsig(w) == Ok(rec) {
      RawParses(r);
    }
  }

  // ---- What is hashed ------------------------------------------------------

  lemma OctetsLength(r: RawTsig)
    ensures |r.Octets()| == |EncodeLabels(r.owner)| + 10 + |EncodeLabels(r.algorithm)| + 16 + |r.mac| + |r.other|
  {
    TailLength(r);
    hide r.Tail;
  }

  /** The bytes section 4.3 of RFC 8945 hashes: a prior MAC behind its length, the message, and the record as sent, without
      its type, RDLENGTH, MAC size, MAC and original id. */
  function Digest(prior: Option<seq<Byte>>, message: seq<Byte>, r: RawTsig): seq<Byte> {
    OctetsLength(r);
    var w := r.Octets();
    var p := |EncodeLabels(r.owner)|;
    var e := p + 10 + |EncodeLabels(r.algorithm)|;
    (match prior case None => [] case Some(mac) => [|mac| / 0x100 % 0x100, |mac| % 0x100] + mac)
    + message + w[..p] + w[p + 2..p + 8] + w[p + 10..e + 8] + w[e + 12 + |r.mac|..]
  }

  /** The same record with its names in canonical form, as the key has them. */
  function WithKeyNames(r: RawTsig, key: TsigKey): RawTsig {
    r.(owner := Canonical(key.name), algorithm := Canonical(AlgorithmName(key.algorithm)))
  }

  /** The MAC input is cut from the record, for any record and any prior MAC. */
  lemma MacInputIsDigest(key: TsigKey, r: RawTsig, prior: Option<seq<Byte>>, message: seq<Byte>)
    ensures MacInput(prior, message, Variables(key, r.time, r.fudge, r.error, r.other)) == Digest(prior, message, WithKeyNames(r, key))
  {
    var s := WithKeyNames(r, key);
    var owner, alg := EncodeLabels(s.owner), EncodeLabels(s.algorithm);
    VariablesParts(key, r.time, r.fudge, r.error, r.other);
    PriorDigested(prior);
    OctetsLength(s);
    SlicesOfRecord(s);
    hide r.Octets, EncodeLabels, Variables, Be16, Be32, Be48, Canonical, AlgorithmName, PriorPart;
    SixParts(PriorPart(prior) + message, owner, Be16(CLASS_ANY) + Be32(0), alg + (Be48(r.time) + Be16(r.fudge)),
             Be16(r.error) + Be16(|r.other| % 0x1_0000) + r.other);
  }

  lemma SixParts(a: seq<Byte>, b: seq<Byte>, c: seq<Byte>, d: seq<Byte>, e: seq<Byte>)
    ensures a + (b + c + d + e) == a + b + c + d + e
  {}

  lemma VariablesParts(key: TsigKey, time: U48, fudge: U16, error: U16, other: seq<Byte>)
    ensures Variables(key, time, fudge, error, other) ==
            EncodeLabels(Canonical(key.name)) + (Be16(CLASS_ANY) + Be32(0))
            + (EncodeLabels(Canonical(AlgorithmName(key.algorithm))) + (Be48(time) + Be16(fudge)))
            + (Be16(error) + Be16(|other| % 0x1_0000) + other)
  {
    hide EncodeLabels, Canonical, AlgorithmName, Be16, Be32, Be48;
  }

  lemma PriorDigested(prior: Option<seq<Byte>>)
    ensures PriorPart(prior) == match prior case None => [] case Some(mac) => [|mac| / 0x100 % 0x100, |mac| % 0x100] + mac
  {
    if prior.Some? {
      LengthOctets(|prior.value|);
      hide Be16;
      assert PriorPart(prior) == Be16(|prior.value| % 0x1_0000) + prior.value;
    }
  }

  lemma LengthOctets(n: nat)
    ensures Be16(n % 0x1_0000) == [n / 0x100 % 0x100, n % 0x100]
  {
    LengthParts(n);
  }

  lemma LengthParts(n: nat)
    ensures n % 0x1_0000 / 0x100 == n / 0x100 % 0x100 && n % 0x1_0000 % 0x100 == n % 0x100
  {
    var k, m := n / 0x1_0000, n % 0x1_0000;
    var h, l := m / 0x100, m % 0x100;
    assert n == 0x100 * (0x100 * k + h) + l;
    assert n / 0x100 == 0x100 * k + h;
  }

  lemma RecordParts(r: RawTsig)
    ensures r.Octets() ==
            EncodeLabels(r.owner)
            + (Be16(TSIG_TYPE) + (Be16(CLASS_ANY) + Be32(0) + (Be16(|r.Rdata()| % 0x1_0000) + r.Rdata())))
  {
    hide EncodeLabels, Be16, Be32, r.Rdata;
  }

  lemma RdataParts(r: RawTsig)
    ensures r.Rdata() ==
            EncodeLabels(r.algorithm) + (Be48(r.time) + Be16(r.fudge))
            + (Be16(|r.mac| % 0x1_0000) + (r.mac + (Be16(r.id) + (Be16(r.error) + Be16(|r.other| % 0x1_0000) + r.other))))
  {
    hide EncodeLabels, Be16, Be48;
    var last := Be16(r.error) + Be16(|r.other| % 0x1_0000) + r.other;
    assert r.Trailer() == Be16(r.id) + last;
    hide r.Trailer;
    assert r.Tail() == Be48(r.time) + Be16(r.fudge) + (Be16(|r.mac| % 0x1_0000) + (r.mac + r.Trailer()));
  }

  lemma PartSizes(r: RawTsig)
    ensures |Be16(TSIG_TYPE)| == 2 && |Be16(CLASS_ANY) + Be32(0)| == 6 && |Be16(|r.Rdata()| % 0x1_0000)| == 2
    ensures |Be48(r.time) + Be16(r.fudge)| == 8 && |Be16(|r.mac| % 0x1_0000)| == 2 && |Be16(r.id)| == 2
  {}

  /** Where the hashed parts stand in a record. */
  lemma SlicesOfRecord(r: RawTsig)
    ensures |r.Octets()| == |EncodeLabels(r.owner)| + 10 + |EncodeLabels(r.algorithm)| + 16 + |r.mac| + |r.other|
    ensures var w, p := r.Octets(), |EncodeLabels(r.owner)|;
            var e := p + 10 + |EncodeLabels(r.algorithm)|;
            && w[..p] == EncodeLabels(r.owner) && w[p + 2..p + 8] == Be16(CLASS_ANY) + Be32(0)
            && w[p + 10..e + 8] == EncodeLabels(r.algorithm) + (Be48(r.time) + Be16(r.fudge))
            && w[e + 12 + |r.mac|..] == Be16(r.error) + Be16(|r.other| % 0x1_0000) + r.other
  {
    OctetsLength(r);
    RecordParts(r);
    RdataParts(r);
    PartSizes(r);
    hide r.Octets, r.Rdata, EncodeLabels, Be16, Be32, Be48;
    var w, owner, alg := r.Octets(), EncodeLabels(r.owner), EncodeLabels(r.algorithm);
    var last := Be16(r.error) + Be16(|r.other| % 0x1_0000) + r.other;
    var tail := Be16(|r.mac| % 0x1_0000) + (r.mac + (Be16(r.id) + last));
    FrontSlices(w, owner, Be16(TSIG_TYPE), Be16(CLASS_ANY) + Be32(0), Be16(|r.Rdata()| % 0x1_0000),
                alg + (Be48(r.time) + Be16(r.fudge)), tail);
    BackSlices(w, |owner| + 18 + |alg|, Be16(|r.mac| % 0x1_0000), r.mac, Be16(r.id), last);
  }

  lemma FrontSlices(w: seq<Byte>, owner: seq<Byte>, kind: seq<Byte>, fixed: seq<Byte>, size: seq<Byte>, front: seq<Byte>, tail: seq<Byte>)
    requires w == owner + (kind + (fixed + (size + (front + tail))))
    requires |kind| == 2 && |fixed| == 6 && |size| == 2
    ensures var p := |owner|;
            && p + 10 + |front| <= |w| && w[..p] == owner && w[p + 2..p + 8] == fixed
            && w[p + 10..p + 10 + |front|] == front && w[p + 10 + |front|..] == tail
  {
    var p := |owner|;
    Past(w, 0, owner, kind + (fixed + (size + (front + tail))));
    Past(w, p, kind, fixed + (size + (front + tail)));
    Past(w, p + 2, fixed, size + (front + tail));
    Past(w, p + 8, size, front + tail);
    Past(w, p + 10, front, tail);
  }

  lemma BackSlices(w: seq<Byte>, q: nat, macSize: seq<Byte>, mac: seq<Byte>, id: seq<Byte>, last: seq<Byte>)
    requires q <= |w| && w[q..] == macSize + (mac + (id + last)) && |macSize| == 2 && |id| == 2
    ensures q + 4 + |mac| <= |w| && w[q + 4 + |mac|..] == last
  {
    Past(w, q, macSize, mac + (id + last));
    Past(w, q + 2, mac, id + last);
    Past(w, q + 2 + |mac|, id, last);
  }

  /** What a key holder's record authenticates, cut from that record. */
  lemma BuiltMac(key: TsigKey, message: seq<Byte>, time: U48, prior: Option<seq<Byte>>)
    ensures Built(key, message, time, prior).mac == key.hmac(Digest(prior, message, BuiltRaw(key, message, time, prior)))
  {
    hide Variables, MacInput, Digest, Canonical, AlgorithmName, RROctets, BuiltRdata, MessageId;
    MacInputIsDigest(key, BuiltRaw(key, message, time, prior), prior, message);
  }

  // ---- Verification --------------------------------------------------------

  /** Is the record at hand accepted as authenticating `message`, a response to a request with MAC `requestMac`? */
  predicate Accepts(key: TsigKey, wire: seq<Byte>, message: seq<Byte>, requestMac: seq<Byte>, now: U64) {
    ParseTsig(wire).Ok? && Verifies(key, message, ParseTsig(wire).value, requestMac, now)
  }

  /** Everything but the owner is right: algorithm, message id, time window and MAC. */
  predicate RightFields(key: TsigKey, r: RawTsig, message: seq<Byte>, requestMac: seq<Byte>, now: U64) {
    && AllUtf8(r.algorithm) && AlgorithmFromText(NameText(r.algorithm)) == Some(key.algorithm)
    && |message| >= 12 && r.id == ReadBe16(message)
    && -(r.fudge as int) <= now as int - r.time as int <= r.fudge as int
    && r.mac == key.hmac(Digest(Some(requestMac), message, WithKeyNames(r, key)))
  }

  /** Exactly which records are accepted, whoever wrote them: the owner reads as the key's name and the rest is right. */
  lemma AcceptsIff(key: TsigKey, r: RawTsig, message: seq<Byte>, requestMac: seq<Byte>, now: U64)
    requires r.Fits()
    ensures Accepts(key, r.Octets(), message, requestMac, now) <==>
            ReadsAs(r.owner, key.name) && RightFields(key, r, message, requestMac, now)
  {
    hide ParseTsig, Verifies, ReadsAs, RightFields, r.Read, r.Octets;
    RawParses(r);
    ReadVerifies(key, r, message, requestMac, now);
  }

  lemma ReadVerifies(key: TsigKey, r: RawTsig, message: seq<Byte>, requestMac: seq<Byte>, now: U64)
    ensures r.Read().Ok? && Verifies(key, message, r.Read().value, requestMac, now) <==>
            ReadsAs(r.owner, key.name) && RightFields(key, r, message, requestMac, now)
  {
    hide ParseName, NameText, AlgorithmFromText, SameName, MacInput, Variables, ReadBe16, AllUtf8, r.Octets, Digest, WithKeyNames;
    MacInputIsDigest(key, r, Some(requestMac), message);
  }

  /** A record that carries the key's own name, in any letter case, is accepted exactly when that name is plain and the
      rest is right: with any other key name not even a record the key itself made. */
  lemma OwnNameAcceptsIff(key: TsigKey, r: RawTsig, message: seq<Byte>, requestMac: seq<Byte>, now: U64)
    requires r.Fits() && Spells(r.owner, key.name)
    ensures Accepts(key, r.Octets(), message, requestMac, now) <==>
            PlainName(key.name) && RightFields(key, r, message, requestMac, now)
  {
    hide Accepts, ReadsAs, PlainName, RightFields, Spells;
    AcceptsIff(key, r, message, requestMac, now);
    ReadsAsIffPlain(r.owner, key.name);
  }

  /** A key with any name can still be made to verify: a record whose owner holds the printed labels of that name,
      escapes and all, is accepted whenever the rest is right. */
  lemma PrintedNameAcceptsIff(key: TsigKey, r: RawTsig, message: seq<Byte>, requestMac: seq<Byte>, now: U64)
    requires r.Fits() && |r.owner| == |key.name.labels| && AllUtf8(r.owner)
    requires forall i :: 0 <= i < |r.owner| ==> r.owner[i] == key.name.labels[i].text
    ensures Accepts(key, r.Octets(), message, requestMac, now) <==> RightFields(key, r, message, requestMac, now)
  {
    hide Accepts, ReadsAs, RightFields, AllUtf8;
    AcceptsIff(key, r, message, requestMac, now);
    PrintedReadsAs(r.owner, key.name);
  }

  // ---- Records the key holder builds ---------------------------------------

  lemma AlgorithmReadsBack(a: Algorithm)
    ensures Canonical(AlgorithmName(a)) == [AlgorithmText(a)] && AllUtf8(Canonical(AlgorithmName(a)))
    ensures AlgorithmFromText(NameText([AlgorithmText(a)])) == Some(a)
  {
    var t := AlgorithmText(a);
    AlgorithmTextFixed(a);
    hide AlgorithmText;
    assert LowerAll(t) == t == (t + [DOT])[..|t|];
    assert Canonical(AlgorithmName(a)) == [t];
    PlainIsUtf8([t]);
    assert DottedBytes([t]) == t + [DOT] + DottedBytes([]);
    assert NameText([t]) == t + [DOT];
  }

  lemma AlgorithmTextFixed(a: Algorithm)
    ensures LowerAll(AlgorithmText(a)) == AlgorithmText(a)
    ensures AlgorithmFromText(AlgorithmText(a) + [DOT]) == Some(a)
  {
    var t := AlgorithmText(a);
    assert forall i :: 0 <= i < |t| ==> Lower(t[i]) == t[i];
    assert LowerAll(t + [DOT]) == t + [DOT];
    assert |AlgorithmText(HmacSha256)| == |AlgorithmText(HmacSha512)| == 11 && |AlgorithmText(HmacSha1)| == 9;
    assert (AlgorithmText(HmacSha256) + [DOT])[8] == 50 && (AlgorithmText(HmacSha512) + [DOT])[8] == 53;
  }

  /** The record `New` builds, by its fields. */
  function BuiltRaw(key: TsigKey, message: seq<Byte>, time: U48, prior: Option<seq<Byte>>): RawTsig {
    RawTsig(Canonical(key.name), Canonical(AlgorithmName(key.algorithm)), time, FUDGE, MacFor(key, message, time, prior),
            MessageId(message), 0, [])
  }

  lemma BuiltIsRaw(key: TsigKey, message: seq<Byte>, time: U48, prior: Option<seq<Byte>>)
    requires key.Valid()
    ensures var r := BuiltRaw(key, message, time, prior);
            r.Fits() && r.Rdata() == BuiltRdata(key, message, time, prior) && r.RR() == TsigRR(key.name, r.Rdata())
            && r.Octets() == Built(key, message, time, prior).wire
  {
    hide Be16, Be48, EncodeLabels, Canonical, AlgorithmName, MessageId, Variables, MacInput;
    WireFormLength(AlgorithmName(key.algorithm));
    var r, input := BuiltRaw(key, message, time, prior), MacInput(prior, message, Variables(key, time, FUDGE, 0, []));
    assert |key.hmac(input)| == MacLength(key.algorithm);
    TailLength(r);
    assert r.Rdata() == BuiltRdata(key, message, time, prior);
  }

  /** What the key holder builds parses to every field that went in. */
  lemma BuiltParses(key: TsigKey, message: seq<Byte>, time: U48, prior: Option<seq<Byte>>)
    requires key.Valid() && PlainName(key.name)
    ensures var built := Built(key, message, time, prior);
            var r := ParseTsig(built.wire);
            r.Ok? && r.value == built.(keyName := r.value.keyName) && SameName(r.value.keyName, key.name)
  {
    BuiltIsRaw(key, message, time, prior);
    CanonicalSpells(key.name);
    ReadsAsIffPlain(Canonical(key.name), key.name);
    AlgorithmReadsBack(key.algorithm);
    hide ParseTsig, SameName, AlgorithmFromText, NameText, ParseName, AllUtf8, BuiltRdata, TsigRR, RROctets, PlainName,
      Spells, AlgorithmName, Canonical, AlgorithmText;
    RawParses(BuiltRaw(key, message, time, prior));
  }

  /** A response signed with the request's MAC, sent and parsed, verifies exactly inside the fudge window, and only with
      a plain key name: the verifier rebuilds the very bytes the signer hashed. */
  lemma SignedResponseVerifies(key: TsigKey, message: seq<Byte>, time: U48, requestMac: seq<Byte>, now: U64)
    requires key.Valid() && |message| >= 12
    ensures Accepts(key, Built(key, message, time, Some(requestMac)).wire, message, requestMac, now) <==>
            PlainName(key.name) && -300 <= now - time <= 300
  {
    var r := BuiltRaw(key, message, time, Some(requestMac));
    BuiltIsRaw(key, message, time, Some(requestMac));
    CanonicalSpells(key.name);
    BuiltRight(key, message, time, requestMac, now);
    hide Accepts, PlainName, Spells, RightFields, BuiltRdata, TsigRR, RROctets, MessageId, MacFor, AlgorithmName, Canonical;
    OwnNameAcceptsIff(key, r, message, requestMac, now);
  }

  /** The key holder's fields are right inside the fudge window, under any owner. */
  lemma BuiltRight(key: TsigKey, message: seq<Byte>, time: U48, requestMac: seq<Byte>, now: U64)
    requires |message| >= 12
    ensures RightFields(key, BuiltRaw(key, message, time, Some(requestMac)), message, requestMac, now) <==> -300 <= now - time <= 300
  {
    BuiltMac(key, message, time, Some(requestMac));
    AlgorithmReadsBack(key.algorithm);
    hide AlgorithmFromText, NameText, AllUtf8, Digest, ReadBe16, AlgorithmName, Canonical, AlgorithmText, Variables, MacInput;
    var r := BuiltRaw(key, message, time, Some(requestMac));
    assert WithKeyNames(r, key) == r && r.mac == Built(key, message, time, Some(requestMac)).mac;
  }

  lemma RightUnderAnyOwner(key: TsigKey, r: RawTsig, owner: WireLabels, message: seq<Byte>, requestMac: seq<Byte>, now: U64)
    ensures RightFields(key, r.(owner := owner), message, requestMac, now) <==> RightFields(key, r, message, requestMac, now)
  {
    assert WithKeyNames(r.(owner := owner), key) == WithKeyNames(r, key);
    hide AlgorithmFromText, NameText, AllUtf8, Digest, ReadBe16, WithKeyNames;
  }

  /** With the one label `a.b` a key's own records never verify, but a record whose owner is the four bytes of its
      printed label does. */
  lemma EscapedOwnerVerifies(key: TsigKey, message: seq<Byte>, time: U48, requestMac: seq<Byte>, now: U64)
    requires key.Valid() && |message| >= 12 && -300 <= now - time <= 300
    requires Contents(key.name) == [[97, DOT, 98]] && key.name.labels[0].text == [97, BACKSLASH, DOT, 98]
    ensures !Accepts(key, Built(key, message, time, Some(requestMac)).wire, message, requestMac, now)
    ensures var r := BuiltRaw(key, message, time, Some(requestMac)).(owner := [[97, BACKSLASH, DOT, 98]]);
            r.Fits() && Accepts(key, r.Octets(), message, requestMac, now)
  {
    var r := BuiltRaw(key, message, time, Some(requestMac));
    var s := r.(owner := [[97, BACKSLASH, DOT, 98]]);
    assert DOT in Contents(key.name)[0];
    AsciiIsUtf8([97, BACKSLASH, DOT, 98]);
    SignedResponseVerifies(key, message, time, requestMac, now);
    BuiltIsRaw(key, message, time, Some(requestMac));
    BuiltRight(key, message, time, requestMac, now);
    RightUnderAnyOwner(key, r, s.owner, message, requestMac, now);
    TailLength(r);
    TailLength(s);
    hide Accepts, PlainName, RightFields, ValidUtf8, BuiltRdata, TsigRR, RROctets, MessageId, MacFor, AlgorithmName, Canonical, r.Tail;
    PrintedNameAcceptsIff(key, s, message, requestMac, now);
  }

  // ---- What the MAC covers -------------------------------------------------

  lemma VariablesShape(key: TsigKey, time: U48, fudge: U16, error: U16)
    ensures var v := Variables(key, time, fudge, error, []);
            var n := key.name.WireLen() + 6 + AlgorithmName(key.algorithm).WireLen();
            |v| == n + 12 && v[n..n + 6] == Be48(time)
  {
    WireFormLength(key.name);
    WireFormLength(AlgorithmName(key.algorithm));
    hide CanonicalForm, AlgorithmName;
    var head := CanonicalForm(key.name) + (Be16(CLASS_ANY) + Be32(0)) + CanonicalForm(AlgorithmName(key.algorithm));
    assert Variables(key, time, fudge, error, []) == head + (Be48(time) + (Be16(fudge) + Be16(error) + Be16(0)));
  }

  /** For one key, the chained MAC input determines the prior MAC, the message and the time. */
  lemma MacInputDetermines(key: TsigKey, p: seq<Byte>, m: seq<Byte>, t: U48, p': seq<Byte>, m': seq<Byte>, t': U48)
    requires |p| <= 0xFFFF && |p'| <= 0xFFFF
    requires MacInput(Some(p), m, Variables(key, t, FUDGE, 0, [])) == MacInput(Some(p'), m', Variables(key, t', FUDGE, 0, []))
    ensures p == p' && m == m' && t == t'
  {
    var v, v' := Variables(key, t, FUDGE, 0, []), Variables(key, t', FUDGE, 0, []);
    VariablesShape(key, t, FUDGE, 0);
    VariablesShape(key, t', FUDGE, 0);
    MacInputGroups(p, m, v);
    MacInputGroups(p', m', v');
    hide Variables, MacInput;
    SamePrefix(Be16(|p|), p + (m + v), Be16(|p'|), p' + (m' + v'));
    assert Be16(|p|)[0] == Be16(|p'|)[0] && Be16(|p|)[1] == Be16(|p'|)[1];
    hide Be16;
    SamePrefix(p, m + v, p', m' + v');
    SamePrefix(m, v, m', v');
    assert Be48(t) == Be48(t');
    hide Be48, ReadBe48;
    Be48Reads(t, []);
    Be48Reads(t', []);
  }

  lemma MacInputGroups(p: seq<Byte>, m: seq<Byte>, v: seq<Byte>)
    requires |p| <= 0xFFFF
    ensures MacInput(Some(p), m, v) == Be16(|p|) + (p + (m + v))
  {
    hide Be16;
  }
}
