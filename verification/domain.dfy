/** Domain names: escape decoding, label splitting, wire forms, comparison and text.
    Text is handled as bytes.

    A name is stored as the text of each label together with the bytes it decodes to.
 */
module Domain {
  import opened Bytes

  type Text = seq<Byte>

  const DOT: Byte := 46
  const BACKSLASH: Byte := 92

  datatype NameError =
    | IncompleteEscape
    | EscapeTooLarge
    | InvalidCharacter
    | EmptyLabel
    | LabelTooLong
    | NameTooLong

  predicate IsDigit(b: Byte) { 48 <= b <= 57 }

  predicate IsGraphic(b: Byte) { 33 <= b <= 126 }

  function Lower(b: Byte): Byte { if 65 <= b <= 90 then b + 32 else b }

  // ---- Escapes -------------------------------------------------------------

  /** Does `s` start with a backslash and three decimal digits? */
  predicate DecimalEscape(s: Text) {
    |s| > 3 && s[0] == BACKSLASH && IsDigit(s[1]) && IsDigit(s[2]) && IsDigit(s[3])
  }

  function EscapeValue(s: Text): nat
    requires DecimalEscape(s)
  {
    (s[1] as int - 48) * 100 + (s[2] as int - 48) * 10 + (s[3] as int - 48)
  }

  /** The bytes a label's text stands for (section 5.1 of RFC 1035). */
  function Decode(s: Text): Result<seq<Byte>, NameError> {
    if s == [] then Ok([])
    else if s[0] == BACKSLASH then
      if |s| < 2 then Err(IncompleteEscape)
      else if DecimalEscape(s) then
        if EscapeValue(s) > 255 then Err(EscapeTooLarge)
        else Prepend([EscapeValue(s)], Decode(s[4..]))
      else Prepend([s[1]], Decode(s[2..]))
    else if !IsGraphic(s[0]) || s[0] == DOT then Err(InvalidCharacter)
    else Prepend([s[0]], Decode(s[1..]))
  }

  method DecodeLabel(text: Text) returns (r: Result<seq<Byte>, NameError>)
    ensures r == Decode(text)
  {
    var decoded: seq<Byte> := [];
    var pos := 0;
    PrependPrepend([], [], Decode(text));
    assert text[0..] == text;
    while pos < |text|
      invariant 0 <= pos <= |text|
      invariant Decode(text) == Prepend(decoded, Decode(text[pos..]))
    {
      var byte := text[pos];
      ghost var rest := text[pos..];
      if byte == BACKSLASH {
        if pos + 1 >= |text| {
          return Err(IncompleteEscape);
        }
        if pos + 3 < |text| && IsDigit(text[pos + 1]) && IsDigit(text[pos + 2]) && IsDigit(text[pos + 3]) {
          var value := (text[pos + 1] as int - 48) * 100 + (text[pos + 2] as int - 48) * 10 + (text[pos + 3] as int - 48);
          if value > 255 {
            return Err(EscapeTooLarge);
          }
          assert rest[4..] == text[pos + 4..];
          PrependPrepend(decoded, [value], Decode(text[pos + 4..]));
          decoded := decoded + [value];
          pos := pos + 4;
        } else {
          assert rest[2..] == text[pos + 2..];
          PrependPrepend(decoded, [text[pos + 1]], Decode(text[pos + 2..]));
          decoded := decoded + [text[pos + 1]];
          pos := pos + 2;
        }
      } else {
        if !IsGraphic(byte) || byte == DOT {
          return Err(InvalidCharacter);
        }
        assert rest[1..] == text[pos + 1..];
        PrependPrepend(decoded, [byte], Decode(text[pos + 1..]));
        decoded := decoded + [byte];
        pos := pos + 1;
      }
    }
    assert text[pos..] == [] && decoded + [] == decoded;
    r := Ok(decoded);
  }

  // ---- Splitting -----------------------------------------------------------

  datatype Split = Split(labels: seq<Text>, absolute: bool)

  function After(labels: seq<Text>, rest: Result<Split, NameError>): Result<Split, NameError> {
    match rest
    case Ok(s) => Ok(Split(labels + s.labels, s.absolute))
    case Err(e) => Err(e)
  }

  lemma AfterAfter(a: seq<Text>, b: seq<Text>, r: Result<Split, NameError>)
    ensures After([], r) == r && After(a, After(b, r)) == After(a + b, r)
  {
    if r.Ok? {
      assert a + (b + r.value.labels) == a + b + r.value.labels && [] + r.value.labels == r.value.labels;
    }
  }

  /** Splits `s` at its unescaped dots; `part` is the label read so far. */
  function SplitFrom(part: Text, s: Text): Result<Split, NameError>
    decreases |s|
  {
    if s == [] then Ok(Split(if part == [] then [] else [part], part == []))
    else if s[0] == BACKSLASH then
      if |s| < 2 then Err(IncompleteEscape)
      else if DecimalEscape(s) then SplitFrom(part + s[..4], s[4..])
      else SplitFrom(part + s[..2], s[2..])
    else if s[0] == DOT then After([part], SplitFrom([], s[1..]))
    else SplitFrom(part + s[..1], s[1..])
  }

  /** Scanning past a character or an escape moves it from the unread text to the label. */
  lemma SplitAdvance(name: Text, start: nat, pos: nat)
    requires start <= pos < |name| && name[pos] != DOT
    requires name[pos] == BACKSLASH ==> pos + 1 < |name|
    ensures var n := if name[pos] != BACKSLASH then 1 else if DecimalEscape(name[pos..]) then 4 else 2;
            SplitFrom(name[start..pos], name[pos..]) == SplitFrom(name[start..pos + n], name[pos + n..])
  {
    var n := if name[pos] != BACKSLASH then 1 else if DecimalEscape(name[pos..]) then 4 else 2;
    assert name[start..pos] + name[pos..][..n] == name[start..pos + n] && name[pos..][n..] == name[pos + n..];
  }

  method SplitDomainLabels(name: Text) returns (r: Result<Split, NameError>)
    ensures r == SplitFrom([], name)
  {
    var labels: seq<Text> := [];
    var start, pos := 0, 0;
    assert name[0..0] == [] && name[0..] == name;
    AfterAfter([], [], SplitFrom([], name));
    while pos < |name|
      invariant 0 <= start <= pos <= |name|
      invariant SplitFrom([], name) == After(labels, SplitFrom(name[start..pos], name[pos..]))
    {
      if name[pos] == BACKSLASH {
        if pos + 1 >= |name| {
          return Err(IncompleteEscape);
        }
        SplitAdvance(name, start, pos);
        if pos + 3 < |name| && IsDigit(name[pos + 1]) && IsDigit(name[pos + 2]) && IsDigit(name[pos + 3]) {
          pos := pos + 4;
        } else {
          pos := pos + 2;
        }
      } else if name[pos] == DOT {
        assert name[pos..][1..] == name[pos + 1..] && name[pos + 1..pos + 1] == [];
        AfterAfter(labels, [name[start..pos]], SplitFrom([], name[pos + 1..]));
        labels := labels + [name[start..pos]];
        start := pos + 1;
        pos := pos + 1;
      } else {
        SplitAdvance(name, start, pos);
        pos := pos + 1;
      }
    }
    assert name[pos..] == [] && name[start..pos] == name[start..] && labels + [] == labels;
    var absolute := start == |name|;
    if !absolute {
      labels := labels + [name[start..]];
    }
    r := Ok(Split(labels, absolute));
  }

  // ---- Names ---------------------------------------------------------------

  datatype Label = Label(text: Text, wire: seq<Byte>) {
    predicate Valid() {
      text != [] && Decode(text) == Ok(wire) && |wire| <= 63
    }
  }

  function LabelsLen(labels: seq<Label>): nat {
    if labels == [] then 0 else 1 + |labels[0].wire| + LabelsLen(labels[1..])
  }

  datatype NameRep = NameRep(labels: seq<Label>) {
    /** One length octet per label, its bytes, and the root octet. */
    function WireLen(): nat { LabelsLen(labels) + 1 }

    predicate Valid() {
      (forall l <- labels :: l.Valid()) && WireLen() <= 255
    }
  }

  /** Names as the constructor leaves them; the fields are never set directly. */
  type DomainName = n: NameRep | n.Valid() witness NameRep([])

  const ROOT: DomainName := NameRep([])

  function NewLabel(text: Text): Result<Label, NameError> {
    if text == [] then Err(EmptyLabel)
    else
      match Decode(text)
      case Err(e) => Err(e)
      case Ok(wire) => if |wire| > 63 then Err(LabelTooLong) else Ok(Label(text, wire))
  }

  function NewLabels(parts: seq<Text>): (r: Result<seq<Label>, NameError>)
    ensures r.Ok? ==> forall l <- r.value :: l.Valid()
  {
    if parts == [] then Ok([])
    else
      match NewLabel(parts[0])
      case Err(e) => Err(e)
      case Ok(first) =>
        match NewLabels(parts[1..])
        case Err(e) => Err(e)
        case Ok(more) => Ok([first] + more)
  }

  function ParseName(text: Text): Result<DomainName, NameError> {
    if text == [DOT] then Ok(ROOT)
    else
      match SplitFrom([], text)
      case Err(e) => Err(e)
      case Ok(split) =>
        match NewLabels(split.labels)
        case Err(e) => Err(e)
        case Ok(labels) => if NameRep(labels).WireLen() > 255 then Err(NameTooLong) else Ok(NameRep(labels))
  }

  function AfterLabels(done: seq<Label>, rest: Result<seq<Label>, NameError>): Result<seq<Label>, NameError> {
    match rest
    case Ok(more) => Ok(done + more)
    case Err(e) => Err(e)
  }

  lemma AfterLabelsTwice(a: seq<Label>, b: seq<Label>, r: Result<seq<Label>, NameError>)
    ensures AfterLabels([], r) == r && AfterLabels(a, AfterLabels(b, r)) == AfterLabels(a + b, r)
  {
    if r.Ok? {
      assert a + (b + r.value) == a + b + r.value && [] + r.value == r.value;
    }
  }

  method New(name: Text) returns (r: Result<DomainName, NameError>)
    ensures r == ParseName(name)
  {
    if name == [DOT] {
      return Ok(ROOT);
    }
    var split := SplitDomainLabels(name);
    if split.Err? {
      return Err(split.error);
    }
    var parts := split.value.labels;
    var labels: seq<Label> := [];
    assert parts[0..] == parts;
    AfterLabelsTwice([], [], NewLabels(parts));
    for i := 0 to |parts|
      invariant forall l <- labels :: l.Valid()
      invariant NewLabels(parts) == AfterLabels(labels, NewLabels(parts[i..]))
    {
      assert parts[i..][1..] == parts[i + 1..];
      if parts[i] == [] {
        return Err(EmptyLabel);
      }
      var wire := DecodeLabel(parts[i]);
      if wire.Err? {
        return Err(wire.error);
      }
      if |wire.value| > 63 {
        return Err(LabelTooLong);
      }
      AfterLabelsTwice(labels, [Label(parts[i], wire.value)], NewLabels(parts[i + 1..]));
      labels := labels + [Label(parts[i], wire.value)];
    }
    assert parts[|parts|..] == [] && labels + [] == labels;
    var rep := NameRep(labels);
    if rep.WireLen() > 255 {
      return Err(NameTooLong);
    }
    r := Ok(rep);
  }

  // ---- Text ----------------------------------------------------------------

  /** Every label followed by a dot. */
  function Dotted(labels: seq<Label>): Text {
    if labels == [] then [] else labels[0].text + [DOT] + Dotted(labels[1..])
  }

  function Display(n: DomainName): Text {
    if n.labels == [] then [DOT] else Dotted(n.labels)
  }

  /** A text that decodes as a label ends exactly at the dot that follows it: no escape
      straddles the boundary. */
  lemma {:induction false} SplitLabel(part: Text, text: Text, rest: Text)
    requires Decode(text).Ok?
    ensures SplitFrom(part, text + [DOT] + rest) == After([part + text], SplitFrom([], rest))
    decreases |text|
  {
    var s := text + [DOT] + rest;
    if text == [] {
      assert s[1..] == rest && part + text == part;
    } else {
      var n := if text[0] != BACKSLASH then 1 else if DecimalEscape(text) then 4 else 2;
      assert DecimalEscape(text) <==> DecimalEscape(s) by {
        if |text| == 2 { assert s[2] == DOT; }
        if |text| == 3 { assert s[3] == DOT; }
      }
      assert s[n..] == text[n..] + [DOT] + rest && s[..n] == text[..n];
      assert part + text == part + text[..n] + text[n..];
      SplitLabel(part + text[..n], text[n..], rest);
    }
  }

  lemma {:induction false} SplitDotted(labels: seq<Label>)
    requires forall l <- labels :: l.Valid()
    ensures SplitFrom([], Dotted(labels)) == Ok(Split(seq(|labels|, i requires 0 <= i < |labels| => labels[i].text), true))
    ensures NewLabels(seq(|labels|, i requires 0 <= i < |labels| => labels[i].text)) == Ok(labels)
  {
    var texts := seq(|labels|, i requires 0 <= i < |labels| => labels[i].text);
    if labels != [] {
      var rest := labels[1..];
      assert labels[0] in labels && labels[0] == Label(labels[0].text, labels[0].wire);
      SplitDotted(rest);
      assert texts[1..] == seq(|rest|, i requires 0 <= i < |rest| => rest[i].text);
      assert [texts[0]] + texts[1..] == texts && [labels[0]] + rest == labels;
      SplitLabel([], labels[0].text, Dotted(rest));
      assert [] + labels[0].text == labels[0].text;
    }
  }

  /** Parsing a printed name succeeds and gives the same labels, text and bytes alike. */
  lemma DisplayRoundTrip(n: DomainName)
    ensures ParseName(Display(n)) == Ok(n)
  {
    if n.labels != [] {
      SplitDotted(n.labels);
      var first := n.labels[0];
      assert Display(n)[..|first.text|] == first.text && Display(n)[0] == first.text[0];
    }
  }

  /** Parsing is stable: whatever spelling was accepted, printing and parsing again changes nothing. */
  lemma AcceptedNamesRoundTrip(text: Text)
    requires ParseName(text).Ok?
    ensures var n := ParseName(text).value;
            ParseName(Display(n)) == Ok(n) && n.WireLen() <= 255
            && forall l <- n.labels :: 1 <= |l.wire| <= 63
  {
    var n := ParseName(text).value;
    DisplayRoundTrip(n);
    forall l <- n.labels ensures |l.wire| >= 1 { NonEmptyDecodes(l.text); }
  }

  /** Text without escapes stands for itself, if every byte is graphic and none is a dot; otherwise it is refused. */
  lemma {:induction false} Unescaped(s: Text)
    requires BACKSLASH !in s
    ensures Decode(s) == if forall b <- s :: IsGraphic(b) && b != DOT then Ok(s) else Err(InvalidCharacter)
  {
    if s != [] {
      Unescaped(s[1..]);
      assert s == [s[0]] + s[1..];
    }
  }

  lemma NonEmptyDecodes(s: Text)
    requires s != [] && Decode(s).Ok?
    ensures |Decode(s).value| >= 1
  {}

  lemma LabelSizes(n: DomainName)
    ensures forall l <- n.labels :: 1 <= |l.wire| <= 63
  {
    forall l <- n.labels ensures |l.wire| >= 1 { NonEmptyDecodes(l.text); }
  }

  // ---- Wire forms ----------------------------------------------------------

  /** The contents of one label, and of a name on the wire without its root. */
  type LabelBytes = l: seq<Byte> | 1 <= |l| <= 63 witness [0]
  type WireLabels = seq<LabelBytes>

  function LabelOctets(l: LabelBytes): seq<Byte> {
    [|l|] + l
  }

  function EncodeLabels(labels: WireLabels): seq<Byte> {
    if labels == [] then [0] else LabelOctets(labels[0]) + EncodeLabels(labels[1..])
  }

  lemma EncodeNone()
    ensures EncodeLabels([]) == [0]
  {}

  lemma EncodeOne(l: LabelBytes, more: WireLabels)
    ensures EncodeLabels([l] + more) == [|l|] + l + EncodeLabels(more) && ([l] + more)[1..] == more
  {}

  function LowerAll(s: seq<Byte>): (r: seq<Byte>)
    ensures |r| == |s|
  {
    seq(|s|, i requires 0 <= i < |s| => Lower(s[i]))
  }

  function Contents(n: DomainName): WireLabels {
    LabelSizes(n);
    assert forall i :: 0 <= i < |n.labels| ==> n.labels[i] in n.labels;
    seq(|n.labels|, i requires 0 <= i < |n.labels| => n.labels[i].wire)
  }

  function Canonical(n: DomainName): WireLabels {
    var ls := Contents(n);
    seq(|ls|, i requires 0 <= i < |ls| => LowerAll(ls[i]))
  }

  /** Uncompressed wire form, case kept. */
  function WireForm(n: DomainName): seq<Byte> { EncodeLabels(Contents(n)) }

  /** Canonical wire form (section 6.2 of RFC 4034). */
  function CanonicalForm(n: DomainName): seq<Byte> { EncodeLabels(Canonical(n)) }

  lemma EncodeNext(labels: WireLabels, i: nat)
    requires i < |labels|
    ensures EncodeLabels(labels[i..]) == [|labels[i]|] + labels[i] + EncodeLabels(labels[i + 1..])
  {
    assert labels[i..][1..] == labels[i + 1..];
  }

  method WriteWire(n: DomainName, buf: Buffer)
    modifies buf
    ensures buf.bytes == old(buf.bytes) + WireForm(n)
  {
    ghost var all := Contents(n);
    assert all[0..] == all;
    for i := 0 to |n.labels|
      invariant buf.bytes + EncodeLabels(all[i..]) == old(buf.bytes) + WireForm(n)
    {
      EncodeNext(all, i);
      var bytes := n.labels[i].wire;
      assert bytes == all[i];
      Regroup(buf.bytes, [|bytes|], bytes, EncodeLabels(all[i + 1..]));
      buf.Push(|bytes|);
      buf.Extend(bytes);
    }
    buf.Push(0);
  }

  method PushLowered(bytes: seq<Byte>, buf: Buffer)
    modifies buf
    ensures buf.bytes == old(buf.bytes) + LowerAll(bytes)
  {
    for j := 0 to |bytes|
      invariant buf.bytes == old(buf.bytes) + LowerAll(bytes)[..j]
    {
      buf.Push(Lower(bytes[j]));
    }
  }

  lemma CanonicalAt(n: DomainName, i: nat)
    requires i < |n.labels|
    ensures |Canonical(n)| == |n.labels| && |n.labels[i].wire| <= 63 && Canonical(n)[i] == LowerAll(n.labels[i].wire)
  {
    LabelSizes(n);
    assert n.labels[i] in n.labels;
  }

  method WriteWireCanonical(n: DomainName, buf: Buffer)
    modifies buf
    ensures buf.bytes == old(buf.bytes) + CanonicalForm(n)
  {
    ghost var all := Canonical(n);
    assert all[0..] == all;
    for i := 0 to |n.labels|
      invariant buf.bytes + EncodeLabels(all[i..]) == old(buf.bytes) + CanonicalForm(n)
    {
      EncodeNext(all, i);
      CanonicalAt(n, i);
      var bytes := n.labels[i].wire;
      Regroup(buf.bytes, [|bytes|], all[i], EncodeLabels(all[i + 1..]));
      buf.Push(|bytes|);
      PushLowered(bytes, buf);
    }
    buf.Push(0);
  }

  /** `write_wire` emits exactly `wire_len` bytes. */
  lemma {:induction false} WireFormLength(n: DomainName)
    ensures |WireForm(n)| == |CanonicalForm(n)| == n.WireLen() <= 255
  {
    EncodedLength(n.labels, Contents(n));
    EncodedLength(n.labels, Canonical(n));
  }

  lemma {:induction false} EncodedLength(labels: seq<Label>, ls: WireLabels)
    requires |ls| == |labels| && forall i :: 0 <= i < |ls| ==> |ls[i]| == |labels[i].wire|
    ensures |EncodeLabels(ls)| == LabelsLen(labels) + 1
  {
    if ls != [] {
      EncodedLength(labels[1..], ls[1..]);
    }
  }

  /** Length-prefixed labels decode uniquely, whatever follows them. */
  lemma {:induction false} EncodeLabelsUnique(a: WireLabels, b: WireLabels, x: seq<Byte>, y: seq<Byte>)
    requires EncodeLabels(a) + x == EncodeLabels(b) + y
    ensures a == b && x == y
    decreases |a|
  {
    var s, t := EncodeLabels(a) + x, EncodeLabels(b) + y;
    if a == [] || b == [] {
      assert s[0] == t[0];
      assert a == b;
      assert s[1..] == x && t[1..] == y;
    } else {
      var n := |a[0]|;
      assert s[0] == n && t[0] == |b[0]|;
      assert s[1..1 + n] == a[0] && t[1..1 + n] == b[0];
      assert s[1 + n..] == EncodeLabels(a[1..]) + x && t[1 + n..] == EncodeLabels(b[1..]) + y;
      EncodeLabelsUnique(a[1..], b[1..], x, y);
      assert a == [a[0]] + a[1..] && b == [b[0]] + b[1..];
    }
  }

  // ---- Comparison and hashing ----------------------------------------------

  /** The code's equality: text by text, byte by byte, ignoring ASCII case (RFC 4343). */
  predicate SameLabel(a: seq<Byte>, b: seq<Byte>) {
    |a| == |b| && forall i :: 0 <= i < |a| ==> Lower(a[i]) == Lower(b[i])
  }

  predicate SameName(a: DomainName, b: DomainName) {
    |a.labels| == |b.labels| && forall i :: 0 <= i < |a.labels| ==> SameLabel(a.labels[i].wire, b.labels[i].wire)
  }

  lemma SameLabelLowers(a: seq<Byte>, b: seq<Byte>)
    ensures SameLabel(a, b) <==> LowerAll(a) == LowerAll(b)
  {
    if LowerAll(a) == LowerAll(b) {
      assert |LowerAll(a)| == |a| && |LowerAll(b)| == |b|;
      forall i | 0 <= i < |a| ensures Lower(a[i]) == Lower(b[i]) {
        assert LowerAll(a)[i] == LowerAll(b)[i];
      }
    }
  }

  lemma SameNameCanonical(a: DomainName, b: DomainName)
    ensures SameName(a, b) <==> Canonical(a) == Canonical(b)
  {
    forall i | 0 <= i < |a.labels| && i < |b.labels|
      ensures SameLabel(a.labels[i].wire, b.labels[i].wire) <==> Canonical(a)[i] == Canonical(b)[i]
    {
      SameLabelLowers(a.labels[i].wire, b.labels[i].wire);
    }
    if Canonical(a) == Canonical(b) {
      assert |a.labels| == |Canonical(a)| == |Canonical(b)| == |b.labels|;
    }
  }

  /** Two names are equal exactly when their canonical wire forms are the same bytes. */
  lemma EqualIffCanonicalForm(a: DomainName, b: DomainName)
    ensures SameName(a, b) <==> CanonicalForm(a) == CanonicalForm(b)
  {
    SameNameCanonical(a, b);
    if CanonicalForm(a) == CanonicalForm(b) {
      EncodeLabelsUnique(Canonical(a), Canonical(b), [], []);
    }
  }

  /** What one name feeds to a hasher: counts as words, bytes as bytes. */
  datatype HashInput = Count(n: nat) | Octet(b: Byte)

  function Octets(s: seq<Byte>): seq<HashInput> {
    seq(|s|, i requires 0 <= i < |s| => Octet(s[i]))
  }

  function LabelsFed(labels: WireLabels): seq<HashInput> {
    if labels == [] then []
    else [Count(|labels[0]|)] + Octets(labels[0]) + LabelsFed(labels[1..])
  }

  method FeedLowered(bytes: seq<Byte>) returns (fed: seq<HashInput>)
    ensures fed == Octets(LowerAll(bytes))
  {
    fed := [];
    for j := 0 to |bytes|
      invariant fed == Octets(LowerAll(bytes))[..j]
    {
      fed := fed + [Octet(Lower(bytes[j]))];
    }
  }

  /** Feeds a name to a hasher, here a log of what was written. */
  method HashName(n: DomainName) returns (fed: seq<HashInput>)
    ensures fed == [Count(|n.labels|)] + LabelsFed(Canonical(n))
  {
    fed := [Count(|n.labels|)];
    ghost var all := Canonical(n);
    assert all[0..] == all;
    for i := 0 to |n.labels|
      invariant fed + LabelsFed(all[i..]) == [Count(|n.labels|)] + LabelsFed(all)
    {
      CanonicalAt(n, i);
      assert all[i..][1..] == all[i + 1..];
      var bytes := n.labels[i].wire;
      var more := FeedLowered(bytes);
      Regroup(fed, [Count(|bytes|)], more, LabelsFed(all[i + 1..]));
      fed := fed + [Count(|bytes|)] + more;
    }
  }

  /** Names feed a hasher the same sequence exactly when they are equal. */
  lemma EqualIffSameHashInput(a: DomainName, b: DomainName)
    ensures SameName(a, b) <==>
            [Count(|a.labels|)] + LabelsFed(Canonical(a)) == [Count(|b.labels|)] + LabelsFed(Canonical(b))
  {
    SameNameCanonical(a, b);
    var x, y := LabelsFed(Canonical(a)), LabelsFed(Canonical(b));
    if [Count(|a.labels|)] + x == [Count(|b.labels|)] + y {
      assert ([Count(|a.labels|)] + x)[0] == ([Count(|b.labels|)] + y)[0];
      assert x == ([Count(|a.labels|)] + x)[1..] == ([Count(|b.labels|)] + y)[1..] == y;
      FedUnique(Canonical(a), Canonical(b));
    }
  }

  lemma {:induction false} FedUnique(a: WireLabels, b: WireLabels)
    requires |a| == |b| && LabelsFed(a) == LabelsFed(b)
    ensures a == b
  {
    if a != [] {
      var s, n := LabelsFed(a), |a[0]|;
      assert s[0] == Count(n) && s[0] == Count(|b[0]|);
      assert s[1..1 + n] == Octets(a[0]) && s[1..1 + n] == Octets(b[0]);
      forall i | 0 <= i < n ensures a[0][i] == b[0][i] {
        assert s[1..1 + n][i] == Octets(a[0])[i] == Octets(b[0])[i];
      }
      assert a[0] == b[0];
      assert s[1 + n..] == LabelsFed(a[1..]) && s[1 + n..] == LabelsFed(b[1..]);
      FedUnique(a[1..], b[1..]);
      assert a == [a[0]] + a[1..] && b == [b[0]] + b[1..];
    }
  }
}
