/** TSIG records (RFC 8945): building, parsing, and verifying a signed response.
    The HMAC is an arbitrary function of the key; verification accepts exactly its output. */
module Tsig {
  import opened Bytes
  import opened Domain
  import opened Records
  import opened Update
  import opened Utf8

  const TSIG_TYPE: U16 := 250
  const FUDGE: U16 := 300

  type U64 = n: int | 0 <= n < 0x1_0000_0000_0000_0000

  datatype TsigError = TsigError

  datatype Algorithm = HmacSha256 | HmacSha512 | HmacSha1

  function MacLength(a: Algorithm): nat {
    match a
    case HmacSha256 => 32
    case HmacSha512 => 64
    case HmacSha1 => 20
  }

  datatype TsigKey = TsigKey(name: DomainName, algorithm: Algorithm, hmac: seq<Byte> -> seq<Byte>) {
    ghost predicate Valid() {
      forall m :: |hmac(m)| == MacLength(algorithm)
    }

    predicate Verify(message: seq<Byte>, mac: seq<Byte>) { mac == hmac(message) }
  }

  datatype TsigRecord = TsigRecord(keyName: DomainName, algorithm: Algorithm, timeSigned: U48, fudge: U16,
                                   mac: seq<Byte>, originalId: U16, error: U16, otherData: seq<Byte>, wire: seq<Byte>)

  // ---- Plain names ---------------------------------------------------------

  /** Text that stands for itself: graphic ASCII without dot or backslash. */
  predicate Plain(s: Text) {
    forall b <- s :: IsGraphic(b) && b != DOT && b != BACKSLASH
  }

  lemma {:induction false} PlainDecodes(s: Text)
    requires Plain(s)
    ensures Decode(s) == Ok(s)
  {
    if s != [] {
      assert s[0] in s;
      forall b | b in s[1..] ensures IsGraphic(b) && b != DOT && b != BACKSLASH {
        assert b in s;
      }
      PlainDecodes(s[1..]);
      assert [s[0]] + s[1..] == s;
    }
  }

  predicate PlainLabels(ls: WireLabels) {
    forall i :: 0 <= i < |ls| ==> Plain(ls[i])
  }

  predicate PlainName(n: DomainName) {
    PlainLabels(Contents(n))
  }

  /** What every supported algorithm name starts with. */
  const HMAC_SHA: Text := Ascii("hmac-sha")

  function AlgorithmText(a: Algorithm): (s: Text)
    ensures 1 <= |s| <= 63 && Plain(s)
  {
    match a
    case HmacSha256 => HMAC_SHA + Ascii("256")
    case HmacSha512 => HMAC_SHA + Ascii("512")
    case HmacSha1 => HMAC_SHA + Ascii("1")
  }

  function AlgorithmName(a: Algorithm): DomainName {
    PlainDecodes(AlgorithmText(a));
    assert LabelsLen([Label(AlgorithmText(a), AlgorithmText(a))]) == 1 + |AlgorithmText(a)| + LabelsLen([]);
    NameRep([Label(AlgorithmText(a), AlgorithmText(a))])
  }

  // ---- Building ------------------------------------------------------------

  /** The TSIG variables of section 4.3.3 of RFC 8945. */
  function Variables(key: TsigKey, time: U48, fudge: U16, error: U16, other: seq<Byte>): seq<Byte> {
    CanonicalForm(key.name) + (Be16(CLASS_ANY) + Be32(0)) + CanonicalForm(AlgorithmName(key.algorithm))
    + (Be48(time) + Be16(fudge) + Be16(error) + Be16(|other| % 0x1_0000)) + other
  }

  function PriorPart(prior: Option<seq<Byte>>): seq<Byte> {
    match prior
    case None => []
    case Some(mac) => Be16(|mac| % 0x1_0000) + mac
  }

  function MacInput(prior: Option<seq<Byte>>, message: seq<Byte>, variables: seq<Byte>): seq<Byte> {
    PriorPart(prior) + message + variables
  }

  /** RDATA of section 4.2 of RFC 8945. */
  function TsigRdata(a: Algorithm, time: U48, fudge: U16, mac: seq<Byte>, id: U16, error: U16, other: seq<Byte>): seq<Byte> {
    CanonicalForm(AlgorithmName(a)) + (Be48(time) + Be16(fudge) + Be16(|mac| % 0x1_0000)) + mac
    + (Be16(id) + Be16(error) + Be16(|other| % 0x1_0000)) + other
  }

  function TsigRR(name: DomainName, rdata: seq<Byte>): WireRR {
    WireRR(Canonical(name), TSIG_TYPE, CLASS_ANY, 0, rdata)
  }

  function MessageId(message: seq<Byte>): U16 {
    if |message| >= 2 then ReadBe16(message) else 0
  }

  /** The MAC a key computes for a message signed at `time`. */
  function MacFor(key: TsigKey, message: seq<Byte>, time: U48, prior: Option<seq<Byte>>): seq<Byte> {
    key.hmac(MacInput(prior, message, Variables(key, time, FUDGE, 0, [])))
  }

  function BuiltRdata(key: TsigKey, message: seq<Byte>, time: U48, prior: Option<seq<Byte>>): seq<Byte> {
    TsigRdata(key.algorithm, time, FUDGE, MacFor(key, message, time, prior), MessageId(message), 0, [])
  }

  /** Can a TSIG record be built: the time fits 48 bits and a prior MAC its 16-bit length. */
  predicate Signable(time: U64, prior: Option<seq<Byte>>) {
    time < 0x1_0000_0000_0000 && (prior.Some? ==> |prior.value| <= 0xFFFF)
  }

  function Built(key: TsigKey, message: seq<Byte>, time: U48, prior: Option<seq<Byte>>): TsigRecord {
    TsigRecord(key.name, key.algorithm, time, FUDGE, MacFor(key, message, time, prior), MessageId(message), 0, [],
               RROctets(TsigRR(key.name, BuiltRdata(key, message, time, prior))))
  }

  method WriteVariables(key: TsigKey, time: U48, fudge: U16, error: U16, other: seq<Byte>, buf: Buffer)
    modifies buf
    ensures buf.bytes == old(buf.bytes) + Variables(key, time, fudge, error, other)
  {
    hide CanonicalForm, AlgorithmName, Be16, Be32, Be48;
    WriteWireCanonical(key.name, buf);
    buf.Extend(Be16(CLASS_ANY));
    buf.Extend(Be32(0));
    WriteWireCanonical(AlgorithmName(key.algorithm), buf);
    buf.Extend(Be48(time));
    buf.Extend(Be16(fudge));
    buf.Extend(Be16(error));
    buf.Extend(Be16(|other| % 0x1_0000));
    buf.Extend(other);
  }

  method WriteRdata(a: Algorithm, time: U48, mac: seq<Byte>, id: U16, buf: Buffer)
    modifies buf
    ensures buf.bytes == old(buf.bytes) + TsigRdata(a, time, FUDGE, mac, id, 0, [])
  {
    hide CanonicalForm, AlgorithmName, Be16, Be48;
    WriteWireCanonical(AlgorithmName(a), buf);
    buf.Extend(Be48(time));
    buf.Extend(Be16(FUDGE));
    buf.Extend(Be16(|mac| % 0x1_0000));
    buf.Extend(mac);
    buf.Extend(Be16(id));
    buf.Extend(Be16(0));
    buf.Extend(Be16(0));
  }

  method WriteMacInput(prior: Option<seq<Byte>>, message: seq<Byte>, buf: Buffer)
    modifies buf
    ensures buf.bytes == old(buf.bytes) + PriorPart(prior) + message
  {
    hide Be16;
    if prior.Some? {
      buf.Extend(Be16(|prior.value| % 0x1_0000));
      buf.Extend(prior.value);
    }
    buf.Extend(message);
  }

  /** Writes the whole record, patching RDLENGTH once the data is there. */
  method WriteRecord(key: TsigKey, time: U48, mac: seq<Byte>, id: U16, wire: Buffer)
    requires wire.bytes == []
    modifies wire
    ensures wire.bytes == RROctets(TsigRR(key.name, TsigRdata(key.algorithm, time, FUDGE, mac, id, 0, [])))
  {
    hide Canonical, EncodeLabels, TsigRdata, Be16, Be32;
    WriteWireCanonical(key.name, wire);
    WriteFixed(TSIG_TYPE, CLASS_ANY, 0, wire);
    ghost var head := wire.bytes;
    var start := |wire.bytes|;
    wire.Extend([0, 0]);
    WriteRdata(key.algorithm, time, mac, id, wire);
    ghost var rdata := TsigRdata(key.algorithm, time, FUDGE, mac, id, 0, []);
    assert wire.bytes == head + [0, 0] + rdata;
    var len := |wire.bytes| - start - 2;
    assert wire.bytes[..start] == head && wire.bytes[start + 2..] == rdata;
    wire.bytes := wire.bytes[..start] + Be16(len % 0x1_0000) + wire.bytes[start + 2..];
  }

  method New(key: TsigKey, message: seq<Byte>, time: U64, prior: Option<seq<Byte>>)
    returns (r: Result<TsigRecord, TsigError>)
    ensures r.Ok? <==> time < 0x1_0000_0000_0000 && (prior.Some? ==> |prior.value| <= 0xFFFF)
    ensures r.Ok? ==> r.value == Built(key, message, time, prior)
  {
    hide Be16, Be32, Variables, TsigRdata, RROctets, PriorPart;
    if time >= 0x1_0000_0000_0000 {
      return Err(TsigError);
    }
    if prior.Some? && |prior.value| > 0xFFFF {
      return Err(TsigError);
    }
    var id := MessageId(message);
    var input := new Buffer();
    WriteMacInput(prior, message, input);
    WriteVariables(key, time, FUDGE, 0, [], input);
    assert input.bytes == MacInput(prior, message, Variables(key, time, FUDGE, 0, []));
    var mac := key.hmac(input.bytes);
    var wire := new Buffer();
    WriteRecord(key, time, mac, id, wire);
    r := Ok(TsigRecord(key.name, key.algorithm, time, FUDGE, mac, id, 0, [], wire.bytes));
  }

  // ---- Parsing -------------------------------------------------------------

  datatype NameAt = NameAt(labels: WireLabels, end: nat)

  /** Reads an uncompressed name at `pos`; labels must be UTF-8. */
  function ReadLabels(data: seq<Byte>, pos: nat): (r: Result<NameAt, TsigError>)
    decreases |data| - pos
    ensures r.Ok? ==> pos < r.value.end <= |data|
  {
    if pos >= |data| then Err(TsigError)
    else
      var len := data[pos] as int;
      if len == 0 then Ok(NameAt([], pos + 1))
      else if len > 63 || pos + 1 + len > |data| || !ValidUtf8(data[pos + 1..pos + 1 + len]) then Err(TsigError)
      else
        match ReadLabels(data, pos + 1 + len)
        case Err(e) => Err(e)
        case Ok(more) => Ok(NameAt([data[pos + 1..pos + 1 + len]] + more.labels, more.end))
  }

  function DottedBytes(ls: WireLabels): Text {
    if ls == [] then [] else ls[0] + [DOT] + DottedBytes(ls[1..])
  }

  /** Labels joined by dots, with a final dot. */
  function NameText(ls: WireLabels): Text {
    if ls == [] then [DOT] else DottedBytes(ls)
  }

  /** Labels read before the rest of a name. */
  function Before(labels: WireLabels, r: Result<NameAt, TsigError>): Result<NameAt, TsigError> {
    match r
    case Ok(n) => Ok(NameAt(labels + n.labels, n.end))
    case Err(e) => Err(e)
  }

  lemma BeforeBefore(a: WireLabels, b: WireLabels, r: Result<NameAt, TsigError>)
    ensures Before([], r) == r && Before(a, Before(b, r)) == Before(a + b, r)
  {
    if r.Ok? {
      assert a + (b + r.value.labels) == a + b + r.value.labels && [] + r.value.labels == r.value.labels;
    }
  }

  method ReadWireName(data: seq<Byte>, start: nat) returns (r: Result<Text, TsigError>, pos: nat)
    ensures r.Ok? <==> ReadLabels(data, start).Ok?
    ensures r.Ok? ==> r.value == NameText(ReadLabels(data, start).value.labels) && pos == ReadLabels(data, start).value.end
  {
    hide ValidUtf8, NameText;
    var labels: WireLabels := [];
    pos := start;
    BeforeBefore([], [], ReadLabels(data, start));
    while true
      invariant ReadLabels(data, start) == Before(labels, ReadLabels(data, pos))
      decreases |data| - pos
    {
      if pos >= |data| {
        return Err(TsigError), pos;
      }
      var len := data[pos] as int;
      if len == 0 {
        pos := pos + 1;
        break;
      }
      if len > 63 || pos + 1 + len > |data| || !ValidUtf8(data[pos + 1..pos + 1 + len]) {
        return Err(TsigError), pos;
      }
      BeforeBefore(labels, [data[pos + 1..pos + 1 + len]], ReadLabels(data, pos + 1 + len));
      labels := labels + [data[pos + 1..pos + 1 + len]];
      pos := pos + 1 + len;
    }
    assert labels + [] == labels;
    r := Ok(NameText(labels));
  }

  function AlgorithmFromText(t: Text): Option<Algorithm> {
    if LowerAll(t) == AlgorithmText(HmacSha256) + [DOT] then Some(HmacSha256)
    else if LowerAll(t) == AlgorithmText(HmacSha512) + [DOT] then Some(HmacSha512)
    else if LowerAll(t) == AlgorithmText(HmacSha1) + [DOT] then Some(HmacSha1)
    else None
  }

  function U16At(w: seq<Byte>, pos: nat): U16
    requires pos + 2 <= |w|
  {
    ReadBe16(w[pos..])
  }

  /** The RDATA from the time field on: everything after the algorithm name. */
  function ParseTail(name: DomainName, a: Algorithm, w: seq<Byte>, p: nat): Result<TsigRecord, TsigError> {
    if p + 10 > |w| then Err(TsigError)
    else
      var size := U16At(w, p + 8) as int;
      var q := p + 10 + size;
      if q + 6 > |w| || q + 6 + U16At(w, q + 4) as int != |w| then Err(TsigError)
      else Ok(TsigRecord(name, a, ReadBe48(w[p..]), U16At(w, p + 6), w[p + 10..q], U16At(w, q), U16At(w, q + 2), w[q + 6..], w))
  }

  function ParseTsig(w: seq<Byte>): Result<TsigRecord, TsigError> {
    match ReadLabels(w, 0)
    case Err(_) => Err(TsigError)
    case Ok(owner) =>
      match ParseName(NameText(owner.labels))
      case Err(_) => Err(TsigError)
      case Ok(name) =>
        var p := owner.end;
        if p + 10 > |w| || U16At(w, p) != TSIG_TYPE || U16At(w, p + 2) != CLASS_ANY || ReadBe32(w[p + 4..]) != 0
           || p + 10 + U16At(w, p + 8) as int != |w| then Err(TsigError)
        else
          match ReadLabels(w, p + 10)
          case Err(_) => Err(TsigError)
          case Ok(algorithm) =>
            match AlgorithmFromText(NameText(algorithm.labels))
            case None => Err(TsigError)
            case Some(a) => ParseTail(name, a, w, algorithm.end)
  }

  method ParseFromWire(wire: seq<Byte>) returns (r: Result<TsigRecord, TsigError>)
    ensures r == ParseTsig(wire)
  {
    hide ReadLabels, ParseName, NameText, ReadBe16, ReadBe32, ReadBe48, AlgorithmFromText;
    var owner, pos := ReadWireName(wire, 0);
    if owner.Err? {
      return Err(TsigError);
    }
    var keyName := Domain.New(owner.value);
    if keyName.Err? {
      return Err(TsigError);
    }
    if pos + 2 > |wire| || U16At(wire, pos) != TSIG_TYPE {
      return Err(TsigError);
    }
    pos := pos + 2;
    if pos + 2 > |wire| || U16At(wire, pos) != CLASS_ANY {
      return Err(TsigError);
    }
    pos := pos + 2;
    if pos + 4 > |wire| || ReadBe32(wire[pos..]) != 0 {
      return Err(TsigError);
    }
    pos := pos + 4;
    if pos + 2 > |wire| {
      return Err(TsigError);
    }
    var rdataEnd := pos + 2 + U16At(wire, pos) as int;
    pos := pos + 2;
    if rdataEnd != |wire| {
      return Err(TsigError);
    }
    var algorithmText;
    algorithmText, pos := ReadWireName(wire, pos);
    if algorithmText.Err? {
      return Err(TsigError);
    }
    var algorithm := AlgorithmFromText(algorithmText.value);
    if algorithm.None? {
      return Err(TsigError);
    }
    r := ParseRest(wire, pos, keyName.value, algorithm.value);
  }

  method ParseRest(wire: seq<Byte>, start: nat, keyName: DomainName, algorithm: Algorithm)
    returns (r: Result<TsigRecord, TsigError>)
    ensures r == ParseTail(keyName, algorithm, wire, start)
  {
    hide ReadBe16, ReadBe48;
    var pos := start;
    if pos + 6 > |wire| {
      return Err(TsigError);
    }
    var timeSigned := ReadBe48(wire[pos..]);
    pos := pos + 6;
    if pos + 2 > |wire| {
      return Err(TsigError);
    }
    var fudge := U16At(wire, pos);
    pos := pos + 2;
    if pos + 2 > |wire| {
      return Err(TsigError);
    }
    var macSize := U16At(wire, pos) as int;
    pos := pos + 2;
    if pos + macSize > |wire| {
      return Err(TsigError);
    }
    var mac := wire[pos..pos + macSize];
    pos := pos + macSize;
    if pos + 6 > |wire| {
      return Err(TsigError);
    }
    var originalId, error, otherLen := U16At(wire, pos), U16At(wire, pos + 2), U16At(wire, pos + 4) as int;
    pos := pos + 6;
    if pos + otherLen != |wire| {
      return Err(TsigError);
    }
    r := Ok(TsigRecord(keyName, algorithm, timeSigned, fudge, mac, originalId, error, wire[pos..], wire));
  }

  // ---- Verifying -----------------------------------------------------------

  predicate WithinFudge(rec: TsigRecord, now: U64) {
    -(rec.fudge as int) <= now as int - rec.timeSigned as int <= rec.fudge as int
  }

  /** The conditions a response must meet (section 5 of RFC 8945). */
  predicate Verifies(key: TsigKey, message: seq<Byte>, rec: TsigRecord, requestMac: seq<Byte>, now: U64) {
    && SameName(rec.keyName, key.name)
    && rec.algorithm == key.algorithm
    && |message| >= 12
    && rec.originalId == ReadBe16(message)
    && WithinFudge(rec, now)
    && rec.mac == key.hmac(MacInput(Some(requestMac), message,
                                    Variables(key, rec.timeSigned, rec.fudge, rec.error, rec.otherData)))
  }

  method VerifyResponse(key: TsigKey, message: seq<Byte>, rec: TsigRecord, requestMac: seq<Byte>, now: U64)
    returns (r: Result<(), TsigError>)
    ensures r.Ok? <==> Verifies(key, message, rec, requestMac, now)
  {
    hide PriorPart, SameName, ReadBe16, Variables;
    if !SameName(rec.keyName, key.name) || rec.algorithm != key.algorithm {
      return Err(TsigError);
    }
    if |message| < 12 || rec.originalId != ReadBe16(message) {
      return Err(TsigError);
    }
    if !WithinFudge(rec, now) {
      return Err(TsigError);
    }
    var input := new Buffer();
    WriteMacInput(Some(requestMac), message, input);
    WriteVariables(key, rec.timeSigned, rec.fudge, rec.error, rec.otherData, input);
    assert input.bytes == MacInput(Some(requestMac), message,
                                   Variables(key, rec.timeSigned, rec.fudge, rec.error, rec.otherData));
    r := if key.Verify(input.bytes, rec.mac) then Ok(()) else Err(TsigError);
  }
}
