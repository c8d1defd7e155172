/** Authentication of control-channel messages: the signed request, the bytes an HMAC covers, and the
    checks made on a reply. */
module IscAuth {
  import opened Bytes
  import opened Utf8
  import opened Isc
  import opened Records
  import opened Tsig
  import Base64
  import Decimal

  const HMAC_BUF_SIZE := 89
  const EXPIRY_SECS := 60
  const MAX_U64 := 0xFFFF_FFFF_FFFF_FFFF

  const AUTH: Key := Ascii("_auth")
  const CTRL: Key := Ascii("_ctrl")
  const DATA: Key := Ascii("_data")
  const HSHA: Key := Ascii("hsha")
  const TYPE: Key := Ascii("type")

  const EXP: Key := Ascii("_exp")
  const NONCE: Key := Ascii("_nonce")
  const RPL: Key := Ascii("_rpl")
  const SER: Key := Ascii("_ser")
  const TIM: Key := Ascii("_tim")

  lemma KeysAscend()
    ensures Less(AUTH, CTRL) && Less(CTRL, DATA)
    ensures Less(EXP, SER) && Less(SER, TIM) && Less(EXP, TIM)
    ensures Less(NONCE, SER) && Less(EXP, NONCE)
  {
    assert AUTH[1..][0] == 97 && CTRL[1..][0] == 99 && DATA[1..][0] == 100;
    assert EXP[1..][0] == 101 && NONCE[1..][0] == 110 && SER[1..][0] == 115 && TIM[1..][0] == 116;
  }

  lemma ControlKeysDiffer()
    ensures EXP != NONCE && EXP != RPL && EXP != SER && EXP != TIM && NONCE != RPL && NONCE != SER && NONCE != TIM
    ensures RPL != SER && RPL != TIM && SER != TIM
  {
    assert EXP[1] == 101 && NONCE[1] == 110 && RPL[1] == 114 && SER[1] == 115 && TIM[1] == 116;
  }

  lemma NamesAreUtf8()
    ensures ValidUtf8(AUTH) && ValidUtf8(CTRL) && ValidUtf8(DATA) && ValidUtf8(HSHA)
  {
    hide ValidUtf8;
    AsciiIsUtf8(AUTH);
    AsciiIsUtf8(CTRL);
    AsciiIsUtf8(DATA);
    AsciiIsUtf8(HSHA);
  }

  // ---- Building a signed request -------------------------------------------

  /** The `_ctrl` table, in key order. */
  function CtrlTable(serial: U32, now: U64, nonce: Option<seq<Byte>>): Entries {
    var fixed := Cons(SER, Str(Decimal.Digits(serial)), Cons(TIM, Str(Decimal.Digits(now)), Nil));
    Cons(EXP, Str(Decimal.Digits((now + EXPIRY_SECS) % (MAX_U64 + 1))),
         if nonce.Some? then Cons(NONCE, Str(nonce.value), fixed) else fixed)
  }

  method BuildCtrlTable(serial: U32, now: U64, nonce: Option<seq<Byte>>) returns (ctrl: Entries)
    ensures ctrl == CtrlTable(serial, now, nonce)
  {
    hide Less;
    KeysAscend();
    ctrl := Insert(Nil, SER, Str(Decimal.Digits(serial)));
    InsertLast(ctrl, TIM, Str(Decimal.Digits(now)));
    ctrl := Insert(ctrl, TIM, Str(Decimal.Digits(now)));
    ghost var fixed := ctrl;
    var exp := Str(Decimal.Digits((now + EXPIRY_SECS) % (MAX_U64 + 1)));
    InsertFirst(ctrl, EXP, exp);
    ctrl := Insert(ctrl, EXP, exp);
    if nonce.Some? {
      LessTrichotomy(EXP, NONCE);
      InsertFirst(fixed, NONCE, Str(nonce.value));
      ctrl := Insert(ctrl, NONCE, Str(nonce.value));
    }
  }

  /** What a request's HMAC covers, before encoding. */
  function Body(ctrl: Entries, data: Entries): Entries {
    Cons(CTRL, Table(ctrl), Cons(DATA, Table(data), Nil))
  }

  function AlgorithmByte(a: Algorithm): Byte {
    match a
    case HmacSha1 => 0xA1
    case HmacSha256 => 0xA3
    case HmacSha512 => 0xA5
  }

  function Zeros(n: nat): seq<Byte> { seq(n, _ => 0) }

  function Unpadded(key: TsigKey, input: seq<Byte>): seq<Byte> {
    [AlgorithmByte(key.algorithm)] + Base64.Encode(key.hmac(input))
  }

  /** The `hsha` value that authenticates `input`: algorithm, HMAC in base64, zeros up to 89 octets. */
  ghost function AuthValue(key: TsigKey, input: seq<Byte>): (r: seq<Byte>)
    requires key.Valid()
    ensures |r| == HMAC_BUF_SIZE && !ValidUtf8(r)
  {
    Unpadded(key, input) + Zeros(HMAC_BUF_SIZE - |Unpadded(key, input)|)
  }

  /** Inserting `_ctrl` and `_data` into a map that holds at most `_auth` puts them after it, in that order. */
  lemma BodyInserts(auth: Entries, ctrl: Entries, data: Entries)
    requires auth.Nil? || (auth.key == AUTH && auth.rest.Nil?)
    ensures Insert(Insert(auth, CTRL, Table(ctrl)), DATA, Table(data)) == Append(auth, Body(ctrl, data))
  {
    hide Less, Insert;
    KeysAscend();
    if auth.Cons? { LessTransitive(AUTH, CTRL, DATA); }
    InsertLast(auth, CTRL, Table(ctrl));
    AfterLater(auth, CTRL, Table(ctrl), DATA);
    InsertLast(Append(auth, Cons(CTRL, Table(ctrl), Nil)), DATA, Table(data));
    AppendNext(auth, CTRL, Table(ctrl), Cons(DATA, Table(data), Nil));
  }

  method SignRndcBody(key: TsigKey, ctrl: Entries, data: Entries) returns (r: Result<seq<Byte>, IscError>)
    requires key.Valid()
    ensures r.Ok? <==> Fits(Body(ctrl, data))
    ensures r.Ok? ==> r.value == AuthValue(key, Octets(Body(ctrl, data)))
  {
    hide Fits, Octets, Insert;
    BodyInserts(Nil, ctrl, data);
    var body := EncodeBody(Insert(Insert(Nil, CTRL, Table(ctrl)), DATA, Table(data)));
    if body.Err? {
      return Err(IscError);
    }
    hide ValidUtf8, Base64.Encode;
    var digest := key.hmac(body.value);
    var buf := new Buffer();
    buf.Push(AlgorithmByte(key.algorithm));
    buf.Extend(Base64.Encode(digest));
    buf.Extend(Zeros(HMAC_BUF_SIZE - |buf.bytes|));
    assert buf.bytes == AuthValue(key, body.value);
    r := Ok(buf.bytes);
  }

  /** A whole request whose HMAC is `auth`. */
  function Signed(auth: seq<Byte>, rest: Entries): Entries {
    Cons(AUTH, Table(AuthTable(auth)), rest)
  }

  function AuthTable(auth: seq<Byte>): Entries { Cons(HSHA, Bin(auth), Nil) }

  lemma AuthTableShape(auth: seq<Byte>)
    requires |auth| == HMAC_BUF_SIZE
    ensures Fits(AuthTable(auth)) && |Octets(AuthTable(auth))| == 10 + HMAC_BUF_SIZE
    ensures KeysUtf8(AuthTable(auth)) && Height(AuthTable(auth)) == 0 && Canonical(AuthTable(auth))
    ensures !ValidUtf8(auth) ==> Norm(AuthTable(auth)) == AuthTable(auth)
    ensures BuildOnto(Nil, AuthTable(auth)) == AuthTable(auth)
  {
    hide ValidUtf8, EntryOctets, Less;
    NamesAreUtf8();
    EntrySize(HSHA, TAG_BINARY, auth);
    assert NestedCanonical(Nil);
    assert NestedCanonical(AuthTable(auth));
  }

  lemma EntrySize(k: Key, tag: Byte, payload: seq<Byte>)
    ensures |EntryOctets(k, tag, payload)| == 6 + |k| + |payload|
  {}

  ghost function Request(key: TsigKey, ctrl: Entries, data: Entries): Entries
    requires key.Valid()
  {
    Signed(AuthValue(key, Octets(Body(ctrl, data))), Body(ctrl, data))
  }

  /** The frame a command is sent in. */
  method FrameRequest(key: TsigKey, ctrl: Entries, data: Entries) returns (r: Result<seq<Byte>, IscError>)
    requires key.Valid()
    ensures r.Ok? <==> Fits(Body(ctrl, data)) && |MessageOctets(Request(key, ctrl, data))| < 0x1_0000_0000
    ensures r.Ok? ==> var payload := MessageOctets(Request(key, ctrl, data)); r.value == Be32(|payload|) + payload
  {
    var auth := SignRndcBody(key, ctrl, data);
    if auth.Err? {
      return Err(IscError);
    }
    var msg := Insert(Nil, AUTH, Table(Insert(Nil, HSHA, Bin(auth.value))));
    BodyInserts(msg, ctrl, data);
    msg := Insert(msg, CTRL, Table(ctrl));
    msg := Insert(msg, DATA, Table(data));
    assert msg == Request(key, ctrl, data);
    hide *;
    SignedFits(auth.value, Body(ctrl, data));
    r := FrameMessage(msg);
  }

  lemma SignedFits(auth: seq<Byte>, rest: Entries)
    requires |auth| == HMAC_BUF_SIZE
    ensures Fits(Signed(auth, rest)) <==> Fits(rest)
    ensures KeysUtf8(Signed(auth, rest)) <==> KeysUtf8(rest)
    ensures Height(Signed(auth, rest)) == Max(1, Height(rest))
  {
    hide ValidUtf8, AuthTable, Fits, KeysUtf8, Height, Octets, Norm, Canonical;
    NamesAreUtf8();
    AuthTableShape(auth);
    TableEntry(AUTH, AuthTable(auth), rest);
  }

  // ---- Receiving -----------------------------------------------------------

  /** Everything after the first entry, if that entry's key is `_auth`. */
  function HmacInput(payload: seq<Byte>): Option<seq<Byte>> {
    if |payload| <= 4 then None
    else
      var e := ReadEntry(payload[4..]);
      if e.Entry? && e.key == AUTH then Some(payload[4 + e.size..]) else None
  }

  lemma Inside(payload: seq<Byte>, i: nat, j: nat)
    requires i + j <= |payload|
    ensures payload[i..][j..] == payload[i + j..] && payload[i..][..j] == payload[i..i + j]
  {}

  /** The first entry by its positions in the whole payload. */
  lemma FirstEntryAt(payload: seq<Byte>)
    requires |payload| > 4
    ensures var k := payload[4] as int;
            HmacInput(payload) ==
            if 5 + k > |payload| || payload[5..5 + k] != AUTH || 10 + k > |payload| then None
            else
              var n := ReadBe32(payload[6 + k..]) as int;
              if 10 + k + n > |payload| then None else Some(payload[10 + k + n..])
  {
    NamesAreUtf8();
    hide ReadBe32, ValidUtf8, Ascii;
    var s, k := payload[4..], payload[4] as int;
    assert s[0] == payload[4];
    Inside(payload, 4, 1);
    if 5 + k <= |payload| {
      Inside(payload, 5, k);
      assert s[1..1 + k] == s[1..][..k];
      if 10 + k <= |payload| { Inside(payload, 4, 2 + k); }
    }
  }

  method ExtractHmacInput(payload: seq<Byte>) returns (r: Option<seq<Byte>>)
    ensures r == HmacInput(payload)
  {
    hide ReadBe32, HmacInput, Ascii;
    if |payload| <= 4 {
      NoEntry(payload);
    } else {
      FirstEntryAt(payload);
    }
    if |payload| < 4 {
      return None;
    }
    var pos := 4;
    if pos >= |payload| {
      return None;
    }
    var keyLen := payload[pos] as int;
    pos := pos + 1;
    if pos + keyLen > |payload| {
      return None;
    }
    var key := payload[pos..pos + keyLen];
    if key != AUTH {
      return None;
    }
    pos := pos + keyLen;
    if pos >= |payload| {
      return None;
    }
    pos := pos + 1;
    if pos + 4 > |payload| {
      return None;
    }
    var len := ReadBe32(payload[pos..]) as int;
    pos := pos + 4;
    if pos + len > |payload| {
      return None;
    }
    pos := pos + len;
    r := Some(payload[pos..]);
  }

  lemma NoEntry(payload: seq<Byte>)
    requires |payload| <= 4
    ensures HmacInput(payload) == None
  {}

  /** Index of the first zero octet, or the length. */
  function FirstZero(s: seq<Byte>): (n: nat)
    ensures n <= |s| && (forall i :: 0 <= i < n ==> s[i] != 0) && (n < |s| ==> s[n] == 0)
  {
    if s == [] || s[0] == 0 then 0 else 1 + FirstZero(s[1..])
  }

  predicate VerifyHmac(key: TsigKey, input: seq<Byte>, received: seq<Byte>) {
    |received| == HMAC_BUF_SIZE && received[0] == AlgorithmByte(key.algorithm)
    && var text := received[1..];
       var n := FirstZero(text);
       n != 0 && (forall i :: n <= i < |text| ==> text[i] == 0) && ValidUtf8(text[..n])
       && var mac := Base64.Decode(text[..n]);
          mac.Some? && key.Verify(input, mac.value)
  }

  function MapTable(es: Entries, k: Key): Option<Entries> {
    match Lookup(es, k)
    case Ok(Table(t)) => Some(t)
    case _ => None
  }

  function MapString(es: Entries, k: Key): Option<seq<Byte>> {
    match Lookup(es, k)
    case Ok(Str(s)) => Some(s)
    case _ => None
  }

  function MapNumber(es: Entries, k: Key): (n: Option<nat>)
    ensures n.Some? ==> n.value <= MAX_U64
  {
    match MapString(es, k)
    case Some(s) => Decimal.Parse(s, MAX_U64)
    case None => None
  }

  function SaturatingAdd(a: U64, b: U64): U64 { if a + b > MAX_U64 then MAX_U64 else a + b }

  /** Checks on the `_ctrl` table of a reply. */
  predicate CtrlOk(ctrl: Entries, serial: U32, time: U64, nonce: Option<seq<Byte>>) {
    MapString(ctrl, SER) == Some(Decimal.Digits(serial))
    && MapNumber(ctrl, TIM).Some? && time <= MapNumber(ctrl, TIM).value <= SaturatingAdd(time, EXPIRY_SECS)
    && MapNumber(ctrl, EXP) == Some(SaturatingAdd(MapNumber(ctrl, TIM).value, EXPIRY_SECS))
    && MapString(ctrl, RPL) == Some(Ascii("1"))
    && MapString(ctrl, NONCE).Some?
    && (nonce.Some? ==> MapString(ctrl, NONCE) == nonce)
  }

  predicate TypeOk(data: Entries, expected: Option<seq<Byte>>) {
    expected.Some? && MapString(data, TYPE).Some? ==> MapString(data, TYPE) == expected
  }

  /** `verify_authenticated_response`. */
  predicate Verified(key: TsigKey, response: Entries, input: seq<Byte>, serial: U32, time: U64,
                     nonce: Option<seq<Byte>>, kind: Option<seq<Byte>>)
  {
    MapTable(response, AUTH).Some? && MapTable(response, CTRL).Some? && MapTable(response, DATA).Some?
    && (match Lookup(MapTable(response, AUTH).value, HSHA)
        case Ok(Bin(received)) => VerifyHmac(key, input, received)
        case _ => false)
    && CtrlOk(MapTable(response, CTRL).value, serial, time, nonce)
    && TypeOk(MapTable(response, DATA).value, kind)
  }

  /** Is this payload taken as the reply to a request with this serial, time, nonce and type? */
  predicate Accepted(key: TsigKey, payload: seq<Byte>, serial: U32, time: U64,
                     nonce: Option<seq<Byte>>, kind: Option<seq<Byte>>)
  {
    HmacInput(payload).Some? && Decode(payload).Ok?
    && Verified(key, Decode(payload).value, HmacInput(payload).value, serial, time, nonce, kind)
  }

  // ---- The HMAC check is exact ---------------------------------------------

  lemma FirstZeroOfPadded(text: seq<Byte>, n: nat)
    requires forall i :: 0 <= i < |text| ==> text[i] != 0
    ensures FirstZero(text + Zeros(n)) == |text|
  {
    var s := text + Zeros(n);
    assert forall i :: 0 <= i < |text| ==> s[i] == text[i];
    assert n > 0 ==> s[|text|] == 0;
  }

  /** Verification accepts exactly the one value signing produces. */
  lemma VerifyAcceptsOnlyAuthValue(key: TsigKey, input: seq<Byte>, received: seq<Byte>)
    requires key.Valid()
    ensures VerifyHmac(key, input, received) <==> received == AuthValue(key, input)
  {
    hide VerifyHmac, AuthValue;
    AuthValueVerifies(key, input);
    if VerifyHmac(key, input, received) { VerifiedIsAuthValue(key, input, received); }
  }

  lemma AuthValueVerifies(key: TsigKey, input: seq<Byte>)
    requires key.Valid()
    ensures VerifyHmac(key, input, AuthValue(key, input))
  {
    hide ValidUtf8, Base64.Encode, Base64.Decode, FirstZero;
    var mac := key.hmac(input);
    var b64 := Base64.Encode(mac);
    var pad := Zeros(HMAC_BUF_SIZE - 1 - |b64|);
    assert AuthValue(key, input)[1..] == b64 + pad;
    Base64.EncodeDecode(mac);
    AsciiIsUtf8(b64);
    FirstZeroOfPadded(b64, |pad|);
    assert (b64 + pad)[..|b64|] == b64;
  }

  lemma VerifiedIsAuthValue(key: TsigKey, input: seq<Byte>, received: seq<Byte>)
    requires key.Valid() && VerifyHmac(key, input, received)
    ensures received == AuthValue(key, input)
  {
    hide ValidUtf8, Base64.Encode, Base64.Decode, FirstZero;
    var text := received[1..];
    var n := FirstZero(text);
    Base64.DecodeEncode(text[..n]);
    assert text == text[..n] + Zeros(|text| - n);
    assert received == [received[0]] + text;
    assert AuthValue(key, input) == Unpadded(key, input) + Zeros(|text| - n);
  }

  // ---- A signed request survives the wire ----------------------------------

  /** The bytes after the `_auth` entry are exactly the encoding of the rest, which the HMAC covers. */
  lemma InputOfSigned(auth: seq<Byte>, rest: Entries)
    requires |auth| == HMAC_BUF_SIZE
    ensures HmacInput(MessageOctets(Signed(auth, rest))) == Some(Octets(rest))
  {
    hide ValidUtf8, ReadEntry, EntryOctets, AuthTable, Fits, KeysUtf8, Height, Octets, Norm, Canonical, Be32, ReadBe32;
    NamesAreUtf8();
    AuthTableShape(auth);
    var inner := Octets(AuthTable(auth));
    TableEntry(AUTH, AuthTable(auth), rest);
    EntryReadsBack(AUTH, TAG_TABLE, inner, Octets(rest));
    EntrySize(AUTH, TAG_TABLE, inner);
    Be32Reads(VERSION, Octets(Signed(auth, rest)));
    var e := EntryOctets(AUTH, TAG_TABLE, inner);
    DropDrop(MessageOctets(Signed(auth, rest)), 4, |e|);
  }

  lemma DropDrop(s: seq<Byte>, m: nat, n: nat)
    requires m + n <= |s|
    ensures s[m + n..] == s[m..][n..]
  {}

  /** A framed request decodes to itself, its `hsha` still binary; the bytes extracted for the HMAC are
      the ones that were signed, and verification accepts them. */
  lemma RequestRoundTrip(key: TsigKey, ctrl: Entries, data: Entries)
    requires key.Valid() && Fits(Body(ctrl, data)) && KeysUtf8(ctrl) && KeysUtf8(data)
    requires Canonical(ctrl) && Canonical(data) && Height(ctrl) < MAX_DECODE_DEPTH && Height(data) < MAX_DECODE_DEPTH
    ensures var body := Octets(Body(ctrl, data));
            var payload := MessageOctets(Request(key, ctrl, data));
            Decode(payload) == Ok(Signed(AuthValue(key, body), Body(Norm(ctrl), Norm(data))))
            && HmacInput(payload) == Some(body)
            && VerifyHmac(key, body, AuthValue(key, body))
  {
    var body := Body(ctrl, data);
    var auth := AuthValue(key, Octets(body));
    BodyShape(ctrl, data);
    SignedFits(auth, body);
    SignedCanonical(auth, body);
    EncodeDecode(Signed(auth, body));
    NormOfSigned(auth, body);
    InputOfSigned(auth, body);
    VerifyAcceptsOnlyAuthValue(key, Octets(body), auth);
  }

  lemma BodyShape(ctrl: Entries, data: Entries)
    requires Canonical(ctrl) && Canonical(data) && KeysUtf8(ctrl) && KeysUtf8(data)
    ensures Canonical(Body(ctrl, data)) && KeysUtf8(Body(ctrl, data))
    ensures Height(Body(ctrl, data)) == 1 + Max(Height(ctrl), Height(data))
    ensures Norm(Body(ctrl, data)) == Body(Norm(ctrl), Norm(data))
  {
    hide Less, ValidUtf8, Fits, KeysUtf8, Height, Octets, Norm, Canonical;
    KeysAscend();
    NamesAreUtf8();
    EmptyIsCanonical();
    TableEntry(DATA, data, Nil);
    TableEntry(CTRL, ctrl, Cons(DATA, Table(data), Nil));
  }

  lemma SignedCanonical(auth: seq<Byte>, rest: Entries)
    requires |auth| == HMAC_BUF_SIZE && Canonical(rest) && rest.Cons? && Less(AUTH, rest.key)
    ensures Canonical(Signed(auth, rest))
  {
    hide Less, AuthTable, Fits, KeysUtf8, Height, Octets, Norm, Canonical;
    AuthTableShape(auth);
    TableEntry(AUTH, AuthTable(auth), rest);
  }

  lemma NormOfSigned(auth: seq<Byte>, rest: Entries)
    requires |auth| == HMAC_BUF_SIZE && !ValidUtf8(auth)
    ensures Norm(Signed(auth, rest)) == Signed(auth, Norm(rest))
  {
    hide ValidUtf8, AuthTable, Fits, KeysUtf8, Height, Octets, Norm, Canonical;
    AuthTableShape(auth);
    TableEntry(AUTH, AuthTable(auth), rest);
  }

  // ---- Replies -------------------------------------------------------------

  /** A reply as a server sends it: the entries after `_auth` in any order, with any repetitions. */
  ghost function Reply(key: TsigKey, rest: Entries): seq<Byte>
    requires key.Valid()
  {
    MessageOctets(Signed(AuthValue(key, Octets(rest)), rest))
  }

  /** The `_auth` value that counts is the last one: is it the one the reply was signed with? */
  ghost predicate LastAuthRight(key: TsigKey, rest: Entries)
    requires key.Valid()
  {
    match Last(Norm(rest), AUTH)
    case Err(_) => true
    case Ok(Table(t)) => Last(t, HSHA) == Ok(Bin(AuthValue(key, Octets(rest))))
    case Ok(_) => false
  }

  /** A correctly signed reply is accepted exactly when its control fields and type are right: neither the
      order of its entries nor the client's re-ordering of them matters. A later `_auth` entry would have to repeat
      the right value. */
  lemma ReplyAccepted(key: TsigKey, rest: Entries, serial: U32, time: U64, nonce: Option<seq<Byte>>, kind: Option<seq<Byte>>)
    requires key.Valid() && Fits(rest) && KeysUtf8(rest) && Height(rest) <= MAX_DECODE_DEPTH
    ensures Accepted(key, Reply(key, rest), serial, time, nonce, kind) <==>
            LastAuthRight(key, rest)
            && match (Last(Norm(rest), CTRL), Last(Norm(rest), DATA))
            case (Ok(Table(c)), Ok(Table(d))) => CtrlOk(BuildOnto(Nil, c), serial, time, nonce) && TypeOk(BuildOnto(Nil, d), kind)
            case _ => false
  {
    hide Decode, HmacInput, VerifyHmac, CtrlOk, TypeOk, Norm, Octets, MessageOctets, AuthValue, ValidUtf8, AuthTable,
      Signed, BuildOnto, Last, Lookup, Fits, KeysUtf8, Height;
    var auth := AuthValue(key, Octets(rest));
    InputOfSigned(auth, rest);
    DecodeReply(auth, rest);
    var raw := Signed(auth, Norm(rest));
    LastOfSigned(auth, Norm(rest));
    LookupBuilt(raw, AUTH);
    LookupBuilt(raw, CTRL);
    LookupBuilt(raw, DATA);
    AuthBuilt(key, rest);
    match Last(raw, AUTH) {
      case Ok(Table(t)) =>
        match Lookup(BuildOnto(Nil, t), HSHA) {
          case Ok(Bin(received)) => VerifyAcceptsOnlyAuthValue(key, Octets(rest), received);
          case _ =>
        }
      case _ =>
    }
  }

  /** The authenticator the client looks at is right exactly when the last one on the wire is. */
  lemma AuthBuilt(key: TsigKey, rest: Entries)
    requires key.Valid()
    ensures var auth := AuthValue(key, Octets(rest));
            LastAuthRight(key, rest) <==>
            match Last(Signed(auth, Norm(rest)), AUTH)
            case Ok(Table(t)) => Lookup(BuildOnto(Nil, t), HSHA) == Ok(Bin(auth))
            case _ => false
  {
    hide AuthValue, Octets, Norm, BuildOnto, Last, Signed, AuthTable;
    var auth := AuthValue(key, Octets(rest));
    LastOfSigned(auth, Norm(rest));
    LookupAuth(auth);
    match Last(Norm(rest), AUTH) {
      case Ok(Table(t)) => LastEntryWins(Nil, t, HSHA);
      case _ =>
    }
  }

  lemma LookupBuilt(es: Entries, k: Key)
    ensures MapTable(BuildOnto(Nil, es), k) ==
            match Last(es, k)
            case Ok(Table(t)) => Some(BuildOnto(Nil, t))
            case _ => None
  {
    LastEntryWins(Nil, es, k);
  }

  lemma LookupAuth(auth: seq<Byte>)
    ensures Lookup(AuthTable(auth), HSHA) == Ok(Bin(auth))
  {}

  lemma DecodeReply(auth: seq<Byte>, rest: Entries)
    requires |auth| == HMAC_BUF_SIZE && !ValidUtf8(auth) && Fits(rest) && KeysUtf8(rest) && Height(rest) <= MAX_DECODE_DEPTH
    ensures Decode(MessageOctets(Signed(auth, rest))) == Ok(BuildOnto(Nil, Signed(auth, Norm(rest))))
  {
    hide ValidUtf8, Decode, Raw, Signed, Norm, Octets, Fits, KeysUtf8, Height, BuildOnto, MessageOctets;
    SignedFits(auth, rest);
    NormOfSigned(auth, rest);
    RawOfOctets(Signed(auth, rest), 0);
    DecodeStripsVersion(Signed(auth, rest));
  }

  lemma LastOfSigned(auth: seq<Byte>, rest: Entries)
    requires |auth| == HMAC_BUF_SIZE
    ensures Last(Signed(auth, rest), AUTH) == if Last(rest, AUTH).Err? then Ok(Table(AuthTable(auth))) else Last(rest, AUTH)
    ensures Last(Signed(auth, rest), CTRL) == Last(rest, CTRL) && Last(Signed(auth, rest), DATA) == Last(rest, DATA)
    ensures BuildOnto(Nil, AuthTable(auth)) == AuthTable(auth)
  {
    hide AuthTable;
    AuthTableShape(auth);
    assert AUTH[1] != CTRL[1] && AUTH[1] != DATA[1];
  }

  /** The control fields a server sends in reply to a request made at `time`, in whatever order: the echoed
      serial and nonce, a time within the window, its expiry, and the reply flag. */
  lemma EchoedFieldsAccepted(c: Entries, serial: U32, time: U64, nonce: seq<Byte>, tim: U64)
    requires time <= tim <= SaturatingAdd(time, EXPIRY_SECS)
    requires Last(c, SER) == Ok(Str(Decimal.Digits(serial))) && Last(c, TIM) == Ok(Str(Decimal.Digits(tim)))
    requires Last(c, EXP) == Ok(Str(Decimal.Digits(SaturatingAdd(tim, EXPIRY_SECS))))
    requires Last(c, RPL) == Ok(Str(Ascii("1"))) && Last(c, NONCE) == Ok(Str(nonce))
    ensures CtrlOk(BuildOnto(Nil, c), serial, time, Some(nonce)) && CtrlOk(BuildOnto(Nil, c), serial, time, None)
  {
    Decimal.ParsePrinted(tim, MAX_U64);
    Decimal.ParsePrinted(SaturatingAdd(tim, EXPIRY_SECS), MAX_U64);
    hide BuildOnto, CtrlOk, Last, Decimal.Parse, Decimal.Digits, Ascii;
    CtrlOkIff(c, serial, time, Some(nonce));
    CtrlOkIff(c, serial, time, None);
  }

  /** Nothing is accepted without the right HMAC over everything after its first entry, and the same payload
      is never accepted as the reply to requests with different serials. */
  lemma AcceptedIsAuthentic(key: TsigKey, payload: seq<Byte>, m: U32, n: U32, time: U64, nonce: Option<seq<Byte>>, kind: Option<seq<Byte>>)
    requires key.Valid() && Accepted(key, payload, m, time, nonce, kind)
    ensures |payload| > 4 && ReadEntry(payload[4..]).Entry? && ReadEntry(payload[4..]).key == AUTH
    ensures var covered := payload[4 + ReadEntry(payload[4..]).size..];
            MapTable(Decode(payload).value, AUTH).Some?
            && Lookup(MapTable(Decode(payload).value, AUTH).value, HSHA) == Ok(Bin(AuthValue(key, covered)))
    ensures forall t, q, k :: Accepted(key, payload, n, t, q, k) ==> m == n
  {
    hide ReadEntry, Decode, VerifyHmac, AuthValue, TypeOk, Decimal.Digits, Decimal.Parse;
    var input := HmacInput(payload).value;
    match Lookup(MapTable(Decode(payload).value, AUTH).value, HSHA) {
      case Ok(Bin(received)) => VerifyAcceptsOnlyAuthValue(key, input, received);
      case _ =>
    }
    if Decimal.Digits(m) == Decimal.Digits(n) { Decimal.PrintedUniquely(m, n); }
  }

  /** A request's own control table, with the reply flag added, passes as the control table of the reply to it, exactly
      when the request carried a nonce and its expiry did not wrap. */
  lemma OwnTablePasses(serial: U32, now: U64, nonce: Option<seq<Byte>>)
    ensures CtrlOk(Insert(CtrlTable(serial, now, nonce), RPL, Str(Ascii("1"))), serial, now, nonce)
            <==> nonce.Some? && now + EXPIRY_SECS <= MAX_U64
  {
    hide CtrlTable, Decimal.Digits, Decimal.Parse, Insert, Lookup, Ascii;
    var table, flag := CtrlTable(serial, now, nonce), Str(Ascii("1"));
    ControlKeysDiffer();
    TableAt(serial, now, nonce);
    Decimal.ParsePrinted(now, MAX_U64);
    Decimal.ParsePrinted((now + EXPIRY_SECS) % (MAX_U64 + 1), MAX_U64);
    InsertLookup(table, RPL, flag, SER);
    InsertLookup(table, RPL, flag, TIM);
    InsertLookup(table, RPL, flag, EXP);
    InsertLookup(table, RPL, flag, NONCE);
    InsertLookup(table, RPL, flag, RPL);
  }

  lemma TableAt(serial: U32, now: U64, nonce: Option<seq<Byte>>)
    ensures var t := CtrlTable(serial, now, nonce);
            && Lookup(t, SER) == Ok(Str(Decimal.Digits(serial))) && Lookup(t, TIM) == Ok(Str(Decimal.Digits(now)))
            && Lookup(t, EXP) == Ok(Str(Decimal.Digits((now + EXPIRY_SECS) % (MAX_U64 + 1))))
            && Lookup(t, NONCE) == if nonce.Some? then Ok(Str(nonce.value)) else Err(())
  {
    ControlKeysDiffer();
    hide Decimal.Digits, Ascii;
    var t := CtrlTable(serial, now, nonce);
    var fixed := Cons(SER, Str(Decimal.Digits(serial)), Cons(TIM, Str(Decimal.Digits(now)), Nil));
    assert Lookup(fixed, SER) == Ok(Str(Decimal.Digits(serial))) && Lookup(fixed, TIM) == Ok(Str(Decimal.Digits(now)));
    assert Lookup(fixed, NONCE) == Lookup(fixed.rest, NONCE) == Lookup(Nil, NONCE);
    assert forall k :: k != EXP ==> Lookup(t, k) == Lookup(t.rest, k);
  }

  /** The text a table holds for a key, the last one on the wire. */
  function LastText(c: Entries, k: Key): Option<seq<Byte>> {
    match Last(c, k)
    case Ok(Str(s)) => Some(s)
    case _ => None
  }

  /** Exactly which control tables pass, by their entries on the wire: the request's serial, a time within the window, that
      time's expiry, the reply flag, and a nonce, which is the connection's if it has one. */
  lemma CtrlOkIff(c: Entries, serial: U32, time: U64, nonce: Option<seq<Byte>>)
    ensures CtrlOk(BuildOnto(Nil, c), serial, time, nonce) <==>
            && LastText(c, SER) == Some(Decimal.Digits(serial))
            && (exists tim: U64 :: time <= tim <= SaturatingAdd(time, EXPIRY_SECS)
                  && LastText(c, TIM).Some? && Decimal.Parse(LastText(c, TIM).value, MAX_U64) == Some(tim)
                  && LastText(c, EXP).Some?
                  && Decimal.Parse(LastText(c, EXP).value, MAX_U64) == Some(SaturatingAdd(tim, EXPIRY_SECS)))
            && LastText(c, RPL) == Some(Ascii("1"))
            && LastText(c, NONCE).Some? && (nonce.Some? ==> LastText(c, NONCE) == nonce)
  {
    hide BuildOnto, Decimal.Parse, Decimal.Digits, Ascii;
    LastEntryWins(Nil, c, SER);
    LastEntryWins(Nil, c, TIM);
    LastEntryWins(Nil, c, EXP);
    LastEntryWins(Nil, c, RPL);
    LastEntryWins(Nil, c, NONCE);
    var ctrl := BuildOnto(Nil, c);
    assert MapString(ctrl, TIM) == LastText(c, TIM) && MapString(ctrl, EXP) == LastText(c, EXP);
    assert MapNumber(ctrl, TIM).Some? ==> 0 <= MapNumber(ctrl, TIM).value <= MAX_U64;
  }

  /** Exactly which data tables pass: those without a type, or with the command's. */
  lemma TypeOkIff(d: Entries, command: seq<Byte>)
    ensures TypeOk(BuildOnto(Nil, d), Some(command)) <==> LastText(d, TYPE).None? || LastText(d, TYPE) == Some(command)
  {
    LastEntryWins(Nil, d, TYPE);
    hide BuildOnto, Ascii;
  }
}
