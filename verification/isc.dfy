/** The ISC control-channel codec: nested tables of length-prefixed keys and tagged values.
    A table is an association list; a map is one whose keys ascend. */
module Isc {
  import opened Bytes
  import opened Utf8

  const MAX_DECODE_DEPTH := 32
  const VERSION: U32 := 1
  const TAG_BINARY: Byte := 1
  const TAG_TABLE: Byte := 2

  type Key = seq<Byte>

  datatype IscError = IscError

  datatype Value = Str(bytes: seq<Byte>) | Bin(bytes: seq<Byte>) | Table(entries: Entries)

  datatype Entries = Nil | Cons(key: Key, value: Value, rest: Entries)

  // ---- Ordered maps --------------------------------------------------------

  /** Byte-wise lexicographic order, the iteration order of the map. */
  predicate Less(a: Key, b: Key) {
    b != [] && (a == [] || a[0] < b[0] || (a[0] == b[0] && Less(a[1..], b[1..])))
  }

  lemma {:induction false} LessTrichotomy(a: Key, b: Key)
    ensures a == b || Less(a, b) || Less(b, a)
    ensures !(Less(a, b) && Less(b, a)) && !Less(a, a)
  {
    if a != [] && b != [] && a[0] == b[0] {
      LessTrichotomy(a[1..], b[1..]);
      assert a == [a[0]] + a[1..] && b == [b[0]] + b[1..];
    }
    if a != [] { LessIrreflexive(a); }
  }

  lemma {:induction false} LessIrreflexive(a: Key)
    ensures !Less(a, a)
  {
    if a != [] { LessIrreflexive(a[1..]); }
  }

  lemma {:induction false} LessTransitive(a: Key, b: Key, c: Key)
    requires Less(a, b) && Less(b, c)
    ensures Less(a, c)
  {
    if a != [] && a[0] == b[0] && b[0] == c[0] {
      LessTransitive(a[1..], b[1..], c[1..]);
    }
  }

  /** Keys strictly ascend at this level. */
  predicate Ascending(es: Entries) {
    es.Cons? && es.rest.Cons? ==> Less(es.key, es.rest.key) && Ascending(es.rest)
  }

  /** Keys strictly ascend at every level: the shape a decoded message always has. */
  predicate Canonical(es: Entries)
    decreases es, 1
  {
    Ascending(es) && NestedCanonical(es)
  }

  predicate NestedCanonical(es: Entries)
    decreases es, 0
  {
    es.Cons? ==> (es.value.Table? ==> Canonical(es.value.entries)) && NestedCanonical(es.rest)
  }

  /** Map insertion: a new value for a present key, or a new entry at its place. */
  function Insert(es: Entries, k: Key, v: Value): Entries {
    match es
    case Nil => Cons(k, v, Nil)
    case Cons(key, value, rest) =>
      if k == key then Cons(k, v, rest)
      else if Less(k, key) then Cons(k, v, es)
      else Cons(key, value, Insert(rest, k, v))
  }

  lemma InsertFirst(es: Entries, k: Key, v: Value)
    requires es.Cons? ==> Less(k, es.key)
    ensures Insert(es, k, v) == Cons(k, v, es)
  {
    LessIrreflexive(k);
  }

  lemma {:induction false} InsertAscends(es: Entries, k: Key, v: Value)
    requires Ascending(es)
    ensures Ascending(Insert(es, k, v))
    ensures es.Cons? ==> Insert(es, k, v).key == if Less(k, es.key) then k else es.key
  {
    if es.Cons? {
      LessTrichotomy(k, es.key);
      if k != es.key && !Less(k, es.key) { InsertAscends(es.rest, k, v); }
    }
  }

  // ---- Encoding ------------------------------------------------------------

  function Tag(v: Value): Byte { if v.Table? then TAG_TABLE else TAG_BINARY }

  function Payload(v: Value): seq<Byte> {
    match v
    case Str(b) => b
    case Bin(b) => b
    case Table(es) => Octets(es)
  }

  /** One entry, given its encoded value. */
  function EntryOctets(k: Key, tag: Byte, payload: seq<Byte>): seq<Byte> {
    [|k| % 0x100] + k + [tag] + Be32(|payload| % 0x1_0000_0000) + payload
  }

  function Octets(es: Entries): seq<Byte> {
    match es
    case Nil => []
    case Cons(k, v, rest) => EntryOctets(k, Tag(v), Payload(v)) + Octets(rest)
  }

  /** Every key fits its length octet and every value its 32-bit length. */
  predicate Fits(es: Entries) {
    es.Cons? ==> |es.key| <= 255 && ValueFits(es.value) && Fits(es.rest)
  }

  predicate ValueFits(v: Value) {
    (v.Table? ==> Fits(v.entries)) && |Payload(v)| < 0x1_0000_0000
  }

  lemma EntryWritten(before: seq<Byte>, k: Key, tag: Byte, payload: seq<Byte>, rest: seq<Byte>)
    requires |k| <= 255 && |payload| < 0x1_0000_0000
    ensures before + [|k|] + k + [tag] + Be32(|payload|) + payload + rest
            == before + (EntryOctets(k, tag, payload) + rest)
  {
    hide Be32;
    assert before + [|k|] + k + [tag] + Be32(|payload|) + payload == before + EntryOctets(k, tag, payload);
  }

  method EncodeMap(es: Entries, buf: Buffer) returns (r: Result<(), IscError>)
    modifies buf
    ensures r.Ok? <==> Fits(es)
    ensures r.Ok? ==> buf.bytes == old(buf.bytes) + Octets(es)
    decreases es
  {
    hide Be32, EntryOctets;
    var left := es;
    while left.Cons?
      invariant left == es || left < es
      invariant Fits(es) <==> Fits(left)
      invariant buf.bytes + Octets(left) == old(buf.bytes) + Octets(es)
      decreases left
    {
      var key, value := left.key, left.value;
      if |key| > 255 {
        return Err(IscError);
      }
      ghost var before := buf.bytes;
      buf.Push(|key|);
      buf.Extend(key);
      buf.Push(Tag(value));
      var payload;
      match value {
        case Str(s) => payload := s;
        case Bin(b) => payload := b;
        case Table(m) =>
          var nested := new Buffer();
          r := EncodeMap(m, nested);
          if r.Err? {
            return;
          }
          payload := nested.bytes;
      }
      assert payload == Payload(value);
      if |payload| >= 0x1_0000_0000 {
        return Err(IscError);
      }
      buf.Extend(Be32(|payload|));
      buf.Extend(payload);
      EntryWritten(before, key, Tag(value), payload, Octets(left.rest));
      left := left.rest;
    }
    assert buf.bytes + [] == buf.bytes;
    r := Ok(());
  }

  /** `encode_body`: the entries without the version. */
  method EncodeBody(es: Entries) returns (r: Result<seq<Byte>, IscError>)
    ensures r.Ok? <==> Fits(es)
    ensures r.Ok? ==> r.value == Octets(es)
  {
    var buf := new Buffer();
    var ok := EncodeMap(es, buf);
    r := if ok.Ok? then Ok(buf.bytes) else Err(IscError);
    assert [] + Octets(es) == Octets(es);
  }

  function MessageOctets(es: Entries): seq<Byte> { Be32(VERSION) + Octets(es) }

  method Encode(es: Entries) returns (r: Result<seq<Byte>, IscError>)
    ensures r.Ok? <==> Fits(es)
    ensures r.Ok? ==> r.value == MessageOctets(es)
  {
    var buf := new Buffer();
    buf.Extend(Be32(VERSION));
    var ok := EncodeMap(es, buf);
    r := if ok.Ok? then Ok(buf.bytes) else Err(IscError);
  }

  /** The 4-byte length prefix of the TCP framing. */
  method FrameMessage(es: Entries) returns (r: Result<seq<Byte>, IscError>)
    ensures r.Ok? <==> Fits(es) && |MessageOctets(es)| < 0x1_0000_0000
    ensures r.Ok? ==> r.value == Be32(|MessageOctets(es)|) + MessageOctets(es)
  {
    var payload := Encode(es);
    if payload.Err? || |payload.value| >= 0x1_0000_0000 {
      return Err(IscError);
    }
    r := Ok(Be32(|payload.value|) + payload.value);
  }

  // ---- Decoding ------------------------------------------------------------

  datatype Entry = Bad | Entry(key: Key, tag: Byte, payload: seq<Byte>, size: nat)

  /** The entry `s` starts with, and its size. */
  function ReadEntry(s: seq<Byte>): (e: Entry)
    requires s != []
    ensures e.Entry? ==> |e.key| + |e.payload| + 6 == e.size <= |s|
  {
    var k := s[0] as int;
    if 1 + k > |s| || !ValidUtf8(s[1..1 + k]) || 1 + k >= |s| || 2 + k + 4 > |s| then Bad
    else
      var n := ReadBe32(s[2 + k..]) as int;
      if 6 + k + n > |s| then Bad
      else Entry(s[1..1 + k], s[1 + k], s[6 + k..6 + k + n], 6 + k + n)
  }

  /** Binary values that are UTF-8 come back as strings. */
  function Leaf(b: seq<Byte>): Value { if ValidUtf8(b) then Str(b) else Bin(b) }

  /** The entries on the wire, in wire order and with repeated keys kept. */
  function Raw(s: seq<Byte>, depth: nat): Result<Entries, IscError>
    decreases |s|
  {
    if depth > MAX_DECODE_DEPTH then Err(IscError)
    else if s == [] then Ok(Nil)
    else
      var e := ReadEntry(s);
      if e.Bad? || (e.tag != TAG_BINARY && e.tag != TAG_TABLE) then Err(IscError)
      else
        var value := if e.tag == TAG_BINARY then Ok(Leaf(e.payload)) else AsTable(Raw(e.payload, depth + 1));
        match value
        case Err(x) => Err(IscError)
        case Ok(v) =>
          match Raw(s[e.size..], depth)
          case Err(x) => Err(IscError)
          case Ok(rest) => Ok(Cons(e.key, v, rest))
  }

  function AsTable(r: Result<Entries, IscError>): Result<Value, IscError> {
    match r
    case Err(x) => Err(IscError)
    case Ok(es) => Ok(Table(es))
  }

  /** Inserts raw entries in order into a map, building nested maps first. */
  function BuildOnto(acc: Entries, es: Entries): Entries
    decreases es
  {
    match es
    case Nil => acc
    case Cons(k, v, rest) => BuildOnto(Insert(acc, k, BuildValue(v)), rest)
  }

  function BuildValue(v: Value): Value {
    match v
    case Str(_) => v
    case Bin(_) => v
    case Table(es) => Table(BuildOnto(Nil, es))
  }

  function Built(acc: Entries, r: Result<Entries, IscError>): Result<Entries, IscError> {
    match r
    case Err(x) => Err(IscError)
    case Ok(es) => Ok(BuildOnto(acc, es))
  }

  function Decode(data: seq<Byte>): Result<Entries, IscError> {
    if |data| < 4 || ReadBe32(data) != VERSION then Err(IscError)
    else Built(Nil, Raw(data[4..], 0))
  }

  lemma BuiltStep(acc: Entries, s: seq<Byte>, depth: nat)
    ensures depth > MAX_DECODE_DEPTH ==> Built(acc, Raw(s, depth)) == Err(IscError)
    ensures depth <= MAX_DECODE_DEPTH ==>
              if s == [] then Built(acc, Raw(s, depth)) == Ok(acc)
              else
                var e := ReadEntry(s);
                if e.Bad? then Built(acc, Raw(s, depth)) == Err(IscError)
                else if e.tag == TAG_BINARY then
                  Built(acc, Raw(s, depth)) == Built(Insert(acc, e.key, Leaf(e.payload)), Raw(s[e.size..], depth))
                else if e.tag == TAG_TABLE then
                  match Built(Nil, Raw(e.payload, depth + 1))
                  case Err(_) => Built(acc, Raw(s, depth)) == Err(IscError)
                  case Ok(m) => Built(acc, Raw(s, depth)) == Built(Insert(acc, e.key, Table(m)), Raw(s[e.size..], depth))
                else Built(acc, Raw(s, depth)) == Err(IscError)
  {
    hide ReadEntry, Insert, ValidUtf8;
    if depth <= MAX_DECODE_DEPTH && s != [] && ReadEntry(s).Entry? {
      var e := ReadEntry(s);
      var nested, rest := Raw(e.payload, depth + 1), Raw(s[e.size..], depth);
      if e.tag == TAG_BINARY {
        assert BuildValue(Leaf(e.payload)) == Leaf(e.payload);
      }
      if e.tag == TAG_TABLE && nested.Ok? && rest.Ok? {
        assert BuildValue(Table(nested.value)) == Table(BuildOnto(Nil, nested.value));
      }
    }
  }

  /** What precedes a value: its key and tag, where it starts, and its length. */
  datatype Header = Header(key: Key, tag: Byte, start: nat, len: nat)

  /** The part of the decoder's loop up to the value. */
  method DecodeHeader(data: seq<Byte>, start: nat) returns (r: Result<Header, IscError>)
    requires start < |data|
    ensures r.Ok? <==> ReadEntry(data[start..]).Entry?
    ensures r.Ok? ==>
              var h := r.value;
              h.start == start + 6 + |h.key| && h.start + h.len <= |data|
              && ReadEntry(data[start..]) == Entry(h.key, h.tag, data[h.start..h.start + h.len], 6 + |h.key| + h.len)
  {
    hide ReadBe32, ValidUtf8;
    ghost var s := data[start..];
    var pos := start;
    var keyLen := data[pos] as int;
    pos := pos + 1;
    if pos + keyLen > |data| {
      return Err(IscError);
    }
    var key := data[pos..pos + keyLen];
    assert key == s[1..1 + keyLen];
    if !ValidUtf8(key) {
      return Err(IscError);
    }
    pos := pos + keyLen;
    if pos >= |data| {
      return Err(IscError);
    }
    var tag := data[pos];
    pos := pos + 1;
    if pos + 4 > |data| {
      return Err(IscError);
    }
    assert data[pos..] == s[2 + keyLen..];
    var len := ReadBe32(data[pos..]) as int;
    pos := pos + 4;
    if pos + len > |data| {
      return Err(IscError);
    }
    assert data[pos..pos + len] == s[6 + keyLen..6 + keyLen + len];
    r := Ok(Header(key, tag, pos, len));
  }

  method DecodeMap(data: seq<Byte>, start: nat, depth: nat) returns (r: Result<Entries, IscError>)
    requires start <= |data|
    ensures r == Built(Nil, Raw(data[start..], depth))
    decreases |data| - start
  {
    hide Raw, Built, ReadEntry, Leaf, Insert;
    BuiltStep(Nil, data[start..], depth);
    if depth > MAX_DECODE_DEPTH {
      return Err(IscError);
    }
    var m: Entries := Nil;
    var pos := start;
    while pos < |data|
      invariant start <= pos <= |data|
      invariant Built(Nil, Raw(data[start..], depth)) == Built(m, Raw(data[pos..], depth))
    {
      BuiltStep(m, data[pos..], depth);
      var h := DecodeHeader(data, pos);
      if h.Err? {
        return Err(IscError);
      }
      var Header(key, tag, p, len) := h.value;
      assert data[pos..][6 + |key| + len..] == data[p + len..];
      var value;
      if tag == TAG_BINARY {
        value := Leaf(data[p..p + len]);
      } else if tag == TAG_TABLE {
        assert data[..p + len][p..] == data[p..p + len];
        var nested := DecodeMap(data[..p + len], p, depth + 1);
        if nested.Err? {
          return Err(IscError);
        }
        value := Table(nested.value);
      } else {
        return Err(IscError);
      }
      m := Insert(m, key, value);
      pos := p + len;
    }
    BuiltStep(m, data[pos..], depth);
    r := Ok(m);
  }

  method DecodeMessage(data: seq<Byte>) returns (r: Result<Entries, IscError>)
    ensures r == Decode(data)
  {
    if |data| < 4 || ReadBe32(data) != VERSION {
      return Err(IscError);
    }
    r := DecodeMap(data, 4, 0);
  }

  // ---- Encoding, then decoding ---------------------------------------------

  predicate KeysUtf8(es: Entries) {
    es.Cons? ==> ValidUtf8(es.key) && (es.value.Table? ==> KeysUtf8(es.value.entries)) && KeysUtf8(es.rest)
  }

  /** What a message becomes on the way through the wire. */
  function Norm(es: Entries): Entries {
    match es
    case Nil => Nil
    case Cons(k, v, rest) => Cons(k, NormValue(v), Norm(rest))
  }

  function NormValue(v: Value): Value {
    match v
    case Str(b) => Leaf(b)
    case Bin(b) => Leaf(b)
    case Table(es) => Table(Norm(es))
  }

  /** Levels of nesting below this one. */
  function Height(es: Entries): nat {
    match es
    case Nil => 0
    case Cons(_, v, rest) => Max(ValueHeight(v), Height(rest))
  }

  function ValueHeight(v: Value): nat { if v.Table? then 1 + Height(v.entries) else 0 }

  function Max(a: nat, b: nat): nat { if a < b then b else a }

  lemma EntryReadsBack(k: Key, tag: Byte, payload: seq<Byte>, rest: seq<Byte>)
    requires |k| <= 255 && |payload| < 0x1_0000_0000 && ValidUtf8(k)
    ensures var e := EntryOctets(k, tag, payload);
            var s := e + rest;
            ReadEntry(s) == Entry(k, tag, payload, |e|) && s[|e|..] == rest
  {
    hide ValidUtf8, Be32, ReadBe32;
    var n := |payload|;
    var t := Be32(n) + (payload + rest);
    var s := EntryOctets(k, tag, payload) + rest;
    Be32Reads(n, payload + rest);
    assert s == [|k|] + k + [tag] + t;
    assert s[1..1 + |k|] == k && s[1 + |k|] == tag && s[2 + |k|..] == t;
    assert s[6 + |k|..] == t[4..] == payload + rest;
    assert s[6 + |k|..6 + |k| + n] == s[6 + |k|..][..n] == payload;
    assert |EntryOctets(k, tag, payload)| == 6 + |k| + n;
  }

  /** A message that starts with a table, one level at a time. */
  lemma TableEntry(k: Key, m: Entries, rest: Entries)
    ensures var es := Cons(k, Table(m), rest);
            Octets(es) == EntryOctets(k, TAG_TABLE, Octets(m)) + Octets(rest)
            && (Fits(es) <==> |k| <= 255 && Fits(m) && |Octets(m)| < 0x1_0000_0000 && Fits(rest))
            && (KeysUtf8(es) <==> ValidUtf8(k) && KeysUtf8(m) && KeysUtf8(rest))
            && Height(es) == Max(1 + Height(m), Height(rest))
            && Norm(es) == Cons(k, Table(Norm(m)), Norm(rest))
            && (Canonical(es) <==> Canonical(m) && Canonical(rest) && (rest.Cons? ==> Less(k, rest.key)))
  {
    hide ValidUtf8, EntryOctets, Less, Leaf;
  }

  /** Decoding what was encoded gives the message back, with UTF-8 binary leaves as strings, if the
      nesting is within the limit; one level too deep and the decoder refuses it. */
  lemma {:induction false} RawOfOctets(es: Entries, depth: nat)
    requires Fits(es) && KeysUtf8(es)
    ensures Raw(Octets(es), depth) == if depth + Height(es) <= MAX_DECODE_DEPTH then Ok(Norm(es)) else Err(IscError)
    decreases es
  {
    hide ReadEntry, EntryOctets, ValidUtf8, Leaf;
    if depth <= MAX_DECODE_DEPTH && es.Cons? {
      var k, v, rest := es.key, es.value, es.rest;
      EntryReadsBack(k, Tag(v), Payload(v), Octets(rest));
      if v.Table? { RawOfOctets(v.entries, depth + 1); }
      RawOfOctets(rest, depth);
    }
  }

  // ---- Building maps -------------------------------------------------------

  /** Does `k` come after every key of `es`? */
  predicate After(es: Entries, k: Key) {
    es.Cons? ==> Less(es.key, k) && After(es.rest, k)
  }

  function Append(a: Entries, b: Entries): Entries {
    match a
    case Nil => b
    case Cons(k, v, rest) => Cons(k, v, Append(rest, b))
  }

  lemma {:induction false} InsertLast(acc: Entries, k: Key, v: Value)
    requires After(acc, k)
    ensures Insert(acc, k, v) == Append(acc, Cons(k, v, Nil))
  {
    if acc.Cons? {
      LessTrichotomy(acc.key, k);
      InsertLast(acc.rest, k, v);
    }
  }

  lemma {:induction false} AfterLater(acc: Entries, k: Key, v: Value, later: Key)
    requires After(acc, k) && Less(k, later)
    ensures After(Append(acc, Cons(k, v, Nil)), later)
  {
    if acc.Cons? {
      LessTransitive(acc.key, k, later);
      AfterLater(acc.rest, k, v, later);
    }
  }

  lemma {:induction false} AppendNext(acc: Entries, k: Key, v: Value, rest: Entries)
    ensures Append(Append(acc, Cons(k, v, Nil)), rest) == Append(acc, Cons(k, v, rest))
    ensures Append(acc, Nil) == acc
  {
    if acc.Cons? { AppendNext(acc.rest, k, v, rest); }
  }

  /** Entries whose keys already ascend build to themselves. */
  lemma {:induction false} CanonicalBuilds(acc: Entries, es: Entries)
    requires Canonical(es) && (es.Cons? ==> After(acc, es.key))
    ensures BuildOnto(acc, es) == Append(acc, es)
    decreases es
  {
    if es.Nil? {
      AppendNext(acc, [], Str([]), Nil);
    } else {
      var k, v := es.key, es.value;
      if v.Table? {
        CanonicalBuilds(Nil, v.entries);
      }
      assert BuildValue(v) == v;
      InsertLast(acc, k, v);
      if es.rest.Cons? { AfterLater(acc, k, v, es.rest.key); }
      CanonicalBuilds(Append(acc, Cons(k, v, Nil)), es.rest);
      AppendNext(acc, k, v, es.rest);
    }
  }

  lemma {:induction false} NormKeepsShape(es: Entries)
    ensures Ascending(Norm(es)) <==> Ascending(es)
    ensures NestedCanonical(Norm(es)) <==> NestedCanonical(es)
    decreases es
  {
    if es.Cons? {
      NormKeepsShape(es.rest);
      if es.value.Table? { NormKeepsShape(es.value.entries); }
    }
  }

  lemma DecodeStripsVersion(es: Entries)
    ensures Decode(MessageOctets(es)) == Built(Nil, Raw(Octets(es), 0))
  {
    hide Be32, ReadBe32, Raw;
    Be32Reads(VERSION, Octets(es));
  }

  /** The codec round trip, for every message that encodes: exact up to string normalisation when the
      nesting is at most the limit, refused otherwise. */
  lemma EncodeDecode(es: Entries)
    requires Fits(es) && KeysUtf8(es) && Canonical(es)
    ensures Decode(MessageOctets(es)) == if Height(es) <= MAX_DECODE_DEPTH then Ok(Norm(es)) else Err(IscError)
  {
    DecodeStripsVersion(es);
    RawOfOctets(es, 0);
    NormKeepsShape(es);
    CanonicalBuilds(Nil, Norm(es));
  }

  // ---- Decoding, then encoding ---------------------------------------------

  /** What any accepted wire satisfies, whatever the order of its keys. */
  predicate Clean(es: Entries) {
    es.Cons? ==> |es.key| <= 255 && ValidUtf8(es.key) && CleanValue(es.value) && Clean(es.rest)
  }

  predicate CleanValue(v: Value) {
    match v
    case Str(b) => ValidUtf8(b)
    case Bin(b) => !ValidUtf8(b)
    case Table(es) => Clean(es)
  }

  lemma {:induction false} CleanIsNormal(es: Entries)
    requires Clean(es)
    ensures Norm(es) == es && KeysUtf8(es)
    decreases es
  {
    if es.Cons? {
      CleanIsNormal(es.rest);
      if es.value.Table? { CleanIsNormal(es.value.entries); }
    }
  }

  lemma EntryRewrites(s: seq<Byte>)
    requires s != [] && ReadEntry(s).Entry?
    ensures var e := ReadEntry(s);
            s == EntryOctets(e.key, e.tag, e.payload) + s[e.size..] && |e.key| <= 255 && |e.payload| < 0x1_0000_0000
            && ValidUtf8(e.key)
  {
    hide ValidUtf8;
    hide Be32, ReadBe32;
    var e, k := ReadEntry(s), s[0] as int;
    Be32OfRead(s[2 + k..]);
    assert s[2 + k..][..4] == s[2 + k..6 + k];
  }

  /** An accepted wire is exactly the encoding of its raw entries. */
  lemma {:induction false} OctetsOfRaw(s: seq<Byte>, depth: nat)
    requires Raw(s, depth).Ok?
    ensures var es := Raw(s, depth).value;
            Octets(es) == s && Fits(es) && Clean(es) && depth + Height(es) <= MAX_DECODE_DEPTH
    decreases |s|
  {
    hide ValidUtf8, EntryOctets, ReadEntry;
    if s != [] {
      var e := ReadEntry(s);
      EntryRewrites(s);
      if e.tag == TAG_TABLE { OctetsOfRaw(e.payload, depth + 1); }
      OctetsOfRaw(s[e.size..], depth);
    }
  }

  /** The map a decoder builds always has ascending keys, and stays clean and shallow. */
  lemma {:induction false} BuildIsCanonical(acc: Entries, es: Entries, h: nat)
    requires Canonical(acc) && Clean(acc) && Height(acc) <= h && Clean(es) && Height(es) <= h
    ensures var m := BuildOnto(acc, es);
            Canonical(m) && Clean(m) && Height(m) <= h
    decreases es
  {
    hide ValidUtf8;
    if es.Cons? {
      var v := BuildValue(es.value);
      if es.value.Table? { BuildIsCanonical(Nil, es.value.entries, h - 1); }
      InsertAscends(acc, es.key, v);
      InsertKeeps(acc, es.key, v, h);
      BuildIsCanonical(Insert(acc, es.key, v), es.rest, h);
    }
  }

  lemma {:induction false} InsertKeeps(es: Entries, k: Key, v: Value, h: nat)
    requires NestedCanonical(es) && Clean(es) && Height(es) <= h
    requires |k| <= 255 && ValidUtf8(k) && CleanValue(v) && ValueHeight(v) <= h && (v.Table? ==> Canonical(v.entries))
    ensures var m := Insert(es, k, v);
            NestedCanonical(m) && Clean(m) && Height(m) <= h
  {
    hide ValidUtf8, Less;
    if es.Cons? { InsertKeeps(es.rest, k, v, h); }
  }

  lemma {:induction false} ShorterFits(es: Entries)
    requires Clean(es) && |Octets(es)| < 0x1_0000_0000
    ensures Fits(es)
    decreases es
  {
    hide ValidUtf8, EntryOctets;
    if es.Cons? {
      PayloadInside(es.key, Tag(es.value), Payload(es.value));
      if es.value.Table? { ShorterFits(es.value.entries); }
      ShorterFits(es.rest);
    }
  }

  lemma PayloadInside(k: Key, tag: Byte, payload: seq<Byte>)
    ensures |payload| <= |EntryOctets(k, tag, payload)|
  {}

  /** The value a map holds for a key, if any. */
  function Lookup(es: Entries, k: Key): Result<Value, ()> {
    match es
    case Nil => Err(())
    case Cons(key, v, rest) => if key == k then Ok(v) else Lookup(rest, k)
  }

  /** The value of the last entry with a key, in wire order. */
  function Last(es: Entries, k: Key): Result<Value, ()> {
    match es
    case Nil => Err(())
    case Cons(key, v, rest) => if key == k && Last(rest, k).Err? then Ok(v) else Last(rest, k)
  }

  lemma {:induction false} InsertLookup(es: Entries, k: Key, v: Value, q: Key)
    ensures Lookup(Insert(es, k, v), q) == if q == k then Ok(v) else Lookup(es, q)
  {
    if es.Cons? && k != es.key && !Less(k, es.key) { InsertLookup(es.rest, k, v, q); }
  }

  /** When a wire repeats a key, the last occurrence decides. */
  lemma {:induction false} LastEntryWins(acc: Entries, es: Entries, k: Key)
    ensures Lookup(BuildOnto(acc, es), k) ==
            match Last(es, k)
            case Ok(v) => Ok(BuildValue(v))
            case Err(_) => Lookup(acc, k)
    decreases es
  {
    if es.Cons? {
      var v := BuildValue(es.value);
      InsertLookup(acc, es.key, v, k);
      LastEntryWins(Insert(acc, es.key, v), es.rest, k);
    }
  }

  lemma EmptyIsCanonical()
    ensures Canonical(Nil) && Clean(Nil) && Height(Nil) == 0 && KeysUtf8(Nil) && Norm(Nil) == Nil
  {}

  lemma RebuiltIfCanonical(s: seq<Byte>)
    requires Raw(s, 0).Ok?
    ensures var es := Raw(s, 0).value;
            Canonical(es) ==> Octets(BuildOnto(Nil, es)) == s
  {
    hide Raw, BuildOnto, Clean, Fits, KeysUtf8, Height, Octets;
    var es := Raw(s, 0).value;
    OctetsOfRaw(s, 0);
    if Canonical(es) { CanonicalBuilds(Nil, es); }
  }

  lemma RebuiltOnlyIfCanonical(s: seq<Byte>)
    requires Raw(s, 0).Ok? && |s| < 0x1_0000_0000
    requires Octets(BuildOnto(Nil, Raw(s, 0).value)) == s
    ensures Canonical(Raw(s, 0).value)
  {
    hide Raw, BuildOnto, Canonical, Clean, Fits, KeysUtf8, Norm, Height, Octets;
    var es := Raw(s, 0).value;
    var m := BuildOnto(Nil, es);
    OctetsOfRaw(s, 0);
    EmptyIsCanonical();
    BuildIsCanonical(Nil, es, MAX_DECODE_DEPTH);
    ShorterFits(m);
    CleanIsNormal(m);
    RawOfOctets(m, 0);
  }

  /** Re-encoding an accepted wire gives the same bytes exactly when its keys strictly ascend at every
      level: the map reorders and merges everything else. */
  lemma DecodeEncode(data: seq<Byte>)
    requires Decode(data).Ok? && |data| < 0x1_0000_0000
    ensures MessageOctets(Decode(data).value) == data <==> Canonical(Raw(data[4..], 0).value)
  {
    var s := data[4..];
    assert Built(Nil, Raw(s, 0)) == Decode(data);
    var es := Raw(s, 0).value;
    assert Decode(data).value == BuildOnto(Nil, es);
    assert data == Be32(VERSION) + s && MessageOctets(BuildOnto(Nil, es)) == Be32(VERSION) + Octets(BuildOnto(Nil, es)) by {
      hide Raw;
      Be32OfRead(data);
    }
    hide *;
    if Octets(BuildOnto(Nil, es)) == s { RebuiltOnlyIfCanonical(s); }
    RebuiltIfCanonical(s);
    if MessageOctets(BuildOnto(Nil, es)) == data {
      SamePrefix(Be32(VERSION), Octets(BuildOnto(Nil, es)), Be32(VERSION), s);
    }
  }
}
