/** Writing a configuration as tokens, in any spelling the parser allows, and parsing it back. */
module NamedConfPrinting {
  import opened Bytes
  import opened Domain
  import opened Records
  import opened NamedConf
  import Decimal
  import Tsig

  // ---- Spelling ------------------------------------------------------------

  predicate IsText(k: Token, t: Text) { (k.Word? || k.Quoted?) && k.text == t }

  /** The keyword in any letter case, quoted or not. */
  predicate IsKeyword(k: Token, t: Text) { (k.Word? || k.Quoted?) && LowerAll(k.text) == t }

  predicate ZoneTypeWord(t: Text, z: ZoneType) {
    match z
    case Primary => LowerAll(t) in {PRIMARY, MASTER}
    case Secondary => LowerAll(t) in {SECONDARY, SLAVE}
    case Stub => LowerAll(t) == STUB
    case Forward => LowerAll(t) == FORWARD
  }

  function Dots(n: nat): Text { seq(n, _ => DOT) }

  /** The algorithm's name with any number of final dots. */
  ghost predicate AlgorithmWord(t: Text, a: Tsig.Algorithm) {
    exists n: nat :: LowerAll(t) == AlgorithmBase(a) + Dots(n)
  }

  function AlgorithmBase(a: Tsig.Algorithm): Text {
    match a
    case HmacSha256 => HMAC_SHA256
    case HmacSha512 => HMAC_SHA512
    case HmacSha1 => HMAC_SHA1
  }

  /** Words that mean something else where an address or a list is named. */
  const RESERVED: set<Text> := {ANY, NONE, LOCALHOST, LOCALNETS, KEY}

  /** How one writer spells things: keywords in some letter case and quoting, and texts for values. */
  datatype Style = Style(keyword: Text -> Token, text: Text -> Token, ip: seq<Byte> -> Text, secret: seq<Byte> -> Text,
                         zoneType: ZoneType -> Text, algorithm: Tsig.Algorithm -> Text, wildcard: Text) {
    ghost predicate Fits(lib: Library) {
      && (forall t: Text :: LowerAll(t) == t ==> IsKeyword(keyword(t), t))
      && (forall t: Text :: IsText(text(t), t))
      && (forall a: seq<Byte> :: |a| == 4 || |a| == 16 ==> AddressText(lib, ip(a), a))
      && (forall m: seq<Byte> :: lib.material(secret(m)) == Some(m))
      && (forall z: ZoneType :: ZoneTypeWord(zoneType(z), z))
      && (forall a: Tsig.Algorithm :: AlgorithmWord(algorithm(a), a))
      && (wildcard == STAR || LowerAll(wildcard) == ANY)
    }
  }

  /** Text the address parser reads, and nothing else does. */
  predicate AddressText(lib: Library, t: Text, a: seq<Byte>) {
    lib.ip(t) == Some(a) && SLASH !in t && LowerAll(t) !in RESERVED && t != STAR
  }

  // ---- Blocks --------------------------------------------------------------

  function Printed<D>(write: D -> Tokens, ds: seq<D>): Tokens {
    if ds == [] then [] else write(ds[0]) + Printed(write, ds[1..])
  }

  /** Directives in force one after the other. */
  function Fold<S, D>(apply: (S, D) -> S, st: S, ds: seq<D>): S
    decreases ds
  {
    if ds == [] then st else Fold(apply, apply(st, ds[0]), ds[1..])
  }

  /** The step reads a printed directive exactly, whatever follows, and the directive does not look like the block's end. */
  ghost predicate Takes<S(!new), D(!new)>(step: (Tokens, S) -> Parsed<S>, write: D -> Tokens, apply: (S, D) -> S, end: Token, d: D) {
    write(d) != [] && write(d)[0] != end
    && forall st: S, x: Tokens :: step(write(d) + x, st) == Done(apply(st, d), x)
  }

  lemma {:induction false} BlockReadsBack<S(!new), D(!new)>(end: Token, step: (Tokens, S) -> Parsed<S>, write: D -> Tokens,
                                                          apply: (S, D) -> S, ds: seq<D>, st: S, x: Tokens)
    requires forall i :: 0 <= i < |ds| ==> Takes(step, write, apply, end, ds[i])
    ensures Block(end, step, Printed(write, ds) + [end] + x, st) == Done(Fold(apply, st, ds), x)
    decreases |ds|
  {
    var s := Printed(write, ds) + [end] + x;
    if ds == [] {
      assert s[0] == end && s[1..] == x;
    } else {
      assert Takes(step, write, apply, end, ds[0]);
      var rest := Printed(write, ds[1..]) + [end] + x;
      assert s == write(ds[0]) + rest && s[0] == write(ds[0])[0];
      assert step(s, st) == Done(apply(st, ds[0]), rest);
      forall i | 0 <= i < |ds[1..]| ensures Takes(step, write, apply, end, ds[1..][i]) { assert ds[1..][i] == ds[i + 1]; }
      BlockReadsBack(end, step, write, apply, ds[1..], apply(st, ds[0]), x);
    }
  }

  function Append<T>(): (seq<T>, T) -> seq<T> { (s, t) => s + [t] }

  lemma {:induction false} FoldAppends<T>(st: seq<T>, ds: seq<T>)
    ensures Fold(Append<T>(), st, ds) == st + ds
    decreases ds
  {
    if ds != [] {
      FoldAppends(st + [ds[0]], ds[1..]);
      assert st + [ds[0]] + ds[1..] == st + ds;
    } else {
      assert st + ds == st;
    }
  }

  lemma Next(k: Token, more: Tokens, x: Tokens)
    ensures ([k] + more + x)[0] == k && ([k] + more + x)[1..] == more + x
  {}

  // ---- Address-match lists -------------------------------------------------

  predicate Printable(lib: Library, e: AclElement) {
    match e
    case Address(a) => |a| == 4 || |a| == 16
    case Network(a, n) => (|a| == 4 && n <= 32) || (|a| == 16 && n <= 128)
    case Named(t) => LowerAll(t) !in RESERVED && SLASH !in t && lib.ip(t).None?
    case Negated(x) => !x.Negated? && Printable(lib, x)
    case _ => true
  }

  predicate AllPrintable(lib: Library, acl: Acl) {
    forall i :: 0 <= i < |acl| ==> Printable(lib, acl[i])
  }

  function ItemTokens(st: Style, e: AclElement): Tokens {
    match e
    case AnyAddress => [st.keyword(ANY)]
    case NoAddress => [st.keyword(NONE)]
    case Localhost => [st.keyword(LOCALHOST)]
    case Localnets => [st.keyword(LOCALNETS)]
    case Address(a) => [st.text(st.ip(a))]
    case Network(a, n) => [st.text(st.ip(a) + [SLASH] + Decimal.Digits(n))]
    case KeyName(n) => [st.keyword(KEY), st.text(Display(n))]
    case Named(t) => [st.text(t)]
    case Negated(x) => [Bang] + ItemTokens(st, x)
  }

  function ElementPrinter(st: Style): AclElement -> Tokens { e => ItemTokens(st, e) + [Semi] }

  function AclTokens(st: Style, acl: Acl): Tokens { [Open] + Printed(ElementPrinter(st), acl) + [Close] }

  lemma ReservedWords()
    ensures forall t <- RESERVED :: LowerAll(t) == t && SLASH !in t
    ensures ANY != NONE && ANY != LOCALHOST && ANY != LOCALNETS && ANY != KEY && NONE != LOCALHOST && NONE != LOCALNETS
    ensures NONE != KEY && LOCALHOST != LOCALNETS && LOCALHOST != KEY && LOCALNETS != KEY
  {
    assert ANY[0] == 97 && NONE[0] == 110 && LOCALHOST[5] == 104 && LOCALNETS[5] == 110 && KEY[0] == 107;
    assert |ANY| == 3 && |NONE| == 4 && |LOCALHOST| == 9 && |LOCALNETS| == 9 && |KEY| == 3;
  }

  lemma {:induction false} NoSlash(t: Text, rest: Text)
    requires SLASH !in t
    ensures SlashAt(t + [SLASH] + rest) == |t| && SlashAt(t) == |t|
  {
    var s := t + [SLASH] + rest;
    if t != [] {
      assert t[0] in t && forall b :: b in t[1..] ==> b in t;
      NoSlash(t[1..], rest);
      assert s[0] == t[0] && s[1..] == t[1..] + [SLASH] + rest;
    } else {
      assert s[0] == 47;
    }
  }

  lemma AddressReadsBack(lib: Library, t: Text, a: seq<Byte>)
    requires AddressText(lib, t, a)
    ensures ParseAclElement(lib, t) == Some(Address(a))
  {
    NoSlash(t, []);
    hide LowerAll, SlashAt, Ascii;
  }

  lemma NamedReadsBack(lib: Library, t: Text)
    requires Printable(lib, Named(t))
    ensures ParseAclElement(lib, t) == Some(Named(t)) && LowerAll(t) != KEY
  {
    NoSlash(t, []);
    hide LowerAll, SlashAt, Ascii;
  }

  lemma NetworkReadsBack(lib: Library, t: Text, a: seq<Byte>, n: nat)
    requires AddressText(lib, t, a) && Printable(lib, Network(a, n))
    ensures var text := t + [SLASH] + Decimal.Digits(n);
            ParseAclElement(lib, text) == Some(Network(a, n)) && LowerAll(text) != KEY
  {
    var text := t + [SLASH] + Decimal.Digits(n);
    NoSlash(t, Decimal.Digits(n));
    Decimal.ParsePrinted(n, 255);
    assert text[..|t|] == t && text[|t| + 1..] == Decimal.Digits(n);
    assert SLASH in LowerAll(text) by { assert LowerAll(text)[|t|] == SLASH; }
    ReservedWords();
    hide LowerAll, SlashAt, Ascii, Decimal.Digits, Decimal.Parse;
  }

  lemma WordReadsBack(lib: Library, t: Text)
    ensures LowerAll(t) == ANY ==> ParseAclElement(lib, t) == Some(AnyAddress)
    ensures LowerAll(t) == NONE ==> ParseAclElement(lib, t) == Some(NoAddress)
    ensures LowerAll(t) == LOCALHOST ==> ParseAclElement(lib, t) == Some(Localhost)
    ensures LowerAll(t) == LOCALNETS ==> ParseAclElement(lib, t) == Some(Localnets)
  {
    ReservedWords();
    hide Ascii, LowerAll;
  }

  lemma Keyword(lib: Library, st: Style, t: Text)
    requires st.Fits(lib) && LowerAll(t) == t
    ensures IsKeyword(st.keyword(t), t)
  {}

  lemma Written(lib: Library, st: Style, t: Text)
    requires st.Fits(lib)
    ensures IsText(st.text(t), t)
  {}

  lemma AddressWritten(lib: Library, st: Style, a: seq<Byte>)
    requires st.Fits(lib) && (|a| == 4 || |a| == 16)
    ensures AddressText(lib, st.ip(a), a)
  {}

  /** One token that is not the keyword `key`, read as an element. */
  lemma ElementAt(lib: Library, k: Token, e: AclElement, x: Tokens)
    requires (k.Word? || k.Quoted?) && LowerAll(k.text) != KEY && ParseAclElement(lib, k.text) == Some(e)
    ensures AclItem(lib, [k] + x) == Done(e, x)
  {
    hide ParseAclElement, LowerAll, Ascii;
    assert ([k] + x)[1..] == x;
  }

  lemma KeyNameAt(lib: Library, k: Token, t: Token, n: DomainName, x: Tokens)
    requires IsKeyword(k, KEY) && IsText(t, Display(n))
    ensures AclItem(lib, [k, t] + x) == Done(KeyName(n), x)
  {
    DisplayRoundTrip(n);
    hide LowerAll, Ascii, ParseName, Display;
    assert ([k, t] + x)[1..] == [t] + x && ([t] + x)[1..] == x;
  }

  lemma WordAt(lib: Library, st: Style, t: Text, e: AclElement, x: Tokens)
    requires st.Fits(lib) && t in RESERVED && t != KEY
    requires forall k: Text :: LowerAll(k) == t ==> ParseAclElement(lib, k) == Some(e)
    ensures AclItem(lib, [st.keyword(t)] + x) == Done(e, x)
  {
    ReservedWords();
    Keyword(lib, st, t);
    hide Ascii, LowerAll, ParseAclElement, AclItem;
    ElementAt(lib, st.keyword(t), e, x);
  }

  lemma ItemReadsBack(lib: Library, st: Style, e: AclElement, x: Tokens)
    requires st.Fits(lib) && Printable(lib, e) && !e.Negated?
    ensures AclItem(lib, ItemTokens(st, e) + x) == Done(e, x)
  {
    ReservedWords();
    hide Ascii, LowerAll, ParseAclElement, AclItem, Display, Style.Fits, AddressText;
    match e {
      case Address(a) =>
        AddressWritten(lib, st, a);
        AddressReadsBack(lib, st.ip(a), a);
        AddressIsNoKey(lib, st.ip(a), a);
        Written(lib, st, st.ip(a));
        ElementAt(lib, st.text(st.ip(a)), e, x);
      case Network(a, n) =>
        AddressWritten(lib, st, a);
        NetworkReadsBack(lib, st.ip(a), a, n);
        Written(lib, st, st.ip(a) + [SLASH] + Decimal.Digits(n));
        ElementAt(lib, st.text(st.ip(a) + [SLASH] + Decimal.Digits(n)), e, x);
      case Named(t) =>
        NamedReadsBack(lib, t);
        Written(lib, st, t);
        ElementAt(lib, st.text(t), e, x);
      case KeyName(n) =>
        Keyword(lib, st, KEY);
        Written(lib, st, Display(n));
        KeyNameAt(lib, st.keyword(KEY), st.text(Display(n)), n, x);
      case Negated(_) =>
      case _ =>
        var t := if e.AnyAddress? then ANY else if e.NoAddress? then NONE else if e.Localhost? then LOCALHOST else LOCALNETS;
        forall k: Text | LowerAll(k) == t ensures ParseAclElement(lib, k) == Some(e) { WordReadsBack(lib, k); }
        WordAt(lib, st, t, e, x);
    }
  }

  lemma AddressIsNoKey(lib: Library, t: Text, a: seq<Byte>)
    requires AddressText(lib, t, a)
    ensures LowerAll(t) != KEY
  {
    hide Ascii, LowerAll;
  }

  /** A printed element, with or without negation, is read exactly. */
  lemma ElementReadsBack(lib: Library, st: Style, e: AclElement, acl: Acl, x: Tokens)
    requires st.Fits(lib) && Printable(lib, e)
    ensures AclEntry(lib, ElementPrinter(st)(e) + x, acl) == Done(acl + [e], x)
  {
    hide AclItem, Style.Fits;
    var inner := if e.Negated? then e.element else e;
    var ts := ItemTokens(st, inner);
    ItemReadsBack(lib, st, inner, [Semi] + x);
    FirstIsText(lib, st, inner);
    assert ([Semi] + x)[1..] == x;
    if e.Negated? {
      assert ElementPrinter(st)(e) + x == [Bang] + (ts + ([Semi] + x));
      assert ([Bang] + (ts + ([Semi] + x)))[1..] == ts + ([Semi] + x);
    } else {
      assert ElementPrinter(st)(e) + x == ts + ([Semi] + x);
    }
  }

  lemma FirstIsText(lib: Library, st: Style, e: AclElement)
    requires st.Fits(lib) && !e.Negated?
    ensures ItemTokens(st, e) != [] && (ItemTokens(st, e)[0].Word? || ItemTokens(st, e)[0].Quoted?)
  {
    ReservedWords();
    hide Ascii, LowerAll, Display, Style.Fits;
    match e {
      case Address(a) => Written(lib, st, st.ip(a));
      case Network(a, n) => Written(lib, st, st.ip(a) + [SLASH] + Decimal.Digits(n));
      case Named(t) => Written(lib, st, t);
      case KeyName(n) => Keyword(lib, st, KEY);
      case Negated(_) =>
      case _ =>
        Keyword(lib, st, if e.AnyAddress? then ANY else if e.NoAddress? then NONE else if e.Localhost? then LOCALHOST else LOCALNETS);
    }
  }

  /** Every access list, written out, parses back to itself, whatever follows. */
  lemma AclReadsBack(lib: Library, st: Style, acl: Acl, x: Tokens)
    requires st.Fits(lib) && AllPrintable(lib, acl)
    ensures ParseAcl(lib, AclTokens(st, acl) + x) == Done(acl, x)
  {
    hide Style.Fits, AclEntry, ItemTokens, Printable;
    forall i | 0 <= i < |acl| ensures Takes(AclStep(lib), ElementPrinter(st), Append<AclElement>(), Close, acl[i]) {
      ElementTaken(lib, st, acl[i]);
    }
    BlockReadsBack(Close, AclStep(lib), ElementPrinter(st), Append<AclElement>(), acl, [], x);
    FoldAppends([], acl);
    assert [] + acl == acl;
    var body := Printed(ElementPrinter(st), acl) + [Close] + x;
    assert AclTokens(st, acl) + x == [Open] + body;
    assert ([Open] + body)[1..] == body;
  }

  lemma ElementTaken(lib: Library, st: Style, e: AclElement)
    requires st.Fits(lib) && Printable(lib, e)
    ensures Takes(AclStep(lib), ElementPrinter(st), Append<AclElement>(), Close, e)
  {
    var ts := ElementPrinter(st)(e);
    FirstIsText(lib, st, if e.Negated? then e.element else e);
    hide Style.Fits, AclEntry;
    forall acl: Acl, x: Tokens ensures AclStep(lib)(ts + x, acl) == Done(Append<AclElement>()(acl, e), x) {
      ElementReadsBack(lib, st, e, acl, x);
    }
  }

  // ---- Zones ---------------------------------------------------------------

  datatype ZoneItem = TypeIs(zoneType: ZoneType) | FileIs(file: Text) | TransferTo(acl: Acl)

  function ZoneItemTokens(st: Style, i: ZoneItem): Tokens {
    match i
    case TypeIs(z) => [st.keyword(TYPE), st.text(st.zoneType(z)), Semi]
    case FileIs(f) => [st.keyword(FILE), st.text(f), Semi]
    case TransferTo(acl) => [st.keyword(ALLOW_TRANSFER)] + AclTokens(st, acl) + [Semi]
  }

  function ZonePrinter(st: Style): ZoneItem -> Tokens { i => ZoneItemTokens(st, i) }

  /** A later directive of the same kind replaces an earlier one. */
  function SetZone(): (ZoneFields, ZoneItem) -> ZoneFields {
    (f: ZoneFields, i: ZoneItem) =>
      match i
      case TypeIs(z) => f.(zoneType := Some(z))
      case FileIs(t) => f.(file := Some(t))
      case TransferTo(acl) => f.(allowTransfer := Some(acl))
  }

  predicate ZoneItemPrintable(lib: Library, i: ZoneItem) { i.TransferTo? ==> AllPrintable(lib, i.acl) }

  /** What follows the keyword of a zone statement. */
  function ZoneTokens(st: Style, name: DomainName, items: seq<ZoneItem>): Tokens {
    [st.text(Display(name)), Open] + Printed(ZonePrinter(st), items) + [Close] + [Semi]
  }

  lemma ZoneTypeReadsBack(t: Text, z: ZoneType)
    requires ZoneTypeWord(t, z)
    ensures ZoneTypeOf(t) == Some(z)
  {
    hide LowerAll;
    assert PRIMARY[0] == 112 && MASTER[0] == 109 && SECONDARY[1] == 101 && SLAVE[1] == 108 && STUB[1] == 116 && FORWARD[0] == 102;
    assert SECONDARY[0] == 115 && SLAVE[0] == 115 && STUB[0] == 115;
  }

  /** A keyword, one text and a semicolon. */
  lemma TextDirective(k: Token, t: Token, x: Tokens)
    requires (k.Word? || k.Quoted?) && (t.Word? || t.Quoted?)
    ensures NextText([k, t, Semi] + x) == Done(k.text, [t, Semi] + x)
    ensures NextText([t, Semi] + x) == Done(t.text, [Semi] + x)
    ensures Expect([Semi] + x, Semi) == Done((), x)
  {
    assert ([k, t, Semi] + x)[1..] == [t, Semi] + x && ([t, Semi] + x)[1..] == [Semi] + x && ([Semi] + x)[1..] == x;
  }

  lemma AclDirective(lib: Library, st: Style, k: Token, acl: Acl, tail: Tokens, x: Tokens)
    requires st.Fits(lib) && AllPrintable(lib, acl) && (k.Word? || k.Quoted?)
    ensures var s := [k] + AclTokens(st, acl) + tail + x;
            NextText(s) == Done(k.text, AclTokens(st, acl) + (tail + x))
            && ParseAcl(lib, AclTokens(st, acl) + (tail + x)) == Done(acl, tail + x)
  {
    hide ParseAcl, AclTokens, Style.Fits, AllPrintable;
    AclReadsBack(lib, st, acl, tail + x);
    SkipOne(k, AclTokens(st, acl), tail, x);
  }

  lemma SkipOne(k: Token, a: Tokens, b: Tokens, x: Tokens)
    ensures ([k] + a + b + x)[0] == k && ([k] + a + b + x)[1..] == a + (b + x)
  {}

  lemma SemiAt(x: Tokens)
    ensures Expect([Semi] + x, Semi) == Done((), x)
  {
    assert ([Semi] + x)[1..] == x;
  }

  lemma ZoneItemReadsBack(lib: Library, st: Style, i: ZoneItem, f: ZoneFields, x: Tokens)
    requires st.Fits(lib) && ZoneItemPrintable(lib, i)
    ensures ZoneDirective(lib, ZoneItemTokens(st, i) + x, f) == Done(SetZone()(f, i), x)
  {
    ZoneWords();
    SemiAt(x);
    hide LowerAll, Ascii, ParseAcl, AclTokens, AllPrintable, ZoneTypeOf, Skipped, Style.Fits, NextText, Expect;
    match i {
      case TypeIs(z) =>
        ZoneTypeSpelt(lib, st, z);
        Keyword(lib, st, TYPE);
        TextDirective(st.keyword(TYPE), st.text(st.zoneType(z)), x);
      case FileIs(t) =>
        Keyword(lib, st, FILE);
        Written(lib, st, t);
        TextDirective(st.keyword(FILE), st.text(t), x);
      case TransferTo(acl) =>
        Keyword(lib, st, ALLOW_TRANSFER);
        AclDirective(lib, st, st.keyword(ALLOW_TRANSFER), acl, [Semi], x);
    }
  }

  lemma ZoneWords()
    ensures TYPE != FILE && TYPE != ALLOW_TRANSFER && FILE != ALLOW_TRANSFER
    ensures LowerAll(TYPE) == TYPE && LowerAll(FILE) == FILE && LowerAll(ALLOW_TRANSFER) == ALLOW_TRANSFER
  {
    assert TYPE[0] == 116 && FILE[0] == 102 && ALLOW_TRANSFER[0] == 97;
  }

  lemma ZoneTypeSpelt(lib: Library, st: Style, z: ZoneType)
    requires st.Fits(lib)
    ensures IsText(st.text(st.zoneType(z)), st.zoneType(z)) && ZoneTypeOf(st.zoneType(z)) == Some(z)
  {
    ZoneTypeReadsBack(st.zoneType(z), z);
    hide ZoneTypeOf, ZoneTypeWord;
  }

  /** Every zone block, its directives in any order and any number, parses to the last of each kind, or is refused without
      a type. */
  lemma ZoneReadsBack(lib: Library, st: Style, name: DomainName, items: seq<ZoneItem>, x: Tokens)
    requires st.Fits(lib) && forall i :: 0 <= i < |items| ==> ZoneItemPrintable(lib, items[i])
    ensures ParseZone(lib, ZoneTokens(st, name, items) + x) ==
            var f := Fold(SetZone(), ZoneFields(None, None, None), items);
            if f.zoneType.None? then Fail else Done(NamedZone(name, f.zoneType.value, f.file, f.allowTransfer), x)
  {
    forall i | 0 <= i < |items| ensures Takes(ZoneStep(lib), ZonePrinter(st), SetZone(), Close, items[i]) {
      ZoneItemTaken(lib, st, items[i]);
    }
    hide ZoneItemTokens, ZoneItemPrintable, SetZone, Takes;
    var empty := ZoneFields(None, None, None);
    BlockReadsBack(Close, ZoneStep(lib), ZonePrinter(st), SetZone(), items, empty, [Semi] + x);
    Written(lib, st, Display(name));
    SemiAt(x);
    var body := Printed(ZonePrinter(st), items);
    NameAndBlock(st.text(Display(name)), name, body, x);
    hide Style.Fits, Display, Block, Fold, ZoneStep, NextName, Expect, Printed;
  }

  /** A name, a brace, and a block that ends a statement. */
  lemma NameAndBlock(t: Token, name: DomainName, body: Tokens, x: Tokens)
    requires IsText(t, Display(name))
    ensures var s := [t, Open] + body + [Close] + [Semi] + x;
            && NextName(s) == Done(name, [Open] + (body + [Close] + ([Semi] + x)))
            && Expect([Open] + (body + [Close] + ([Semi] + x)), Open) == Done((), body + [Close] + ([Semi] + x))
  {
    hide Display, NextName;
    var rest := body + [Close] + ([Semi] + x);
    assert [t, Open] + body + [Close] + [Semi] + x == [t] + ([Open] + rest);
    NameAt(t, name, [Open] + rest);
    assert ([Open] + rest)[1..] == rest;
  }

  lemma NameAt(t: Token, name: DomainName, x: Tokens)
    requires IsText(t, Display(name))
    ensures NextName([t] + x) == Done(name, x)
  {
    DisplayRoundTrip(name);
    hide Display, ParseName;
    assert ([t] + x)[1..] == x;
  }

  lemma ZoneItemTaken(lib: Library, st: Style, i: ZoneItem)
    requires st.Fits(lib) && ZoneItemPrintable(lib, i)
    ensures Takes(ZoneStep(lib), ZonePrinter(st), SetZone(), Close, i)
  {
    ZoneWords();
    Keyword(lib, st, TYPE);
    Keyword(lib, st, FILE);
    Keyword(lib, st, ALLOW_TRANSFER);
    hide Style.Fits, ZoneDirective, LowerAll, Ascii, AclTokens;
    var ts := ZonePrinter(st)(i);
    assert ts != [] && ts[0] != Close;
    forall f: ZoneFields, x: Tokens ensures ZoneStep(lib)(ts + x, f) == Done(SetZone()(f, i), x) {
      ZoneItemReadsBack(lib, st, i, f, x);
    }
  }

  // ---- Keys ----------------------------------------------------------------

  datatype KeyItem = AlgorithmIs(algorithm: Tsig.Algorithm) | SecretIs(secret: Text)

  function KeyItemTokens(st: Style, i: KeyItem): Tokens {
    match i
    case AlgorithmIs(a) => [st.keyword(ALGORITHM), st.text(st.algorithm(a)), Semi]
    case SecretIs(t) => [st.keyword(SECRET), st.text(t), Semi]
  }

  function KeyPrinter(st: Style): KeyItem -> Tokens { i => KeyItemTokens(st, i) }

  function SetKey(): (KeyFields, KeyItem) -> KeyFields {
    (f: KeyFields, i: KeyItem) =>
      match i
      case AlgorithmIs(a) => f.(algorithm := Some(a))
      case SecretIs(t) => f.(secret := Some(t))
  }

  /** What follows the keyword of a key statement. */
  function KeyTokens(st: Style, name: DomainName, items: seq<KeyItem>): Tokens {
    [st.text(Display(name)), Open] + Printed(KeyPrinter(st), items) + [Close] + [Semi]
  }

  lemma {:induction false} DotsTrimmed(t: Text, n: nat)
    requires t != [] && t[|t| - 1] != DOT
    ensures TrimDots(t + Dots(n)) == t
    decreases n
  {
    if n > 0 {
      DotsTrimmed(t, n - 1);
      var s := t + Dots(n);
      assert s[..|s| - 1] == t + Dots(n - 1);
    } else {
      assert t + Dots(0) == t;
    }
  }

  lemma AlgorithmReadsBack(t: Text, a: Tsig.Algorithm)
    requires AlgorithmWord(t, a)
    ensures AlgorithmOf(t) == Some(a)
  {
    var n: nat :| LowerAll(t) == AlgorithmBase(a) + Dots(n);
    AlgorithmBases(a);
    DotsTrimmed(AlgorithmBase(a), n);
    hide LowerAll, TrimDots, Ascii, Dots;
  }

  lemma AlgorithmBases(a: Tsig.Algorithm)
    ensures AlgorithmBase(a) != [] && AlgorithmBase(a)[|AlgorithmBase(a)| - 1] != DOT
    ensures HMAC_SHA256 != HMAC_SHA512 && HMAC_SHA256 != HMAC_SHA1 && HMAC_SHA512 != HMAC_SHA1
  {
    assert HMAC_SHA256[8] == 50 && HMAC_SHA512[8] == 53 && HMAC_SHA1[8] == 49;
  }

  lemma AlgorithmSpelt(lib: Library, st: Style, a: Tsig.Algorithm)
    requires st.Fits(lib)
    ensures IsText(st.text(st.algorithm(a)), st.algorithm(a)) && AlgorithmOf(st.algorithm(a)) == Some(a)
  {
    AlgorithmReadsBack(st.algorithm(a), a);
    hide AlgorithmOf, AlgorithmWord;
  }

  lemma KeyWords()
    ensures ALGORITHM != SECRET && LowerAll(ALGORITHM) == ALGORITHM && LowerAll(SECRET) == SECRET
  {
    assert ALGORITHM[0] == 97 && SECRET[0] == 115;
  }

  lemma KeyItemReadsBack(lib: Library, st: Style, i: KeyItem, f: KeyFields, x: Tokens)
    requires st.Fits(lib)
    ensures KeyDirective(KeyItemTokens(st, i) + x, f) == Done(SetKey()(f, i), x)
  {
    KeyWords();
    SemiAt(x);
    hide LowerAll, Ascii, AlgorithmOf, Skipped, Style.Fits, NextText, Expect;
    match i {
      case AlgorithmIs(a) =>
        AlgorithmSpelt(lib, st, a);
        Keyword(lib, st, ALGORITHM);
        TextDirective(st.keyword(ALGORITHM), st.text(st.algorithm(a)), x);
      case SecretIs(t) =>
        Keyword(lib, st, SECRET);
        Written(lib, st, t);
        TextDirective(st.keyword(SECRET), st.text(t), x);
    }
  }

  lemma KeyItemTaken(lib: Library, st: Style, i: KeyItem)
    requires st.Fits(lib)
    ensures Takes(KeyDirectiveStep(), KeyPrinter(st), SetKey(), Close, i)
  {
    KeyWords();
    Keyword(lib, st, ALGORITHM);
    Keyword(lib, st, SECRET);
    hide Style.Fits, KeyDirective, LowerAll, Ascii;
    var ts := KeyPrinter(st)(i);
    assert ts != [] && ts[0] != Close;
    forall f: KeyFields, x: Tokens ensures KeyDirectiveStep()(ts + x, f) == Done(SetKey()(f, i), x) {
      KeyItemReadsBack(lib, st, i, f, x);
    }
  }

  /** Every key block parses to its last algorithm and the material of its last secret, or is refused. */
  lemma KeyReadsBack(lib: Library, st: Style, name: DomainName, items: seq<KeyItem>, x: Tokens)
    requires st.Fits(lib)
    ensures ParseKey(lib, KeyTokens(st, name, items) + x) ==
            var f := Fold(SetKey(), KeyFields(None, None), items);
            if f.algorithm.None? || f.secret.None? || lib.material(f.secret.value).None? then Fail
            else Done(NamedKey(name, f.algorithm.value, lib.material(f.secret.value).value), x)
  {
    forall i | 0 <= i < |items| ensures Takes(KeyDirectiveStep(), KeyPrinter(st), SetKey(), Close, items[i]) {
      KeyItemTaken(lib, st, items[i]);
    }
    hide KeyItemTokens, SetKey, Takes;
    BlockReadsBack(Close, KeyDirectiveStep(), KeyPrinter(st), SetKey(), items, KeyFields(None, None), [Semi] + x);
    Written(lib, st, Display(name));
    SemiAt(x);
    NameAndBlock(st.text(Display(name)), name, Printed(KeyPrinter(st), items), x);
    hide Style.Fits, Display, Block, Fold, KeyDirectiveStep, NextName, Expect, Printed;
  }

  // ---- Listeners -----------------------------------------------------------

  predicate AddressPrintable(address: ListenAddress) { address.Ip? ==> |address.address| == 4 || |address.address| == 16 }

  function ListenToken(st: Style, address: ListenAddress): Token {
    match address
    case Wildcard => st.text(st.wildcard)
    case Ip(a) => st.text(st.ip(a))
  }

  lemma ListenReadsBack(lib: Library, st: Style, address: ListenAddress)
    requires st.Fits(lib) && AddressPrintable(address)
    ensures var k := ListenToken(st, address);
            (k.Word? || k.Quoted?) && ParseListen(lib, k.text) == Some(address)
  {
    match address {
      case Wildcard => Written(lib, st, st.wildcard);
      case Ip(a) =>
        Written(lib, st, st.ip(a));
        AddressWritten(lib, st, a);
    }
    hide LowerAll, Ascii;
  }

  function NamePrinter(st: Style): DomainName -> Tokens { (n: DomainName) => [st.text(Display(n)), Semi] }

  function NamesTokens(st: Style, names: seq<DomainName>): Tokens { [Open] + Printed(NamePrinter(st), names) + [Close] }

  lemma NameTaken(lib: Library, st: Style, n: DomainName)
    requires st.Fits(lib)
    ensures Takes(KeyStep(), NamePrinter(st), Append<DomainName>(), Close, n)
  {
    Written(lib, st, Display(n));
    hide Style.Fits, Display, KeyEntry;
    var ts := NamePrinter(st)(n);
    forall ks: seq<DomainName>, x: Tokens ensures KeyStep()(ts + x, ks) == Done(Append<DomainName>()(ks, n), x) {
      NameEntryReadsBack(st.text(Display(n)), n, ks, x);
    }
  }

  lemma NameEntryReadsBack(t: Token, n: DomainName, ks: seq<DomainName>, x: Tokens)
    requires IsText(t, Display(n))
    ensures KeyEntry([t, Semi] + x, ks) == Done(ks + [n], x)
  {
    NameAt(t, n, [Semi] + x);
    assert [t, Semi] + x == [t] + ([Semi] + x);
    SemiAt(x);
    hide Display, NextName, Expect;
  }

  lemma NamesReadBack(lib: Library, st: Style, names: seq<DomainName>, x: Tokens)
    requires st.Fits(lib)
    ensures KeyNames(NamesTokens(st, names) + x) == Done(names, x)
  {
    forall i | 0 <= i < |names| ensures Takes(KeyStep(), NamePrinter(st), Append<DomainName>(), Close, names[i]) {
      NameTaken(lib, st, names[i]);
    }
    hide Style.Fits, Takes, KeyStep, NamePrinter;
    BlockReadsBack(Close, KeyStep(), NamePrinter(st), Append<DomainName>(), names, [], x);
    FoldAppends([], names);
    assert [] + names == names;
    OpenBlock(Printed(NamePrinter(st), names), x);
  }

  lemma OpenBlock(body: Tokens, x: Tokens)
    ensures Expect([Open] + body + [Close] + x, Open) == Done((), body + [Close] + x)
  {
    assert ([Open] + body + [Close] + x)[1..] == body + [Close] + x;
  }

  datatype EndpointItem = PortIs(port: nat) | AllowIs(acl: Acl) | KeysAre(keys: seq<DomainName>)

  predicate EndpointItemPrintable(lib: Library, i: EndpointItem) {
    (i.PortIs? ==> i.port <= 65535) && (i.AllowIs? ==> AllPrintable(lib, i.acl))
  }

  function EndpointItemTokens(st: Style, i: EndpointItem): Tokens {
    match i
    case PortIs(n) => [st.keyword(PORT), st.text(Decimal.Digits(n))]
    case AllowIs(acl) => [st.keyword(ALLOW)] + AclTokens(st, acl)
    case KeysAre(names) => [st.keyword(KEYS)] + NamesTokens(st, names)
  }

  function EndpointPrinter(st: Style): EndpointItem -> Tokens { i => EndpointItemTokens(st, i) }

  function SetEndpoint(): (ControlEndpoint, EndpointItem) -> ControlEndpoint {
    (e: ControlEndpoint, i: EndpointItem) =>
      match i
      case PortIs(n) => e.(port := n)
      case AllowIs(acl) => e.(allow := Some(acl))
      case KeysAre(names) => e.(keys := names)
  }

  lemma ListenWords()
    ensures PORT != ALLOW && PORT != KEYS && ALLOW != KEYS
    ensures LowerAll(PORT) == PORT && LowerAll(ALLOW) == ALLOW && LowerAll(KEYS) == KEYS && LowerAll(INET) == INET
  {
    assert PORT[0] == 112 && ALLOW[0] == 97 && KEYS[0] == 107;
  }

  lemma PortReadsBack(k: Token, t: Token, n: nat, x: Tokens)
    requires (k.Word? || k.Quoted?) && IsText(t, Decimal.Digits(n)) && n <= 65535
    ensures NextText([k, t] + x) == Done(k.text, [t] + x) && Port([t] + x) == Done(n, x)
  {
    Decimal.ParsePrinted(n, 0xFFFF);
    assert ([k, t] + x)[1..] == [t] + x && ([t] + x)[1..] == x;
    hide Decimal.Digits, Decimal.Parse;
  }

  lemma EndpointItemReadsBack(lib: Library, st: Style, i: EndpointItem, e: ControlEndpoint, x: Tokens)
    requires st.Fits(lib) && EndpointItemPrintable(lib, i)
    ensures EndpointOption(lib, EndpointItemTokens(st, i) + x, e) == Done(SetEndpoint()(e, i), x)
  {
    ListenWords();
    hide LowerAll, Ascii, ParseAcl, AclTokens, AllPrintable, KeyNames, NamesTokens, Port, Skipped, Style.Fits, NextText;
    match i {
      case PortIs(n) =>
        Keyword(lib, st, PORT);
        Written(lib, st, Decimal.Digits(n));
        PortReadsBack(st.keyword(PORT), st.text(Decimal.Digits(n)), n, x);
      case AllowIs(acl) =>
        Keyword(lib, st, ALLOW);
        AclDirective(lib, st, st.keyword(ALLOW), acl, [], x);
        assert [st.keyword(ALLOW)] + AclTokens(st, acl) + [] == [st.keyword(ALLOW)] + AclTokens(st, acl) && [] + x == x;
      case KeysAre(names) =>
        Keyword(lib, st, KEYS);
        NamesReadBack(lib, st, names, x);
        Behind(st.keyword(KEYS), NamesTokens(st, names), x);
    }
  }

  lemma Behind(k: Token, a: Tokens, x: Tokens)
    requires k.Word? || k.Quoted?
    ensures NextText([k] + a + x) == Done(k.text, a + x)
  {
    assert ([k] + a + x)[1..] == a + x;
  }

  lemma EndpointItemTaken(lib: Library, st: Style, i: EndpointItem)
    requires st.Fits(lib) && EndpointItemPrintable(lib, i)
    ensures Takes(EndpointStep(lib), EndpointPrinter(st), SetEndpoint(), Semi, i)
  {
    ListenWords();
    Keyword(lib, st, PORT);
    Keyword(lib, st, ALLOW);
    Keyword(lib, st, KEYS);
    hide Style.Fits, EndpointOption, LowerAll, Ascii, AclTokens, NamesTokens, Decimal.Digits;
    var ts := EndpointPrinter(st)(i);
    assert ts != [] && ts[0] != Semi;
    forall e: ControlEndpoint, x: Tokens ensures EndpointStep(lib)(ts + x, e) == Done(SetEndpoint()(e, i), x) {
      EndpointItemReadsBack(lib, st, i, e, x);
    }
  }

  /** A control listener as written; without a port it is 953. */
  datatype Listener = Listener(address: ListenAddress, items: seq<EndpointItem>) {
    function Endpoint(): ControlEndpoint { Fold(SetEndpoint(), ControlEndpoint(address, 953, None, []), items) }

    predicate Printable(lib: Library) {
      AddressPrintable(address) && forall i :: 0 <= i < |items| ==> EndpointItemPrintable(lib, items[i])
    }
  }

  function ListenerTokens(st: Style, l: Listener): Tokens {
    [st.keyword(INET), ListenToken(st, l.address)] + Printed(EndpointPrinter(st), l.items) + [Semi]
  }

  function ListenerPrinter(st: Style): Listener -> Tokens { l => ListenerTokens(st, l) }

  lemma InetAt(k: Token, t: Token, body: Tokens, x: Tokens)
    requires (k.Word? || k.Quoted?) && (t.Word? || t.Quoted?)
    ensures var s := [k, t] + body + [Semi] + x;
            NextText(s) == Done(k.text, [t] + (body + [Semi] + x)) && NextText([t] + (body + [Semi] + x)) == Done(t.text, body + [Semi] + x)
  {
    var rest := body + [Semi] + x;
    assert [k, t] + body + [Semi] + x == [k] + ([t] + rest);
    assert ([k] + ([t] + rest))[1..] == [t] + rest && ([t] + rest)[1..] == rest;
  }

  lemma ListenerReadsBack(lib: Library, st: Style, l: Listener, es: seq<ControlEndpoint>, x: Tokens)
    requires st.Fits(lib) && l.Printable(lib)
    ensures ControlDirective(lib, ListenerTokens(st, l) + x, es) == Done(es + [l.Endpoint()], x)
  {
    forall i | 0 <= i < |l.items| ensures Takes(EndpointStep(lib), EndpointPrinter(st), SetEndpoint(), Semi, l.items[i]) {
      EndpointItemTaken(lib, st, l.items[i]);
    }
    ListenWords();
    hide Style.Fits, Takes, EndpointStep, EndpointPrinter, SetEndpoint, LowerAll, Ascii, EndpointItemPrintable;
    BlockReadsBack(Semi, EndpointStep(lib), EndpointPrinter(st), SetEndpoint(), l.items, ControlEndpoint(l.address, 953, None, []), x);
    Keyword(lib, st, INET);
    ListenReadsBack(lib, st, l.address);
    InetAt(st.keyword(INET), ListenToken(st, l.address), Printed(EndpointPrinter(st), l.items), x);
    hide NextText, ParseListen, ListenToken, Block, Fold, Printed, Skipped;
  }

  function AppendEndpoint(): (seq<ControlEndpoint>, Listener) -> seq<ControlEndpoint> {
    (es: seq<ControlEndpoint>, l: Listener) => es + [l.Endpoint()]
  }

  function Endpoints(ls: seq<Listener>): seq<ControlEndpoint> {
    seq(|ls|, i requires 0 <= i < |ls| => ls[i].Endpoint())
  }

  lemma {:induction false} FoldEndpoints(es: seq<ControlEndpoint>, ls: seq<Listener>)
    ensures Fold(AppendEndpoint(), es, ls) == es + Endpoints(ls)
    decreases ls
  {
    hide Listener.Endpoint;
    if ls != [] {
      FoldEndpoints(es + [ls[0].Endpoint()], ls[1..]);
      assert Endpoints(ls) == [ls[0].Endpoint()] + Endpoints(ls[1..]);
      assert es + [ls[0].Endpoint()] + Endpoints(ls[1..]) == es + Endpoints(ls);
    } else {
      assert es + Endpoints(ls) == es;
    }
  }

  lemma ListenerTaken(lib: Library, st: Style, l: Listener)
    requires st.Fits(lib) && l.Printable(lib)
    ensures Takes(ControlStep(lib), ListenerPrinter(st), AppendEndpoint(), Close, l)
  {
    ListenWords();
    Keyword(lib, st, INET);
    hide Style.Fits, Listener.Printable, Listener.Endpoint, ControlDirective, LowerAll, Ascii, Printed;
    var ts := ListenerPrinter(st)(l);
    assert ts != [] && ts[0] != Close;
    forall es: seq<ControlEndpoint>, x: Tokens ensures ControlStep(lib)(ts + x, es) == Done(AppendEndpoint()(es, l), x) {
      ListenerReadsBack(lib, st, l, es, x);
    }
  }

  function ControlsTokens(st: Style, ls: seq<Listener>): Tokens { [Open] + Printed(ListenerPrinter(st), ls) + [Close] + [Semi] }

  lemma EndedBlock(body: Tokens, x: Tokens)
    ensures [Open] + body + [Close] + [Semi] + x == [Open] + body + [Close] + ([Semi] + x)
  {}

  /** Every list of control listeners parses back, with 953 where no port is given. */
  lemma ControlsReadBack(lib: Library, st: Style, ls: seq<Listener>, x: Tokens)
    requires st.Fits(lib) && forall i :: 0 <= i < |ls| ==> ls[i].Printable(lib)
    ensures ParseControls(lib, ControlsTokens(st, ls) + x) == Done(Endpoints(ls), x)
  {
    forall i | 0 <= i < |ls| ensures Takes(ControlStep(lib), ListenerPrinter(st), AppendEndpoint(), Close, ls[i]) {
      ListenerTaken(lib, st, ls[i]);
    }
    hide Style.Fits, Takes, ControlStep, ListenerPrinter, AppendEndpoint, Listener.Printable, Listener.Endpoint;
    var body := Printed(ListenerPrinter(st), ls);
    BlockReadsBack(Close, ControlStep(lib), ListenerPrinter(st), AppendEndpoint(), ls, [], [Semi] + x);
    FoldEndpoints([], ls);
    assert [] + Endpoints(ls) == Endpoints(ls);
    EndedBlock(body, x);
    OpenBlock(body, [Semi] + x);
    SemiAt(x);
    hide Block, Expect, Fold, Printed, Endpoints;
  }

  // ---- Statistics channels -------------------------------------------------

  datatype ChannelItem = ChannelPort(port: nat) | ChannelAllow(acl: Acl)

  predicate ChannelItemPrintable(lib: Library, i: ChannelItem) {
    (i.ChannelPort? ==> i.port <= 65535) && (i.ChannelAllow? ==> AllPrintable(lib, i.acl))
  }

  function ChannelItemTokens(st: Style, i: ChannelItem): Tokens {
    match i
    case ChannelPort(n) => [st.keyword(PORT), st.text(Decimal.Digits(n))]
    case ChannelAllow(acl) => [st.keyword(ALLOW)] + AclTokens(st, acl)
  }

  function ChannelItemPrinter(st: Style): ChannelItem -> Tokens { i => ChannelItemTokens(st, i) }

  function SetChannel(): (StatisticsChannel, ChannelItem) -> StatisticsChannel {
    (c: StatisticsChannel, i: ChannelItem) =>
      match i
      case ChannelPort(n) => c.(port := n)
      case ChannelAllow(acl) => c.(allow := Some(acl))
  }

  lemma ChannelItemReadsBack(lib: Library, st: Style, i: ChannelItem, c: StatisticsChannel, x: Tokens)
    requires st.Fits(lib) && ChannelItemPrintable(lib, i)
    ensures ChannelOption(lib, ChannelItemTokens(st, i) + x, c) == Done(SetChannel()(c, i), x)
  {
    ListenWords();
    hide LowerAll, Ascii, ParseAcl, AclTokens, AllPrintable, Port, Skipped, Style.Fits, NextText;
    match i {
      case ChannelPort(n) =>
        Keyword(lib, st, PORT);
        Written(lib, st, Decimal.Digits(n));
        PortReadsBack(st.keyword(PORT), st.text(Decimal.Digits(n)), n, x);
      case ChannelAllow(acl) =>
        Keyword(lib, st, ALLOW);
        AclDirective(lib, st, st.keyword(ALLOW), acl, [], x);
        assert [st.keyword(ALLOW)] + AclTokens(st, acl) + [] == [st.keyword(ALLOW)] + AclTokens(st, acl) && [] + x == x;
    }
  }

  lemma ChannelItemTaken(lib: Library, st: Style, i: ChannelItem)
    requires st.Fits(lib) && ChannelItemPrintable(lib, i)
    ensures Takes(ChannelStep(lib), ChannelItemPrinter(st), SetChannel(), Semi, i)
  {
    ListenWords();
    Keyword(lib, st, PORT);
    Keyword(lib, st, ALLOW);
    hide Style.Fits, ChannelOption, LowerAll, Ascii, AclTokens, Decimal.Digits;
    var ts := ChannelItemPrinter(st)(i);
    assert ts != [] && ts[0] != Semi;
    forall c: StatisticsChannel, x: Tokens ensures ChannelStep(lib)(ts + x, c) == Done(SetChannel()(c, i), x) {
      ChannelItemReadsBack(lib, st, i, c, x);
    }
  }

  /** A statistics listener as written; without a port it is 80. */
  datatype StatisticsListener = StatisticsListener(address: ListenAddress, items: seq<ChannelItem>) {
    function Channel(): StatisticsChannel { Fold(SetChannel(), StatisticsChannel(address, 80, None), items) }

    predicate Printable(lib: Library) {
      AddressPrintable(address) && forall i :: 0 <= i < |items| ==> ChannelItemPrintable(lib, items[i])
    }
  }

  function ChannelTokens(st: Style, l: StatisticsListener): Tokens {
    [st.keyword(INET), ListenToken(st, l.address)] + Printed(ChannelItemPrinter(st), l.items) + [Semi]
  }

  function ChannelPrinter(st: Style): StatisticsListener -> Tokens { l => ChannelTokens(st, l) }

  lemma ChannelReadsBack(lib: Library, st: Style, l: StatisticsListener, cs: seq<StatisticsChannel>, x: Tokens)
    requires st.Fits(lib) && l.Printable(lib)
    ensures ChannelDirective(lib, ChannelTokens(st, l) + x, cs) == Done(cs + [l.Channel()], x)
  {
    forall i | 0 <= i < |l.items| ensures Takes(ChannelStep(lib), ChannelItemPrinter(st), SetChannel(), Semi, l.items[i]) {
      ChannelItemTaken(lib, st, l.items[i]);
    }
    ListenWords();
    hide Style.Fits, Takes, ChannelStep, ChannelItemPrinter, SetChannel, LowerAll, Ascii, ChannelItemPrintable;
    BlockReadsBack(Semi, ChannelStep(lib), ChannelItemPrinter(st), SetChannel(), l.items, StatisticsChannel(l.address, 80, None), x);
    Keyword(lib, st, INET);
    ListenReadsBack(lib, st, l.address);
    InetAt(st.keyword(INET), ListenToken(st, l.address), Printed(ChannelItemPrinter(st), l.items), x);
    hide NextText, ParseListen, ListenToken, Block, Fold, Printed, Skipped;
  }

  function AppendChannel(): (seq<StatisticsChannel>, StatisticsListener) -> seq<StatisticsChannel> {
    (cs: seq<StatisticsChannel>, l: StatisticsListener) => cs + [l.Channel()]
  }

  function Channels(ls: seq<StatisticsListener>): seq<StatisticsChannel> {
    seq(|ls|, i requires 0 <= i < |ls| => ls[i].Channel())
  }

  lemma {:induction false} FoldChannels(cs: seq<StatisticsChannel>, ls: seq<StatisticsListener>)
    ensures Fold(AppendChannel(), cs, ls) == cs + Channels(ls)
    decreases ls
  {
    hide StatisticsListener.Channel;
    if ls != [] {
      FoldChannels(cs + [ls[0].Channel()], ls[1..]);
      assert Channels(ls) == [ls[0].Channel()] + Channels(ls[1..]);
      assert cs + [ls[0].Channel()] + Channels(ls[1..]) == cs + Channels(ls);
    } else {
      assert cs + Channels(ls) == cs;
    }
  }

  lemma ChannelTaken(lib: Library, st: Style, l: StatisticsListener)
    requires st.Fits(lib) && l.Printable(lib)
    ensures Takes(ChannelsStep(lib), ChannelPrinter(st), AppendChannel(), Close, l)
  {
    ListenWords();
    Keyword(lib, st, INET);
    hide Style.Fits, StatisticsListener.Printable, StatisticsListener.Channel, ChannelDirective, LowerAll, Ascii, Printed;
    var ts := ChannelPrinter(st)(l);
    assert ts != [] && ts[0] != Close;
    forall cs: seq<StatisticsChannel>, x: Tokens ensures ChannelsStep(lib)(ts + x, cs) == Done(AppendChannel()(cs, l), x) {
      ChannelReadsBack(lib, st, l, cs, x);
    }
  }

  function StatisticsTokens(st: Style, ls: seq<StatisticsListener>): Tokens {
    [Open] + Printed(ChannelPrinter(st), ls) + [Close] + [Semi]
  }

  /** Every list of statistics listeners parses back, with 80 where no port is given. */
  lemma StatisticsReadBack(lib: Library, st: Style, ls: seq<StatisticsListener>, x: Tokens)
    requires st.Fits(lib) && forall i :: 0 <= i < |ls| ==> ls[i].Printable(lib)
    ensures ParseStatistics(lib, StatisticsTokens(st, ls) + x) == Done(Channels(ls), x)
  {
    forall i | 0 <= i < |ls| ensures Takes(ChannelsStep(lib), ChannelPrinter(st), AppendChannel(), Close, ls[i]) {
      ChannelTaken(lib, st, ls[i]);
    }
    hide Style.Fits, Takes, ChannelsStep, ChannelPrinter, AppendChannel, StatisticsListener.Printable, StatisticsListener.Channel;
    var body := Printed(ChannelPrinter(st), ls);
    BlockReadsBack(Close, ChannelsStep(lib), ChannelPrinter(st), AppendChannel(), ls, [], [Semi] + x);
    FoldChannels([], ls);
    assert [] + Channels(ls) == Channels(ls);
    EndedBlock(body, x);
    OpenBlock(body, [Semi] + x);
    SemiAt(x);
    hide Block, Expect, Fold, Printed, Channels;
  }

  // ---- Options -------------------------------------------------------------

  datatype OptionItem = DirectoryIs(directory: Text) | RecursionFor(acl: Acl) | StatisticsOn(listeners: seq<StatisticsListener>)

  predicate OptionItemPrintable(lib: Library, i: OptionItem) {
    (i.RecursionFor? ==> AllPrintable(lib, i.acl))
    && (i.StatisticsOn? ==> forall j :: 0 <= j < |i.listeners| ==> i.listeners[j].Printable(lib))
  }

  function OptionItemTokens(st: Style, i: OptionItem): Tokens {
    match i
    case DirectoryIs(t) => [st.keyword(DIRECTORY), st.text(t), Semi]
    case RecursionFor(acl) => [st.keyword(ALLOW_RECURSION)] + AclTokens(st, acl) + [Semi]
    case StatisticsOn(ls) => [st.keyword(STATISTICS)] + StatisticsTokens(st, ls)
  }

  function OptionPrinter(st: Style): OptionItem -> Tokens { i => OptionItemTokens(st, i) }

  function SetOption(): (NamedConf, OptionItem) -> NamedConf {
    (conf: NamedConf, i: OptionItem) =>
      match i
      case DirectoryIs(t) => conf.(options := conf.options.(directory := Some(t)))
      case RecursionFor(acl) => conf.(options := conf.options.(allowRecursion := Some(acl)))
      case StatisticsOn(ls) => conf.(statistics := conf.statistics + Channels(ls))
  }

  lemma OptionWords()
    ensures DIRECTORY != ALLOW_RECURSION && DIRECTORY != STATISTICS && ALLOW_RECURSION != STATISTICS
    ensures LowerAll(DIRECTORY) == DIRECTORY && LowerAll(ALLOW_RECURSION) == ALLOW_RECURSION && LowerAll(STATISTICS) == STATISTICS
  {
    assert DIRECTORY[0] == 100 && ALLOW_RECURSION[0] == 97 && STATISTICS[0] == 115;
  }

  lemma OptionItemReadsBack(lib: Library, st: Style, i: OptionItem, conf: NamedConf, x: Tokens)
    requires st.Fits(lib) && OptionItemPrintable(lib, i)
    ensures OptionDirective(lib, OptionItemTokens(st, i) + x, conf) == Done(SetOption()(conf, i), x)
  {
    OptionWords();
    SemiAt(x);
    hide LowerAll, Ascii, ParseAcl, AclTokens, AllPrintable, ParseStatistics, StatisticsTokens, Channels, Skipped, Style.Fits, NextText,
      Expect, StatisticsListener.Printable;
    match i {
      case DirectoryIs(t) =>
        Keyword(lib, st, DIRECTORY);
        Written(lib, st, t);
        TextDirective(st.keyword(DIRECTORY), st.text(t), x);
      case RecursionFor(acl) =>
        Keyword(lib, st, ALLOW_RECURSION);
        AclDirective(lib, st, st.keyword(ALLOW_RECURSION), acl, [Semi], x);
      case StatisticsOn(ls) =>
        Keyword(lib, st, STATISTICS);
        StatisticsReadBack(lib, st, ls, x);
        Behind(st.keyword(STATISTICS), StatisticsTokens(st, ls), x);
    }
  }

  lemma OptionItemTaken(lib: Library, st: Style, i: OptionItem)
    requires st.Fits(lib) && OptionItemPrintable(lib, i)
    ensures Takes(OptionStep(lib), OptionPrinter(st), SetOption(), Close, i)
  {
    OptionWords();
    Keyword(lib, st, DIRECTORY);
    Keyword(lib, st, ALLOW_RECURSION);
    Keyword(lib, st, STATISTICS);
    hide Style.Fits, OptionDirective, LowerAll, Ascii, AclTokens, StatisticsTokens, OptionItemPrintable, Channels;
    var ts := OptionPrinter(st)(i);
    assert ts != [] && ts[0] != Close;
    forall conf: NamedConf, x: Tokens ensures OptionStep(lib)(ts + x, conf) == Done(SetOption()(conf, i), x) {
      OptionItemReadsBack(lib, st, i, conf, x);
    }
  }

  function OptionsTokens(st: Style, items: seq<OptionItem>): Tokens { [Open] + Printed(OptionPrinter(st), items) + [Close] + [Semi] }

  /** Every options block adds its directives to the configuration in order. */
  lemma OptionsReadBack(lib: Library, st: Style, items: seq<OptionItem>, conf: NamedConf, x: Tokens)
    requires st.Fits(lib) && forall i :: 0 <= i < |items| ==> OptionItemPrintable(lib, items[i])
    ensures ParseOptions(lib, OptionsTokens(st, items) + x, conf) == Done(Fold(SetOption(), conf, items), x)
  {
    forall i | 0 <= i < |items| ensures Takes(OptionStep(lib), OptionPrinter(st), SetOption(), Close, items[i]) {
      OptionItemTaken(lib, st, items[i]);
    }
    hide Style.Fits, Takes, OptionStep, OptionPrinter, SetOption, OptionItemPrintable;
    var body := Printed(OptionPrinter(st), items);
    BlockReadsBack(Close, OptionStep(lib), OptionPrinter(st), SetOption(), items, conf, [Semi] + x);
    EndedBlock(body, x);
    OpenBlock(body, [Semi] + x);
    SemiAt(x);
    hide Block, Expect, Fold, Printed;
  }
}
