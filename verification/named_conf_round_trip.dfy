/** Whole configurations, written as tokens and parsed back. */
module NamedConfRoundTrip {
  import opened Bytes
  import opened Domain
  import opened Records
  import opened NamedConf
  import opened NamedConfPrinting

  // ---- Whole configurations ------------------------------------------------

  /** A top-level statement as written. */
  datatype Item =
    | ZoneAt(zone: DomainName, zoneItems: seq<ZoneItem>)
    | KeyAt(key: DomainName, keyItems: seq<KeyItem>)
    | AclAt(name: Text, acl: Acl)
    | OptionsAt(optionItems: seq<OptionItem>)
    | ControlsAt(listeners: seq<Listener>)
    | StatisticsAt(channels: seq<StatisticsListener>)

  predicate ItemPrintable(lib: Library, i: Item) {
    match i
    case ZoneAt(_, items) =>
      (forall j :: 0 <= j < |items| ==> ZoneItemPrintable(lib, items[j])) && ZoneOf(items).zoneType.Some?
    case KeyAt(_, items) => KeyOf(items).algorithm.Some? && KeyOf(items).secret.Some? && lib.material(KeyOf(items).secret.value).Some?
    case AclAt(_, acl) => AllPrintable(lib, acl)
    case OptionsAt(items) => forall j :: 0 <= j < |items| ==> OptionItemPrintable(lib, items[j])
    case ControlsAt(ls) => forall j :: 0 <= j < |ls| ==> ls[j].Printable(lib)
    case StatisticsAt(ls) => forall j :: 0 <= j < |ls| ==> ls[j].Printable(lib)
  }

  function ZoneOf(items: seq<ZoneItem>): ZoneFields { Fold(SetZone(), ZoneFields(None, None, None), items) }

  function KeyOf(items: seq<KeyItem>): KeyFields { Fold(SetKey(), KeyFields(None, None), items) }

  function StatementTokens(st: Style, i: Item): Tokens {
    match i
    case ZoneAt(name, items) => [st.keyword(ZONE)] + ZoneTokens(st, name, items)
    case KeyAt(name, items) => [st.keyword(KEY)] + KeyTokens(st, name, items)
    case AclAt(name, acl) => [st.keyword(ACL), st.text(name)] + AclTokens(st, acl) + [Semi]
    case OptionsAt(items) => [st.keyword(OPTIONS)] + OptionsTokens(st, items)
    case ControlsAt(ls) => [st.keyword(CONTROLS)] + ControlsTokens(st, ls)
    case StatisticsAt(ls) => [st.keyword(STATISTICS)] + StatisticsTokens(st, ls)
  }

  function StatementPrinter(st: Style): Item -> Tokens { i => StatementTokens(st, i) }

  /** The configuration with one more statement in force. */
  function Enter(lib: Library, conf: NamedConf, i: Item): NamedConf
    requires ItemPrintable(lib, i)
  {
    match i
    case ZoneAt(name, items) =>
      var f := ZoneOf(items);
      conf.(zones := conf.zones + [NamedZone(name, f.zoneType.value, f.file, f.allowTransfer)])
    case KeyAt(name, items) =>
      var f := KeyOf(items);
      conf.(keys := conf.keys + [NamedKey(name, f.algorithm.value, lib.material(f.secret.value).value)])
    case AclAt(name, acl) => conf.(acls := conf.acls + [NamedAcl(name, acl)])
    case OptionsAt(items) => Fold(SetOption(), conf, items)
    case ControlsAt(ls) => conf.(controls := conf.controls + Endpoints(ls))
    case StatisticsAt(ls) => conf.(statistics := conf.statistics + Channels(ls))
  }

  function EnterAll(lib: Library, conf: NamedConf, items: seq<Item>): NamedConf
    requires forall j :: 0 <= j < |items| ==> ItemPrintable(lib, items[j])
    decreases items
  {
    if items == [] then conf else EnterAll(lib, Enter(lib, conf, items[0]), items[1..])
  }

  lemma StatementWords()
    ensures forall t <- [ZONE, KEY, ACL, OPTIONS, CONTROLS, STATISTICS] :: LowerAll(t) == t
    ensures ZONE != KEY && ZONE != ACL && ZONE != OPTIONS && ZONE != CONTROLS && ZONE != STATISTICS
    ensures KEY != ACL && KEY != OPTIONS && KEY != CONTROLS && KEY != STATISTICS
    ensures ACL != OPTIONS && ACL != CONTROLS && ACL != STATISTICS
    ensures OPTIONS != CONTROLS && OPTIONS != STATISTICS && CONTROLS != STATISTICS
  {
    assert ZONE[0] == 122 && KEY[0] == 107 && ACL[0] == 97 && OPTIONS[0] == 111 && CONTROLS[0] == 99 && STATISTICS[0] == 115;
  }

  lemma StatementKeyword(lib: Library, st: Style, t: Text)
    requires st.Fits(lib) && t in [ZONE, KEY, ACL, OPTIONS, CONTROLS, STATISTICS]
    ensures IsKeyword(st.keyword(t), t)
  {
    StatementWords();
    hide LowerAll, Ascii, Style.Fits;
    Keyword(lib, st, t);
  }

  /** Every statement, written out, is parsed into the configuration, whatever follows. */
  lemma StatementReadsBack(lib: Library, st: Style, i: Item, conf: NamedConf, x: Tokens)
    requires st.Fits(lib) && ItemPrintable(lib, i)
    ensures Statement(lib, StatementTokens(st, i) + x, conf) == Done(Enter(lib, conf, i), x)
  {
    StatementWords();
    hide LowerAll, Ascii, Style.Fits, NextText, ParseZone, ParseKey, ParseAcl, ParseOptions, ParseControls, ParseStatistics, Skipped,
      ZoneTokens, KeyTokens, AclTokens, OptionsTokens, ControlsTokens, StatisticsTokens, Fold, Endpoints, Channels, Expect,
      AllPrintable, ZoneItemPrintable, OptionItemPrintable, Listener.Printable, StatisticsListener.Printable;
    match i {
      case ZoneAt(name, items) =>
        StatementKeyword(lib, st, ZONE);
        ZoneReadsBack(lib, st, name, items, x);
        Behind(st.keyword(ZONE), ZoneTokens(st, name, items), x);
      case KeyAt(name, items) =>
        StatementKeyword(lib, st, KEY);
        KeyReadsBack(lib, st, name, items, x);
        Behind(st.keyword(KEY), KeyTokens(st, name, items), x);
      case AclAt(name, acl) =>
        StatementKeyword(lib, st, ACL);
        Written(lib, st, name);
        AclDirective(lib, st, st.text(name), acl, [Semi], x);
        Behind(st.keyword(ACL), [st.text(name)] + AclTokens(st, acl) + [Semi], x);
        TwoInFront(st.keyword(ACL), st.text(name), AclTokens(st, acl));
        SemiAt(x);
      case OptionsAt(items) =>
        StatementKeyword(lib, st, OPTIONS);
        OptionsReadBack(lib, st, items, conf, x);
        Behind(st.keyword(OPTIONS), OptionsTokens(st, items), x);
      case ControlsAt(ls) =>
        StatementKeyword(lib, st, CONTROLS);
        ControlsReadBack(lib, st, ls, x);
        Behind(st.keyword(CONTROLS), ControlsTokens(st, ls), x);
      case StatisticsAt(ls) =>
        StatementKeyword(lib, st, STATISTICS);
        StatisticsReadBack(lib, st, ls, x);
        Behind(st.keyword(STATISTICS), StatisticsTokens(st, ls), x);
    }
  }

  lemma TwoInFront(k: Token, t: Token, a: Tokens)
    ensures [k, t] + a + [Semi] == [k] + ([t] + a + [Semi])
  {}

  /** Every list of statements, in any order and any spelling, parses to the configuration they make. */
  lemma {:induction false} StatementsReadBack(lib: Library, st: Style, items: seq<Item>, conf: NamedConf)
    requires st.Fits(lib) && forall j :: 0 <= j < |items| ==> ItemPrintable(lib, items[j])
    ensures Statements(lib, Printed(StatementPrinter(st), items), conf) == Ok(EnterAll(lib, conf, items))
    decreases items
  {
    hide Style.Fits, ItemPrintable, Statement, Enter, StatementTokens;
    if items != [] {
      var rest := Printed(StatementPrinter(st), items[1..]);
      StatementReadsBack(lib, st, items[0], conf, rest);
      StatementNotEmpty(st, items[0]);
      StatementsReadBack(lib, st, items[1..], Enter(lib, conf, items[0]));
    }
  }

  lemma StatementNotEmpty(st: Style, i: Item)
    ensures StatementTokens(st, i) != []
  {
    hide ZoneTokens, KeyTokens, AclTokens, OptionsTokens, ControlsTokens, StatisticsTokens;
  }

  // ---- Any configuration can be written ------------------------------------

  function ZoneItems(z: NamedZone): seq<ZoneItem> {
    [TypeIs(z.zoneType)] + (if z.file.Some? then [FileIs(z.file.value)] else [])
    + if z.allowTransfer.Some? then [TransferTo(z.allowTransfer.value)] else []
  }

  function EndpointItems(e: ControlEndpoint): seq<EndpointItem> {
    [PortIs(e.port)] + (if e.allow.Some? then [AllowIs(e.allow.value)] else []) + [KeysAre(e.keys)]
  }

  function ChannelItems(c: StatisticsChannel): seq<ChannelItem> {
    [ChannelPort(c.port)] + if c.allow.Some? then [ChannelAllow(c.allow.value)] else []
  }

  function OptionItems(o: NamedOptions): seq<OptionItem> {
    (if o.directory.Some? then [DirectoryIs(o.directory.value)] else [])
    + if o.allowRecursion.Some? then [RecursionFor(o.allowRecursion.value)] else []
  }

  function ZonesOf(zs: seq<NamedZone>): seq<Item> {
    seq(|zs|, i requires 0 <= i < |zs| => ZoneAt(zs[i].name, ZoneItems(zs[i])))
  }

  function KeysOf(st: Style, ks: seq<NamedKey>): seq<Item> {
    seq(|ks|, i requires 0 <= i < |ks| => KeyAt(ks[i].name, [AlgorithmIs(ks[i].algorithm), SecretIs(st.secret(ks[i].material))]))
  }

  function AclsOf(acls: seq<NamedAcl>): seq<Item> {
    seq(|acls|, i requires 0 <= i < |acls| => AclAt(acls[i].name, acls[i].acl))
  }

  function ListenersOf(es: seq<ControlEndpoint>): seq<Listener> {
    seq(|es|, i requires 0 <= i < |es| => Listener(es[i].address, EndpointItems(es[i])))
  }

  function ChannelsOf(cs: seq<StatisticsChannel>): seq<StatisticsListener> {
    seq(|cs|, i requires 0 <= i < |cs| => StatisticsListener(cs[i].address, ChannelItems(cs[i])))
  }

  function Rest(conf: NamedConf): seq<Item> {
    [OptionsAt(OptionItems(conf.options)), ControlsAt(ListenersOf(conf.controls)), StatisticsAt(ChannelsOf(conf.statistics))]
  }

  function ItemsOf(st: Style, conf: NamedConf): seq<Item> {
    ZonesOf(conf.zones) + KeysOf(st, conf.keys) + AclsOf(conf.acls) + Rest(conf)
  }

  predicate ListPrintable(lib: Library, acl: Option<Acl>) { acl.Some? ==> AllPrintable(lib, acl.value) }

  predicate ConfPrintable(lib: Library, conf: NamedConf) {
    && (forall i :: 0 <= i < |conf.zones| ==> ListPrintable(lib, conf.zones[i].allowTransfer))
    && (forall i :: 0 <= i < |conf.acls| ==> AllPrintable(lib, conf.acls[i].acl))
    && ListPrintable(lib, conf.options.allowRecursion)
    && (forall i :: 0 <= i < |conf.controls| ==>
          AddressPrintable(conf.controls[i].address) && conf.controls[i].port <= 65535 && ListPrintable(lib, conf.controls[i].allow))
    && (forall i :: 0 <= i < |conf.statistics| ==>
          AddressPrintable(conf.statistics[i].address) && conf.statistics[i].port <= 65535
          && ListPrintable(lib, conf.statistics[i].allow))
  }

  lemma FoldOne<S, D>(apply: (S, D) -> S, st: S, d: D, ds: seq<D>)
    ensures Fold(apply, st, [d] + ds) == Fold(apply, apply(st, d), ds)
  {
    assert ([d] + ds)[1..] == ds;
  }

  lemma ZoneItemsMake(lib: Library, z: NamedZone)
    requires ListPrintable(lib, z.allowTransfer)
    ensures ItemPrintable(lib, ZoneAt(z.name, ZoneItems(z)))
    ensures ZoneOf(ZoneItems(z)) == ZoneFields(Some(z.zoneType), z.file, z.allowTransfer)
  {
    hide AllPrintable;
    var f: ZoneFields := ZoneFields(None, None, None);
    var third: seq<ZoneItem> := if z.allowTransfer.Some? then [TransferTo(z.allowTransfer.value)] else [];
    var second: seq<ZoneItem> := if z.file.Some? then [FileIs(z.file.value)] else [];
    assert ZoneItems(z) == [TypeIs(z.zoneType)] + (second + third);
    FoldOne(SetZone(), f, TypeIs(z.zoneType), second + third);
    var g := SetZone()(f, TypeIs(z.zoneType));
    if z.file.Some? {
      FoldOne(SetZone(), g, FileIs(z.file.value), third);
    } else {
      assert second + third == third;
    }
    var h := g.(file := z.file);
    if z.allowTransfer.Some? {
      assert third == third + [];
      FoldOne(SetZone(), h, TransferTo(z.allowTransfer.value), []);
    }
  }

  lemma KeyItemsMake(lib: Library, st: Style, k: NamedKey)
    requires st.Fits(lib)
    ensures var items := [AlgorithmIs(k.algorithm), SecretIs(st.secret(k.material))];
            ItemPrintable(lib, KeyAt(k.name, items)) && KeyOf(items) == KeyFields(Some(k.algorithm), Some(st.secret(k.material)))
            && lib.material(st.secret(k.material)) == Some(k.material)
  {
    var items := [AlgorithmIs(k.algorithm), SecretIs(st.secret(k.material))];
    SecretRead(lib, st, k.material);
    hide Style.Fits;
    var f: KeyFields := KeyFields(None, None);
    var secret := SecretIs(st.secret(k.material));
    assert items == [AlgorithmIs(k.algorithm)] + [secret] && [secret] == [secret] + [];
    FoldOne(SetKey(), f, AlgorithmIs(k.algorithm), [secret]);
    FoldOne(SetKey(), f.(algorithm := Some(k.algorithm)), secret, []);
  }

  lemma SecretRead(lib: Library, st: Style, m: seq<Byte>)
    requires st.Fits(lib)
    ensures lib.material(st.secret(m)) == Some(m)
  {}

  lemma EndpointItemsMake(lib: Library, e: ControlEndpoint)
    requires AddressPrintable(e.address) && e.port <= 65535 && ListPrintable(lib, e.allow)
    ensures Listener(e.address, EndpointItems(e)).Printable(lib) && Listener(e.address, EndpointItems(e)).Endpoint() == e
  {
    hide AllPrintable, AddressPrintable;
    var start := ControlEndpoint(e.address, 953, None, []);
    var second: seq<EndpointItem> := if e.allow.Some? then [AllowIs(e.allow.value)] else [];
    assert EndpointItems(e) == [PortIs(e.port)] + (second + [KeysAre(e.keys)]);
    FoldOne(SetEndpoint(), start, PortIs(e.port), second + [KeysAre(e.keys)]);
    var g := start.(port := e.port);
    if e.allow.Some? {
      FoldOne(SetEndpoint(), g, AllowIs(e.allow.value), [KeysAre(e.keys)]);
    } else {
      assert second + [KeysAre(e.keys)] == [KeysAre(e.keys)];
    }
    assert [KeysAre(e.keys)] == [KeysAre(e.keys)] + [];
    FoldOne(SetEndpoint(), g.(allow := e.allow), KeysAre(e.keys), []);
  }

  lemma ChannelItemsMake(lib: Library, c: StatisticsChannel)
    requires AddressPrintable(c.address) && c.port <= 65535 && ListPrintable(lib, c.allow)
    ensures StatisticsListener(c.address, ChannelItems(c)).Printable(lib) && StatisticsListener(c.address, ChannelItems(c)).Channel() == c
  {
    hide AllPrintable, AddressPrintable;
    var start := StatisticsChannel(c.address, 80, None);
    var second: seq<ChannelItem> := if c.allow.Some? then [ChannelAllow(c.allow.value)] else [];
    FoldOne(SetChannel(), start, ChannelPort(c.port), second);
    if c.allow.Some? {
      assert second == second + [];
      FoldOne(SetChannel(), start.(port := c.port), ChannelAllow(c.allow.value), []);
    }
  }

  lemma OptionItemsMake(lib: Library, o: NamedOptions, conf: NamedConf)
    requires ListPrintable(lib, o.allowRecursion) && conf.options == NamedOptions(None, None)
    ensures ItemPrintable(lib, OptionsAt(OptionItems(o)))
    ensures Fold(SetOption(), conf, OptionItems(o)) == conf.(options := o)
  {
    hide AllPrintable;
    var second: seq<OptionItem> := if o.allowRecursion.Some? then [RecursionFor(o.allowRecursion.value)] else [];
    var g := conf.(options := NamedOptions(o.directory, None));
    if o.directory.Some? {
      FoldOne(SetOption(), conf, DirectoryIs(o.directory.value), second);
    } else {
      assert OptionItems(o) == second && g == conf;
    }
    if o.allowRecursion.Some? {
      assert second == second + [];
      FoldOne(SetOption(), g, RecursionFor(o.allowRecursion.value), []);
    }
  }

  predicate AllItems(lib: Library, items: seq<Item>) { forall j :: 0 <= j < |items| ==> ItemPrintable(lib, items[j]) }

  lemma {:induction false} EnterJoin(lib: Library, conf: NamedConf, a: seq<Item>, b: seq<Item>)
    requires AllItems(lib, a) && AllItems(lib, b)
    ensures AllItems(lib, a + b) && EnterAll(lib, conf, a + b) == EnterAll(lib, EnterAll(lib, conf, a), b)
    decreases a
  {
    hide ItemPrintable, Enter;
    if a == [] {
      assert a + b == b;
    } else {
      EnterJoin(lib, Enter(lib, conf, a[0]), a[1..], b);
      assert (a + b)[1..] == a[1..] + b;
    }
  }

  lemma {:induction false} EnterZones(lib: Library, conf: NamedConf, zs: seq<NamedZone>)
    requires forall i :: 0 <= i < |zs| ==> ListPrintable(lib, zs[i].allowTransfer)
    ensures AllItems(lib, ZonesOf(zs)) && EnterAll(lib, conf, ZonesOf(zs)) == conf.(zones := conf.zones + zs)
    decreases zs
  {
    hide ListPrintable, ZoneItems, ZoneOf, ZoneItemPrintable;
    forall i | 0 <= i < |zs| ensures ItemPrintable(lib, ZonesOf(zs)[i]) { ZoneItemsMake(lib, zs[i]); }
    if zs != [] {
      ZoneItemsMake(lib, zs[0]);
      assert ZonesOf(zs)[1..] == ZonesOf(zs[1..]);
      assert conf.zones + [zs[0]] + zs[1..] == conf.zones + zs;
      EnterZones(lib, conf.(zones := conf.zones + [zs[0]]), zs[1..]);
    } else {
      assert conf.zones + zs == conf.zones;
    }
  }

  lemma {:induction false} EnterKeys(lib: Library, st: Style, conf: NamedConf, ks: seq<NamedKey>)
    requires st.Fits(lib)
    ensures AllItems(lib, KeysOf(st, ks)) && EnterAll(lib, conf, KeysOf(st, ks)) == conf.(keys := conf.keys + ks)
    decreases ks
  {
    hide Style.Fits, KeyOf;
    forall i | 0 <= i < |ks| ensures ItemPrintable(lib, KeysOf(st, ks)[i]) { KeyItemsMake(lib, st, ks[i]); }
    if ks != [] {
      KeyItemsMake(lib, st, ks[0]);
      assert KeysOf(st, ks)[1..] == KeysOf(st, ks[1..]);
      assert conf.keys + [ks[0]] + ks[1..] == conf.keys + ks;
      EnterKeys(lib, st, conf.(keys := conf.keys + [ks[0]]), ks[1..]);
    } else {
      assert conf.keys + ks == conf.keys;
    }
  }

  lemma {:induction false} EnterAcls(lib: Library, conf: NamedConf, acls: seq<NamedAcl>)
    requires forall i :: 0 <= i < |acls| ==> AllPrintable(lib, acls[i].acl)
    ensures AllItems(lib, AclsOf(acls)) && EnterAll(lib, conf, AclsOf(acls)) == conf.(acls := conf.acls + acls)
    decreases acls
  {
    hide AllPrintable;
    if acls != [] {
      assert AclsOf(acls)[1..] == AclsOf(acls[1..]);
      assert conf.acls + [acls[0]] + acls[1..] == conf.acls + acls;
      EnterAcls(lib, conf.(acls := conf.acls + [acls[0]]), acls[1..]);
    } else {
      assert conf.acls + acls == conf.acls;
    }
  }

  lemma ListenersMake(lib: Library, es: seq<ControlEndpoint>)
    requires forall i :: 0 <= i < |es| ==>
               AddressPrintable(es[i].address) && es[i].port <= 65535 && ListPrintable(lib, es[i].allow)
    ensures ItemPrintable(lib, ControlsAt(ListenersOf(es))) && Endpoints(ListenersOf(es)) == es
  {
    hide AddressPrintable, ListPrintable, EndpointItems, Listener.Printable, Listener.Endpoint;
    forall i | 0 <= i < |es| ensures ListenersOf(es)[i].Printable(lib) && ListenersOf(es)[i].Endpoint() == es[i] {
      EndpointItemsMake(lib, es[i]);
    }
  }

  lemma ChannelsMake(lib: Library, cs: seq<StatisticsChannel>)
    requires forall i :: 0 <= i < |cs| ==>
               AddressPrintable(cs[i].address) && cs[i].port <= 65535 && ListPrintable(lib, cs[i].allow)
    ensures ItemPrintable(lib, StatisticsAt(ChannelsOf(cs))) && Channels(ChannelsOf(cs)) == cs
  {
    hide AddressPrintable, ListPrintable, ChannelItems, StatisticsListener.Printable, StatisticsListener.Channel;
    forall i | 0 <= i < |cs| ensures ChannelsOf(cs)[i].Printable(lib) && ChannelsOf(cs)[i].Channel() == cs[i] {
      ChannelItemsMake(lib, cs[i]);
    }
  }

  lemma EnterRest(lib: Library, conf: NamedConf, start: NamedConf)
    requires ConfPrintable(lib, conf)
    requires start == NamedConf(conf.zones, conf.keys, conf.acls, NamedOptions(None, None), [], [])
    ensures AllItems(lib, Rest(conf)) && EnterAll(lib, start, Rest(conf)) == conf
  {
    hide ListPrintable, AddressPrintable, AllPrintable;
    OptionItemsMake(lib, conf.options, start);
    ListenersMake(lib, conf.controls);
    ChannelsMake(lib, conf.statistics);
    hide ItemPrintable, OptionItems, ListenersOf, ChannelsOf, Fold, Endpoints, Channels;
    var items := Rest(conf);
    var a := Enter(lib, start, items[0]);
    assert a == start.(options := conf.options);
    var b := Enter(lib, a, items[1]);
    assert [] + conf.controls == conf.controls && [] + conf.statistics == conf.statistics;
    assert b == a.(controls := conf.controls);
    assert Enter(lib, b, items[2]) == b.(statistics := conf.statistics) == conf;
    hide Enter;
    assert items[1..] == [items[1], items[2]] && items[1..][1..] == [items[2]] && [items[2]][1..] == [];
    assert EnterAll(lib, b, [items[2]]) == conf;
    assert EnterAll(lib, a, items[1..]) == conf;
  }

  lemma ItemsMake(lib: Library, st: Style, conf: NamedConf)
    requires st.Fits(lib) && ConfPrintable(lib, conf)
    ensures AllItems(lib, ItemsOf(st, conf)) && EnterAll(lib, DEFAULT, ItemsOf(st, conf)) == conf
  {
    hide Style.Fits, ItemPrintable, ZonesOf, KeysOf, AclsOf, Rest, EnterAll, AllItems, ListPrintable, AddressPrintable, AllPrintable;
    var zs, ks, acls := ZonesOf(conf.zones), KeysOf(st, conf.keys), AclsOf(conf.acls);
    var a := DEFAULT.(zones := [] + conf.zones);
    var b := a.(keys := [] + conf.keys);
    var c := b.(acls := [] + conf.acls);
    EnterZones(lib, DEFAULT, conf.zones);
    EnterKeys(lib, st, a, conf.keys);
    EnterAcls(lib, b, conf.acls);
    EnterRest(lib, conf, c);
    EnterJoin(lib, DEFAULT, zs, ks);
    EnterJoin(lib, DEFAULT, zs + ks, acls);
    EnterJoin(lib, DEFAULT, zs + ks + acls, Rest(conf));
  }

  /** Every configuration with printable lists and addresses, written out in any spelling, parses back to itself. */
  lemma ConfReadsBack(lib: Library, st: Style, conf: NamedConf)
    requires st.Fits(lib) && ConfPrintable(lib, conf)
    ensures Parse(lib, Printed(StatementPrinter(st), ItemsOf(st, conf))) == Ok(conf)
  {
    ItemsMake(lib, st, conf);
    hide Style.Fits, ConfPrintable, ItemPrintable, EnterAll, ItemsOf, Printed, Statements;
    StatementsReadBack(lib, st, ItemsOf(st, conf), DEFAULT);
  }
}
