/** Unknown `named.conf` statements change nothing, wherever they stand. */
module NamedConfLaws {
  import opened Bytes
  import opened Domain
  import opened Records
  import opened NamedConf
  import Decimal

  // ---- Unknown statements --------------------------------------------------

  /** Brace depth after some tokens: none if a brace closes nothing, or a semicolon stands outside braces. */
  function Depth(body: Tokens, depth: nat): Option<nat> {
    if body == [] then Some(depth)
    else
      match body[0]
      case Open => Depth(body[1..], depth + 1)
      case Close => if depth == 0 then None else Depth(body[1..], depth - 1)
      case Semi => if depth == 0 then None else Depth(body[1..], depth)
      case _ => Depth(body[1..], depth)
  }

  /** A statement with a keyword that is not known: balanced braces, ended by the only semicolon outside them. */
  predicate UnknownStatement(s: Tokens, known: set<Text>) {
    |s| >= 2 && (s[0].Word? || s[0].Quoted?) && LowerAll(s[0].text) !in known
    && s[|s| - 1] == Semi && Depth(s[1..|s| - 1], 0) == Some(0)
  }

  const TOP_LEVEL: set<Text> := {ZONE, KEY, ACL, OPTIONS, CONTROLS, STATISTICS}
  const IN_ZONE: set<Text> := {TYPE, FILE, ALLOW_TRANSFER}
  const IN_KEY: set<Text> := {ALGORITHM, SECRET}
  const IN_OPTIONS: set<Text> := {DIRECTORY, ALLOW_RECURSION, STATISTICS}

  /** Balanced tokens and a semicolon are skipped exactly, whatever follows. */
  lemma {:induction false} SkipBalanced(body: Tokens, depth: nat, x: Tokens)
    requires Depth(body, depth) == Some(0)
    ensures Skip(body + [Semi] + x, depth) == Done((), x)
  {
    var s := body + [Semi] + x;
    if body == [] {
      assert s[1..] == x;
    } else {
      assert s[1..] == body[1..] + [Semi] + x;
      SkipBalanced(body[1..], match body[0] case Open => depth + 1 case Close => depth - 1 case _ => depth, x);
    }
  }

  lemma UnknownSkips(s: Tokens, known: set<Text>, x: Tokens)
    requires UnknownStatement(s, known)
    ensures NextText(s + x) == Done(s[0].text, s[1..] + x) && Skip(s[1..] + x, 0) == Done((), x)
  {
    var body := s[1..|s| - 1];
    assert s[1..] == body + [Semi] && (s + x)[1..] == s[1..] + x;
    SkipBalanced(body, 0, x);
    hide Skip, Depth;
  }

  // ---- What is parsed depends only on what is read -------------------------

  /** Whatever a parser accepts it accepts in front of anything else, leaving that too. */
  ghost predicate Stable<T>(p: Parsed<T>, q: Parsed<T>, x: Tokens) {
    p.Done? ==> q == Done(p.value, p.rest + x)
  }

  ghost predicate StableStep<S(!new)>(step: (Tokens, S) -> Parsed<S>) {
    forall s: Tokens, st: S, x: Tokens :: Stable(step(s, st), step(s + x, st), x)
  }

  lemma TailOf(s: Tokens, x: Tokens)
    requires s != []
    ensures (s + x)[0] == s[0] && (s + x)[1..] == s[1..] + x
  {}

  lemma TextStable(s: Tokens, x: Tokens)
    ensures Stable(NextText(s), NextText(s + x), x)
  {
    if s != [] { TailOf(s, x); }
  }

  lemma ExpectStable(s: Tokens, k: Token, x: Tokens)
    ensures Stable(Expect(s, k), Expect(s + x, k), x)
  {
    if s != [] { TailOf(s, x); }
  }

  lemma {:induction false} SkipStable(s: Tokens, depth: nat, x: Tokens)
    ensures Stable(Skip(s, depth), Skip(s + x, depth), x)
  {
    if s != [] {
      TailOf(s, x);
      SkipStable(s[1..], depth + 1, x);
      SkipStable(s[1..], if depth > 0 then depth - 1 else 0, x);
      SkipStable(s[1..], depth, x);
    }
  }

  lemma SkippedStable<S>(s: Tokens, st: S, x: Tokens)
    ensures Stable(Skipped(s, st), Skipped(s + x, st), x)
  {
    SkipStable(s, 0, x);
    hide Skip;
  }

  lemma EndedStable<T>(p: Parsed<T>, q: Parsed<T>, x: Tokens)
    requires Stable(p, q, x)
    ensures Stable(Ended(p), Ended(q), x)
  {
    if p.Done? { ExpectStable(p.rest, Semi, x); }
    hide Expect;
  }

  lemma {:induction false} BlockStable<S(!new)>(end: Token, step: (Tokens, S) -> Parsed<S>, s: Tokens, st: S, x: Tokens)
    requires StableStep(step)
    ensures Stable(Block(end, step, s, st), Block(end, step, s + x, st), x)
    decreases |s|
  {
    if s != [] && s[0] == end {
      TailOf(s, x);
    } else {
      var p := step(s, st);
      assert Stable(p, step(s + x, st), x);
      if p.Done? && |p.rest| < |s| {
        if s != [] { TailOf(s, x); }
        BlockStable(end, step, p.rest, p.value, x);
      }
    }
  }

  lemma PortStable(s: Tokens, x: Tokens)
    ensures Stable(Port(s), Port(s + x), x)
  {
    TextStable(s, x);
    hide NextText, Decimal.Parse;
  }

  lemma NameStable(s: Tokens, x: Tokens)
    ensures Stable(NextName(s), NextName(s + x), x)
  {
    TextStable(s, x);
    hide NextText, ParseName;
  }

  lemma AclItemStable(lib: Library, s: Tokens, x: Tokens)
    ensures Stable(AclItem(lib, s), AclItem(lib, s + x), x)
  {
    hide NextText, NextName, ParseAclElement;
    TextStable(s, x);
    var t := NextText(s);
    if t.Done? { NameStable(t.rest, x); }
  }

  lemma AclEntryStable(lib: Library, s: Tokens, acl: Acl, x: Tokens)
    ensures Stable(AclEntry(lib, s, acl), AclEntry(lib, s + x, acl), x)
  {
    hide AclItem, Ended;
    if s != [] {
      TailOf(s, x);
      var from := if s[0] == Bang then s[1..] else s;
      AclItemStable(lib, from, x);
      EndedStable(AclItem(lib, from), AclItem(lib, from + x), x);
    } else {
    }
  }

  lemma AclStable(lib: Library, s: Tokens, x: Tokens)
    ensures Stable(ParseAcl(lib, s), ParseAcl(lib, s + x), x)
  {
    hide Expect, AclEntry, Block;
    ExpectStable(s, Open, x);
    forall s: Tokens, acl: Acl, x: Tokens ensures Stable(AclStep(lib)(s, acl), AclStep(lib)(s + x, acl), x) {
      AclEntryStable(lib, s, acl, x);
    }
    var open := Expect(s, Open);
    if open.Done? { BlockStable(Close, AclStep(lib), open.rest, [], x); }
  }

  lemma KeyNamesStable(s: Tokens, x: Tokens)
    ensures Stable(KeyNames(s), KeyNames(s + x), x)
  {
    hide Expect, NextName, Ended, Block;
    ExpectStable(s, Open, x);
    forall s: Tokens, keys: seq<DomainName>, x: Tokens ensures Stable(KeyStep()(s, keys), KeyStep()(s + x, keys), x) {
      NameStable(s, x);
      EndedStable(NextName(s), NextName(s + x), x);
    }
    var open := Expect(s, Open);
    if open.Done? { BlockStable(Close, KeyStep(), open.rest, [], x); }
  }

  lemma ZoneDirectiveStable(lib: Library, s: Tokens, f: ZoneFields, x: Tokens)
    ensures Stable(ZoneDirective(lib, s, f), ZoneDirective(lib, s + x, f), x)
  {
    hide NextText, ParseAcl, Ended, Skipped, ZoneTypeOf, LowerAll;
    TextStable(s, x);
    var t := NextText(s);
    if t.Done? {
      SkippedStable(t.rest, f, x);
      TextStable(t.rest, x);
      AclStable(lib, t.rest, x);
      var v, acl := NextText(t.rest), ParseAcl(lib, t.rest);
      if v.Done? {
        var g, h := f.(zoneType := ZoneTypeOf(v.value)), f.(file := Some(v.value));
        EndedStable(Done(g, v.rest), Done(g, v.rest + x), x);
        EndedStable(Done(h, v.rest), Done(h, v.rest + x), x);
      }
      if acl.Done? {
        var g := f.(allowTransfer := Some(acl.value));
        EndedStable(Done(g, acl.rest), Done(g, acl.rest + x), x);
      }
    }
  }

  lemma ZoneStepStable(lib: Library)
    ensures StableStep(ZoneStep(lib))
  {
    hide ZoneDirective;
    forall s: Tokens, f: ZoneFields, x: Tokens ensures Stable(ZoneStep(lib)(s, f), ZoneStep(lib)(s + x, f), x) {
      ZoneDirectiveStable(lib, s, f, x);
    }
  }

  lemma ZoneStable(lib: Library, s: Tokens, x: Tokens)
    ensures Stable(ParseZone(lib, s), ParseZone(lib, s + x), x)
  {
    hide NextName, Expect, Block, Ended, ZoneStep;
    NameStable(s, x);
    ZoneStepStable(lib);
    var name := NextName(s);
    if name.Done? {
      ExpectStable(name.rest, Open, x);
      var open := Expect(name.rest, Open);
      if open.Done? {
        var none := ZoneFields(None, None, None);
        BlockStable(Close, ZoneStep(lib), open.rest, none, x);
        EndedStable(Block(Close, ZoneStep(lib), open.rest, none), Block(Close, ZoneStep(lib), open.rest + x, none), x);
      }
    }
  }

  lemma KeyDirectiveStable(s: Tokens, f: KeyFields, x: Tokens)
    ensures Stable(KeyDirective(s, f), KeyDirective(s + x, f), x)
  {
    hide NextText, Ended, Skipped, AlgorithmOf, LowerAll;
    TextStable(s, x);
    var t := NextText(s);
    if t.Done? {
      SkippedStable(t.rest, f, x);
      TextStable(t.rest, x);
      var v := NextText(t.rest);
      if v.Done? {
        var g, h := f.(algorithm := AlgorithmOf(v.value)), f.(secret := Some(v.value));
        EndedStable(Done(g, v.rest), Done(g, v.rest + x), x);
        EndedStable(Done(h, v.rest), Done(h, v.rest + x), x);
      }
    }
  }

  lemma KeyStepStable()
    ensures StableStep(KeyDirectiveStep())
  {
    hide KeyDirective;
    forall s: Tokens, f: KeyFields, x: Tokens ensures Stable(KeyDirectiveStep()(s, f), KeyDirectiveStep()(s + x, f), x) {
      KeyDirectiveStable(s, f, x);
    }
  }

  lemma KeyStable(lib: Library, s: Tokens, x: Tokens)
    ensures Stable(ParseKey(lib, s), ParseKey(lib, s + x), x)
  {
    hide NextName, Expect, Block, Ended, KeyDirectiveStep;
    NameStable(s, x);
    KeyStepStable();
    var name := NextName(s);
    if name.Done? {
      ExpectStable(name.rest, Open, x);
      var open := Expect(name.rest, Open);
      if open.Done? {
        var none := KeyFields(None, None);
        BlockStable(Close, KeyDirectiveStep(), open.rest, none, x);
        EndedStable(Block(Close, KeyDirectiveStep(), open.rest, none), Block(Close, KeyDirectiveStep(), open.rest + x, none), x);
      }
    }
  }

  lemma EndpointStepStable(lib: Library)
    ensures StableStep(EndpointStep(lib))
  {
    hide NextText, Port, ParseAcl, KeyNames, Skipped, LowerAll;
    forall s: Tokens, e: ControlEndpoint, x: Tokens ensures Stable(EndpointStep(lib)(s, e), EndpointStep(lib)(s + x, e), x) {
      TextStable(s, x);
      var t := NextText(s);
      if t.Done? {
        PortStable(t.rest, x);
        AclStable(lib, t.rest, x);
        KeyNamesStable(t.rest, x);
        SkippedStable(t.rest, e, x);
      }
    }
  }

  lemma ControlStepStable(lib: Library)
    ensures StableStep(ControlStep(lib))
  {
    hide NextText, Block, Skipped, LowerAll, EndpointStep, ParseListen;
    EndpointStepStable(lib);
    forall s: Tokens, es: seq<ControlEndpoint>, x: Tokens ensures Stable(ControlStep(lib)(s, es), ControlStep(lib)(s + x, es), x) {
      TextStable(s, x);
      var t := NextText(s);
      if t.Done? {
        SkippedStable(t.rest, es, x);
        TextStable(t.rest, x);
        var v := NextText(t.rest);
        if v.Done? && ParseListen(lib, v.value).Some? {
          BlockStable(Semi, EndpointStep(lib), v.rest, ControlEndpoint(ParseListen(lib, v.value).value, 953, None, []), x);
        }
      }
    }
  }

  lemma ControlsStable(lib: Library, s: Tokens, x: Tokens)
    ensures Stable(ParseControls(lib, s), ParseControls(lib, s + x), x)
  {
    hide Expect, Block, Ended, ControlStep;
    ExpectStable(s, Open, x);
    ControlStepStable(lib);
    var open := Expect(s, Open);
    if open.Done? {
      BlockStable(Close, ControlStep(lib), open.rest, [], x);
      EndedStable(Block(Close, ControlStep(lib), open.rest, []), Block(Close, ControlStep(lib), open.rest + x, []), x);
    }
  }

  lemma ChannelStepStable(lib: Library)
    ensures StableStep(ChannelStep(lib))
  {
    hide NextText, Port, ParseAcl, Skipped, LowerAll;
    forall s: Tokens, c: StatisticsChannel, x: Tokens ensures Stable(ChannelStep(lib)(s, c), ChannelStep(lib)(s + x, c), x) {
      TextStable(s, x);
      var t := NextText(s);
      if t.Done? {
        PortStable(t.rest, x);
        AclStable(lib, t.rest, x);
        SkippedStable(t.rest, c, x);
      }
    }
  }

  lemma ChannelsStepStable(lib: Library)
    ensures StableStep(ChannelsStep(lib))
  {
    hide NextText, Block, Skipped, LowerAll, ChannelStep, ParseListen;
    ChannelStepStable(lib);
    forall s: Tokens, cs: seq<StatisticsChannel>, x: Tokens ensures Stable(ChannelsStep(lib)(s, cs), ChannelsStep(lib)(s + x, cs), x) {
      TextStable(s, x);
      var t := NextText(s);
      if t.Done? {
        SkippedStable(t.rest, cs, x);
        TextStable(t.rest, x);
        var v := NextText(t.rest);
        if v.Done? && ParseListen(lib, v.value).Some? {
          BlockStable(Semi, ChannelStep(lib), v.rest, StatisticsChannel(ParseListen(lib, v.value).value, 80, None), x);
        }
      }
    }
  }

  lemma StatisticsStable(lib: Library, s: Tokens, x: Tokens)
    ensures Stable(ParseStatistics(lib, s), ParseStatistics(lib, s + x), x)
  {
    hide Expect, Block, Ended, ChannelsStep;
    ExpectStable(s, Open, x);
    ChannelsStepStable(lib);
    var open := Expect(s, Open);
    if open.Done? {
      BlockStable(Close, ChannelsStep(lib), open.rest, [], x);
      EndedStable(Block(Close, ChannelsStep(lib), open.rest, []), Block(Close, ChannelsStep(lib), open.rest + x, []), x);
    }
  }

  lemma OptionDirectiveStable(lib: Library, s: Tokens, conf: NamedConf, x: Tokens)
    ensures Stable(OptionDirective(lib, s, conf), OptionDirective(lib, s + x, conf), x)
  {
    hide NextText, ParseAcl, ParseStatistics, Ended, Skipped, LowerAll;
    TextStable(s, x);
    var t := NextText(s);
    if t.Done? {
      SkippedStable(t.rest, conf, x);
      TextStable(t.rest, x);
      AclStable(lib, t.rest, x);
      StatisticsStable(lib, t.rest, x);
      var v, acl := NextText(t.rest), ParseAcl(lib, t.rest);
      if v.Done? {
        var g := conf.(options := conf.options.(directory := Some(v.value)));
        EndedStable(Done(g, v.rest), Done(g, v.rest + x), x);
      }
      if acl.Done? {
        var g := conf.(options := conf.options.(allowRecursion := Some(acl.value)));
        EndedStable(Done(g, acl.rest), Done(g, acl.rest + x), x);
      }
    }
  }

  lemma OptionStepStable(lib: Library)
    ensures StableStep(OptionStep(lib))
  {
    hide OptionDirective;
    forall s: Tokens, c: NamedConf, x: Tokens ensures Stable(OptionStep(lib)(s, c), OptionStep(lib)(s + x, c), x) {
      OptionDirectiveStable(lib, s, c, x);
    }
  }

  lemma OptionsStable(lib: Library, s: Tokens, conf: NamedConf, x: Tokens)
    ensures Stable(ParseOptions(lib, s, conf), ParseOptions(lib, s + x, conf), x)
  {
    hide Expect, Block, Ended, OptionStep;
    ExpectStable(s, Open, x);
    OptionStepStable(lib);
    var open := Expect(s, Open);
    if open.Done? {
      BlockStable(Close, OptionStep(lib), open.rest, conf, x);
      EndedStable(Block(Close, OptionStep(lib), open.rest, conf), Block(Close, OptionStep(lib), open.rest + x, conf), x);
    }
  }

  /** A top-level statement is parsed from its own tokens alone. */
  lemma StatementStable(lib: Library, s: Tokens, conf: NamedConf, x: Tokens)
    ensures Stable(Statement(lib, s, conf), Statement(lib, s + x, conf), x)
  {
    hide NextText, ParseZone, ParseKey, ParseAcl, ParseOptions, ParseControls, ParseStatistics, Ended, Skipped, LowerAll;
    TextStable(s, x);
    var t := NextText(s);
    if t.Done? {
      var r := t.rest;
      ZoneStable(lib, r, x);
      KeyStable(lib, r, x);
      OptionsStable(lib, r, conf, x);
      ControlsStable(lib, r, x);
      StatisticsStable(lib, r, x);
      SkippedStable(r, conf, x);
      TextStable(r, x);
      var name := NextText(r);
      if name.Done? {
        AclStable(lib, name.rest, x);
        EndedStable(ParseAcl(lib, name.rest), ParseAcl(lib, name.rest + x), x);
      }
    }
  }

  // ---- Whole directives ----------------------------------------------------

  /** The state after tokens that are whole directives of a block, none of them its end. */
  function Directives<S>(end: Token, step: (Tokens, S) -> Parsed<S>, s: Tokens, st: S): Option<S>
    decreases |s|
  {
    if s == [] then Some(st)
    else if s[0] == end then None
    else
      match step(s, st)
      case Fail => None
      case Done(next, rest) => if |rest| < |s| then Directives(end, step, rest, next) else None
  }

  /** The configuration after tokens that are whole top-level statements. */
  function TopLevel(lib: Library, s: Tokens, conf: NamedConf): Option<NamedConf>
    decreases |s|
  {
    if s == [] then Some(conf)
    else
      match Statement(lib, s, conf)
      case Fail => None
      case Done(next, rest) => TopLevel(lib, rest, next)
  }

  lemma {:induction false} BlockAfter<S(!new)>(end: Token, step: (Tokens, S) -> Parsed<S>, s: Tokens, st: S, y: Tokens)
    requires StableStep(step) && Directives(end, step, s, st).Some?
    ensures Block(end, step, s + y, st) == Block(end, step, y, Directives(end, step, s, st).value)
    decreases |s|
  {
    if s == [] {
      assert s + y == y;
    } else {
      TailOf(s, y);
      var p := step(s, st);
      assert Stable(p, step(s + y, st), y);
      BlockAfter(end, step, p.rest, p.value, y);
    }
  }

  /** A directive that leaves the state alone can be put between whole directives and the rest of a block. */
  lemma BlockTransparent<S(!new)>(end: Token, step: (Tokens, S) -> Parsed<S>, body: Tokens, stmt: Tokens, y: Tokens, st: S)
    requires StableStep(step) && Directives(end, step, body, st).Some?
    requires stmt != [] && stmt[0] != end && forall s: S :: step(stmt + y, s) == Done(s, y)
    ensures Block(end, step, body + (stmt + y), st) == Block(end, step, body + y, st)
  {
    var now := Directives(end, step, body, st).value;
    BlockAfter(end, step, body, st, stmt + y);
    BlockAfter(end, step, body, st, y);
    TailOf(stmt, y);
    assert step(stmt + y, now) == Done(now, y);
    hide Directives, StableStep;
    assert Block(end, step, stmt + y, now) == Block(end, step, y, now);
  }

  lemma {:induction false} StatementsAfter(lib: Library, s: Tokens, conf: NamedConf, y: Tokens)
    requires TopLevel(lib, s, conf).Some?
    ensures Statements(lib, s + y, conf) == Statements(lib, y, TopLevel(lib, s, conf).value)
    decreases |s|
  {
    hide Statement;
    if s == [] {
      assert s + y == y;
    } else {
      var p := Statement(lib, s, conf);
      StatementStable(lib, s, conf, y);
      StatementsAfter(lib, p.rest, p.value, y);
    }
  }

  // ---- Transparency --------------------------------------------------------

  lemma UnknownInZone(lib: Library, stmt: Tokens, y: Tokens, f: ZoneFields)
    requires UnknownStatement(stmt, IN_ZONE)
    ensures ZoneStep(lib)(stmt + y, f) == Done(f, y)
  {
    UnknownSkips(stmt, IN_ZONE, y);
    hide NextText, Skip, LowerAll, Depth;
  }

  lemma UnknownInKey(stmt: Tokens, y: Tokens, f: KeyFields)
    requires UnknownStatement(stmt, IN_KEY)
    ensures KeyDirectiveStep()(stmt + y, f) == Done(f, y)
  {
    UnknownSkips(stmt, IN_KEY, y);
    hide NextText, Skip, LowerAll, Depth;
  }

  lemma UnknownInOptions(lib: Library, stmt: Tokens, y: Tokens, conf: NamedConf)
    requires UnknownStatement(stmt, IN_OPTIONS)
    ensures OptionStep(lib)(stmt + y, conf) == Done(conf, y)
  {
    UnknownSkips(stmt, IN_OPTIONS, y);
    hide NextText, Skip, LowerAll, Depth;
  }

  /** An unknown statement between top-level statements changes nothing. */
  lemma TopLevelTransparent(lib: Library, pre: Tokens, stmt: Tokens, post: Tokens)
    requires TopLevel(lib, pre, DEFAULT).Some? && UnknownStatement(stmt, TOP_LEVEL)
    ensures Parse(lib, pre + (stmt + post)) == Parse(lib, pre + post)
  {
    var conf := TopLevel(lib, pre, DEFAULT).value;
    StatementsAfter(lib, pre, DEFAULT, stmt + post);
    StatementsAfter(lib, pre, DEFAULT, post);
    UnknownSkips(stmt, TOP_LEVEL, post);
    hide NextText, Skip, LowerAll, Depth, TopLevel;
    assert Statement(lib, stmt + post, conf) == Done(conf, post);
  }

  /** A keyword, as a word or in quotes and in any case. */
  predicate IsKeyword(t: Token, keyword: Text) {
    (t.Word? || t.Quoted?) && LowerAll(t.text) == keyword
  }

  /** Blocks that agree make the same top-level statement, and so the same configuration. */
  lemma SameStatement(lib: Library, pre: Tokens, y: Tokens, z: Tokens)
    requires TopLevel(lib, pre, DEFAULT).Some? && y != [] && z != []
    requires forall conf :: Statement(lib, y, conf) == Statement(lib, z, conf)
    ensures Parse(lib, pre + y) == Parse(lib, pre + z)
  {
    var conf := TopLevel(lib, pre, DEFAULT).value;
    StatementsAfter(lib, pre, DEFAULT, y);
    StatementsAfter(lib, pre, DEFAULT, z);
    hide TopLevel;
    assert Statement(lib, y, conf) == Statement(lib, z, conf);
    hide Statement;
  }

  lemma ZoneHeader(lib: Library, keyword: Token, name: Token, y: Tokens, z: Tokens)
    requires IsKeyword(keyword, ZONE)
    requires Block(Close, ZoneStep(lib), y, ZoneFields(None, None, None)) == Block(Close, ZoneStep(lib), z, ZoneFields(None, None, None))
    ensures forall conf :: Statement(lib, [keyword, name, Open] + y, conf) == Statement(lib, [keyword, name, Open] + z, conf)
  {
    hide Block, Ended, ParseName, ZoneStep, LowerAll;
  }

  lemma KeyHeader(lib: Library, keyword: Token, name: Token, y: Tokens, z: Tokens)
    requires IsKeyword(keyword, KEY)
    requires Block(Close, KeyDirectiveStep(), y, KeyFields(None, None)) == Block(Close, KeyDirectiveStep(), z, KeyFields(None, None))
    ensures forall conf :: Statement(lib, [keyword, name, Open] + y, conf) == Statement(lib, [keyword, name, Open] + z, conf)
  {
    hide Block, Ended, ParseName, KeyDirectiveStep, LowerAll;
  }

  /** Nor does one between the directives of a zone block. */
  lemma ZoneTransparent(lib: Library, pre: Tokens, keyword: Token, name: Token, body: Tokens, stmt: Tokens, rest: Tokens)
    requires TopLevel(lib, pre, DEFAULT).Some? && IsKeyword(keyword, ZONE) && UnknownStatement(stmt, IN_ZONE)
    requires Directives(Close, ZoneStep(lib), body, ZoneFields(None, None, None)).Some?
    ensures Parse(lib, pre + ([keyword, name, Open] + (body + (stmt + rest)))) == Parse(lib, pre + ([keyword, name, Open] + (body + rest)))
  {
    hide Parse, TopLevel, Directives, Statement, StableStep, ZoneStep, Block, IsKeyword, Depth;
    ZoneStepStable(lib);
    forall f: ZoneFields ensures ZoneStep(lib)(stmt + rest, f) == Done(f, rest) { UnknownInZone(lib, stmt, rest, f); }
    BlockTransparent(Close, ZoneStep(lib), body, stmt, rest, ZoneFields(None, None, None));
    ZoneHeader(lib, keyword, name, body + (stmt + rest), body + rest);
    SameStatement(lib, pre, [keyword, name, Open] + (body + (stmt + rest)), [keyword, name, Open] + (body + rest));
  }

  /** Nor does one between the directives of a key block. */
  lemma KeyTransparent(lib: Library, pre: Tokens, keyword: Token, name: Token, body: Tokens, stmt: Tokens, rest: Tokens)
    requires TopLevel(lib, pre, DEFAULT).Some? && IsKeyword(keyword, KEY) && UnknownStatement(stmt, IN_KEY)
    requires Directives(Close, KeyDirectiveStep(), body, KeyFields(None, None)).Some?
    ensures Parse(lib, pre + ([keyword, name, Open] + (body + (stmt + rest)))) == Parse(lib, pre + ([keyword, name, Open] + (body + rest)))
  {
    hide Parse, TopLevel, Directives, Statement, StableStep, KeyDirectiveStep, Block, IsKeyword, Depth;
    KeyStepStable();
    forall f: KeyFields ensures KeyDirectiveStep()(stmt + rest, f) == Done(f, rest) { UnknownInKey(stmt, rest, f); }
    BlockTransparent(Close, KeyDirectiveStep(), body, stmt, rest, KeyFields(None, None));
    KeyHeader(lib, keyword, name, body + (stmt + rest), body + rest);
    SameStatement(lib, pre, [keyword, name, Open] + (body + (stmt + rest)), [keyword, name, Open] + (body + rest));
  }

  lemma OptionsHeader(lib: Library, keyword: Token, y: Tokens, z: Tokens, conf: NamedConf)
    requires IsKeyword(keyword, OPTIONS)
    requires Block(Close, OptionStep(lib), y, conf) == Block(Close, OptionStep(lib), z, conf)
    ensures Statement(lib, [keyword, Open] + y, conf) == Statement(lib, [keyword, Open] + z, conf)
  {
    hide Block, Ended, OptionStep, LowerAll;
    assert ([keyword, Open] + y)[1..] == [Open] + y && ([Open] + y)[1..] == y;
    assert ([keyword, Open] + z)[1..] == [Open] + z && ([Open] + z)[1..] == z;
  }

  /** Nor does one between the directives of an options block, which write to the configuration as they go. */
  lemma OptionsTransparent(lib: Library, pre: Tokens, keyword: Token, body: Tokens, stmt: Tokens, rest: Tokens)
    requires TopLevel(lib, pre, DEFAULT).Some? && IsKeyword(keyword, OPTIONS) && UnknownStatement(stmt, IN_OPTIONS)
    requires Directives(Close, OptionStep(lib), body, TopLevel(lib, pre, DEFAULT).value).Some?
    ensures Parse(lib, pre + ([keyword, Open] + (body + (stmt + rest)))) == Parse(lib, pre + ([keyword, Open] + (body + rest)))
  {
    hide TopLevel, Directives, Statement, StableStep, OptionStep, Block, IsKeyword, Depth;
    var conf := TopLevel(lib, pre, DEFAULT).value;
    var y, z := [keyword, Open] + (body + (stmt + rest)), [keyword, Open] + (body + rest);
    OptionStepStable(lib);
    forall c: NamedConf ensures OptionStep(lib)(stmt + rest, c) == Done(c, rest) { UnknownInOptions(lib, stmt, rest, c); }
    BlockTransparent(Close, OptionStep(lib), body, stmt, rest, conf);
    OptionsHeader(lib, keyword, body + (stmt + rest), body + rest, conf);
    StatementsAfter(lib, pre, DEFAULT, y);
    StatementsAfter(lib, pre, DEFAULT, z);
  }
}
