/** The `named.conf` parser as it runs: a position in the token list that every loop moves forward. */
module NamedConfParser {
  import opened Bytes
  import opened Domain
  import opened Records
  import Decimal
  import NC = NamedConf
  import opened NamedConf
  import Tsig

  /** A parse result and the tokens it leaves are what the specification says. */
  ghost predicate Agrees<T>(p: Parsed<T>, r: Result<T, ConfError>, rest: Tokens) {
    match p
    case Fail => r.Err?
    case Done(v, x) => r == Ok(v) && rest == x
  }

  /** Where a block's loop stands: finished, or about to read a directive. */
  ghost predicate InBlock<S>(all: Parsed<S>, end: Token, step: (Tokens, S) -> Parsed<S>, closed: bool, rest: Tokens, st: S) {
    if closed then all == Done(st, rest)
    else all == Block(end, step, rest, st) && (rest == [] || rest[0] != end)
  }

  lemma Enter<S>(all: Parsed<S>, end: Token, step: (Tokens, S) -> Parsed<S>, before: Tokens, st: S, closed: bool, rest: Tokens)
    requires all == Block(end, step, before, st)
    requires closed <==> before != [] && before[0] == end
    requires rest == if closed then before[1..] else before
    ensures InBlock(all, end, step, closed, rest, st)
  {}

  lemma Advance<S>(all: Parsed<S>, end: Token, step: (Tokens, S) -> Parsed<S>, before: Tokens, st: S, r: Result<S, ConfError>, after: Tokens)
    requires InBlock(all, end, step, false, before, st) && Agrees(step(before, st), r, after)
    requires r.Ok? ==> |after| < |before|
    ensures r.Err? ==> all == Fail
    ensures r.Ok? ==> all == Block(end, step, after, r.value)
  {}

  class Parser {
    const lib: Library
    const tokens: Tokens
    var pos: nat
    var output: NamedConf

    ghost predicate Valid()
      reads this
    {
      pos <= |tokens|
    }

    constructor (lib: Library, tokens: Tokens)
      ensures Valid() && this.lib == lib && this.tokens == tokens && pos == 0 && output == DEFAULT
    {
      this.lib, this.tokens := lib, tokens;
      pos, output := 0, DEFAULT;
    }

    /** The tokens left. */
    function Rest(): Tokens
      requires Valid()
      reads this
    {
      tokens[pos..]
    }

    lemma OneMore()
      requires Valid() && pos < |tokens|
      ensures Rest() != [] && Rest()[0] == tokens[pos] && Rest()[1..] == tokens[pos + 1..]
    {}

    method NextText() returns (r: Result<Text, ConfError>)
      requires Valid()
      modifies this`pos
      ensures Valid() && pos >= old(pos) && Agrees(NC.NextText(old(Rest())), r, Rest())
      ensures r.Ok? ==> pos > old(pos)
    {
      if pos >= |tokens| {
        return Err(ConfError);
      }
      OneMore();
      var token := tokens[pos];
      pos := pos + 1;
      r := if token.Word? || token.Quoted? then Ok(token.text) else Err(ConfError);
    }

    method Expect(expected: Token) returns (r: Result<(), ConfError>)
      requires Valid()
      modifies this`pos
      ensures Valid() && pos >= old(pos) && Agrees(NC.Expect(old(Rest()), expected), r, Rest())
      ensures r.Ok? ==> pos > old(pos)
    {
      if pos >= |tokens| {
        return Err(ConfError);
      }
      OneMore();
      var token := tokens[pos];
      pos := pos + 1;
      r := if token == expected then Ok(()) else Err(ConfError);
    }

    method Consume(expected: Token) returns (b: bool)
      requires Valid()
      modifies this`pos
      ensures Valid() && pos == old(pos) + if b then 1 else 0
      ensures b <==> old(Rest()) != [] && old(Rest())[0] == expected
      ensures Rest() == if b then old(Rest())[1..] else old(Rest())
    {
      b := pos < |tokens| && tokens[pos] == expected;
      if b {
        OneMore();
        pos := pos + 1;
      }
    }

    method SkipStatement() returns (r: Result<(), ConfError>)
      requires Valid()
      modifies this`pos
      ensures Valid() && pos >= old(pos) && Agrees(Skip(old(Rest()), 0), r, Rest())
      ensures r.Ok? ==> pos > old(pos)
    {
      var depth := 0;
      while pos < |tokens|
        invariant old(pos) <= pos <= |tokens|
        invariant Skip(old(Rest()), 0) == Skip(Rest(), depth)
      {
        OneMore();
        match tokens[pos] {
          case Open => depth := depth + 1; pos := pos + 1;
          case Close =>
            if depth > 0 { depth := depth - 1; }
            pos := pos + 1;
          case Semi =>
            pos := pos + 1;
            if depth == 0 {
              return Ok(());
            }
          case _ => pos := pos + 1;
        }
      }
      r := Err(ConfError);
    }

    /** The semicolon after a value. */
    method End<T>(value: T, ghost all: Parsed<T>) returns (r: Result<T, ConfError>)
      requires Valid() && all == Ended(Done(value, Rest()))
      modifies this`pos
      ensures Valid() && pos >= old(pos) && Agrees(all, r, Rest())
      ensures r.Ok? ==> pos > old(pos) && r.value == value
    {
      var semi := Expect(Semi);
      r := if semi.Ok? then Ok(value) else Err(ConfError);
    }

    method Unknown<S>(st: S) returns (r: Result<S, ConfError>)
      requires Valid()
      modifies this`pos
      ensures Valid() && pos >= old(pos) && Agrees(Skipped(old(Rest()), st), r, Rest())
      ensures r.Ok? ==> pos > old(pos) && r.value == st
    {
      var skipped := SkipStatement();
      r := if skipped.Ok? then Ok(st) else Err(ConfError);
    }

    method ParsePort() returns (r: Result<nat, ConfError>)
      requires Valid()
      modifies this`pos
      ensures Valid() && pos >= old(pos) && Agrees(Port(old(Rest())), r, Rest())
      ensures r.Ok? ==> pos > old(pos)
    {
      var t := NextText();
      if t.Err? {
        return Err(ConfError);
      }
      var n := Decimal.Parse(t.value, 0xFFFF);
      r := if n.Some? then Ok(n.value) else Err(ConfError);
    }

    method NextName() returns (r: Result<DomainName, ConfError>)
      requires Valid()
      modifies this`pos
      ensures Valid() && pos >= old(pos) && Agrees(NC.NextName(old(Rest())), r, Rest())
      ensures r.Ok? ==> pos > old(pos)
    {
      var t := NextText();
      if t.Err? {
        return Err(ConfError);
      }
      var n := ParseName(t.value);
      r := if n.Ok? then Ok(n.value) else Err(ConfError);
    }

    // ---- Address-match lists -----------------------------------------------

    method AclItem() returns (r: Result<AclElement, ConfError>)
      requires Valid()
      modifies this`pos
      ensures Valid() && pos >= old(pos) && Agrees(NC.AclItem(lib, old(Rest())), r, Rest())
      ensures r.Ok? ==> pos > old(pos)
    {
      var t := NextText();
      if t.Err? {
        return Err(ConfError);
      }
      if LowerAll(t.value) == KEY {
        var n := NextName();
        r := if n.Ok? then Ok(KeyName(n.value)) else Err(ConfError);
      } else {
        var e := ParseAclElement(lib, t.value);
        r := if e.Some? then Ok(e.value) else Err(ConfError);
      }
    }

    method AclEntry(acl: Acl) returns (r: Result<Acl, ConfError>)
      requires Valid()
      modifies this`pos
      ensures Valid() && pos >= old(pos) && Agrees(NC.AclEntry(lib, old(Rest()), acl), r, Rest())
      ensures r.Ok? ==> pos > old(pos)
    {
      hide NC.AclItem;
      var negated := Consume(Bang);
      var e := AclItem();
      if e.Err? {
        return Err(ConfError);
      }
      var semi := Expect(Semi);
      r := if semi.Ok? then Ok(acl + [if negated then Negated(e.value) else e.value]) else Err(ConfError);
    }

    method ParseAcl() returns (r: Result<Acl, ConfError>)
      requires Valid()
      modifies this`pos
      ensures Valid() && pos >= old(pos) && Agrees(NC.ParseAcl(lib, old(Rest())), r, Rest())
      ensures r.Ok? ==> pos > old(pos)
    {
      hide NC.AclEntry, Block, InBlock;
      var open := Expect(Open);
      if open.Err? {
        return Err(ConfError);
      }
      var acl: Acl := [];
      ghost var all, before := Block(Close, AclStep(lib), Rest(), acl), Rest();
      var closed := Consume(Close);
      Enter(all, Close, AclStep(lib), before, acl, closed, Rest());
      while !closed
        invariant old(pos) < pos <= |tokens| && InBlock(all, Close, AclStep(lib), closed, Rest(), acl)
        decreases !closed, |tokens| - pos
      {
        before := Rest();
        var next := AclEntry(acl);
        Advance(all, Close, AclStep(lib), before, acl, next, Rest());
        if next.Err? {
          return Err(ConfError);
        }
        acl := next.value;
        before := Rest();
        closed := Consume(Close);
        Enter(all, Close, AclStep(lib), before, acl, closed, Rest());
      }
      Finished(all, Close, AclStep(lib), Rest(), acl);
      r := Ok(acl);
    }

    method KeyEntry(keys: seq<DomainName>) returns (r: Result<seq<DomainName>, ConfError>)
      requires Valid()
      modifies this`pos
      ensures Valid() && pos >= old(pos) && Agrees(NC.KeyEntry(old(Rest()), keys), r, Rest())
      ensures r.Ok? ==> pos > old(pos)
    {
      hide NC.NextName;
      var n := NextName();
      if n.Err? {
        return Err(ConfError);
      }
      var semi := Expect(Semi);
      r := if semi.Ok? then Ok(keys + [n.value]) else Err(ConfError);
    }

    method ParseKeyNames() returns (r: Result<seq<DomainName>, ConfError>)
      requires Valid()
      modifies this`pos
      ensures Valid() && pos >= old(pos) && Agrees(KeyNames(old(Rest())), r, Rest())
      ensures r.Ok? ==> pos > old(pos)
    {
      hide NC.KeyEntry, Block, InBlock;
      var open := Expect(Open);
      if open.Err? {
        return Err(ConfError);
      }
      var keys: seq<DomainName> := [];
      ghost var all, before := Block(Close, KeyStep(), Rest(), keys), Rest();
      var closed := Consume(Close);
      Enter(all, Close, KeyStep(), before, keys, closed, Rest());
      while !closed
        invariant old(pos) < pos <= |tokens| && InBlock(all, Close, KeyStep(), closed, Rest(), keys)
        decreases !closed, |tokens| - pos
      {
        before := Rest();
        var next := KeyEntry(keys);
        Advance(all, Close, KeyStep(), before, keys, next, Rest());
        if next.Err? {
          return Err(ConfError);
        }
        keys := next.value;
        before := Rest();
        closed := Consume(Close);
        Enter(all, Close, KeyStep(), before, keys, closed, Rest());
      }
      Finished(all, Close, KeyStep(), Rest(), keys);
      r := Ok(keys);
    }

    // ---- Zones ---------------------------------------------------------------

    method ZoneDirective(f: ZoneFields) returns (r: Result<ZoneFields, ConfError>)
      requires Valid()
      modifies this`pos
      ensures Valid() && pos >= old(pos) && Agrees(NC.ZoneDirective(lib, old(Rest()), f), r, Rest())
      ensures r.Ok? ==> pos > old(pos)
    {
      hide NC.ParseAcl, ZoneTypeOf, Skipped, Ended;
      ghost var all := NC.ZoneDirective(lib, Rest(), f);
      var t := NextText();
      if t.Err? {
        return Err(ConfError);
      }
      var keyword := LowerAll(t.value);
      if keyword == TYPE {
        var v := NextText();
        if v.Err? || ZoneTypeOf(v.value).None? {
          return Err(ConfError);
        }
        r := End(f.(zoneType := ZoneTypeOf(v.value)), all);
      } else if keyword == FILE {
        var v := NextText();
        if v.Err? {
          return Err(ConfError);
        }
        r := End(f.(file := Some(v.value)), all);
      } else if keyword == ALLOW_TRANSFER {
        var acl := ParseAcl();
        if acl.Err? {
          return Err(ConfError);
        }
        r := End(f.(allowTransfer := Some(acl.value)), all);
      } else {
        r := Unknown(f);
      }
    }

    method ParseZone() returns (r: Result<NamedZone, ConfError>)
      requires Valid()
      modifies this`pos
      ensures Valid() && pos >= old(pos) && Agrees(NC.ParseZone(lib, old(Rest())), r, Rest())
      ensures r.Ok? ==> pos > old(pos)
    {
      hide NC.ZoneDirective, NC.NextName, Block, InBlock, ZoneStep;
      var name := NextName();
      if name.Err? {
        return Err(ConfError);
      }
      var open := Expect(Open);
      if open.Err? {
        return Err(ConfError);
      }
      var f := ZoneBody();
      if f.Err? {
        return Err(ConfError);
      }
      var semi := Expect(Semi);
      if semi.Err? || f.value.zoneType.None? {
        return Err(ConfError);
      }
      r := Ok(NamedZone(name.value, f.value.zoneType.value, f.value.file, f.value.allowTransfer));
    }

    method ZoneBody() returns (r: Result<ZoneFields, ConfError>)
      requires Valid()
      modifies this`pos
      ensures Valid() && pos >= old(pos) && Agrees(Block(Close, ZoneStep(lib), old(Rest()), ZoneFields(None, None, None)), r, Rest())
      ensures r.Ok? ==> pos > old(pos)
    {
      hide NC.ZoneDirective, Block, InBlock;
      var f: ZoneFields := ZoneFields(None, None, None);
      ghost var all, before := Block(Close, ZoneStep(lib), Rest(), f), Rest();
      var closed := Consume(Close);
      Enter(all, Close, ZoneStep(lib), before, f, closed, Rest());
      while !closed
        invariant old(pos) <= pos <= |tokens| && InBlock(all, Close, ZoneStep(lib), closed, Rest(), f)
        decreases !closed, |tokens| - pos
      {
        before := Rest();
        var next := ZoneDirective(f);
        Advance(all, Close, ZoneStep(lib), before, f, next, Rest());
        if next.Err? {
          return Err(ConfError);
        }
        f := next.value;
        before := Rest();
        closed := Consume(Close);
        Enter(all, Close, ZoneStep(lib), before, f, closed, Rest());
      }
      Finished(all, Close, ZoneStep(lib), Rest(), f);
      r := Ok(f);
    }

    // ---- Keys ----------------------------------------------------------------

    method KeyDirective(f: KeyFields) returns (r: Result<KeyFields, ConfError>)
      requires Valid()
      modifies this`pos
      ensures Valid() && pos >= old(pos) && Agrees(NC.KeyDirective(old(Rest()), f), r, Rest())
      ensures r.Ok? ==> pos > old(pos)
    {
      hide AlgorithmOf, Skipped, Ended;
      ghost var all := NC.KeyDirective(Rest(), f);
      var t := NextText();
      if t.Err? {
        return Err(ConfError);
      }
      var keyword := LowerAll(t.value);
      if keyword == ALGORITHM {
        var v := NextText();
        if v.Err? || AlgorithmOf(v.value).None? {
          return Err(ConfError);
        }
        r := End(f.(algorithm := AlgorithmOf(v.value)), all);
      } else if keyword == SECRET {
        var v := NextText();
        if v.Err? {
          return Err(ConfError);
        }
        r := End(f.(secret := Some(v.value)), all);
      } else {
        r := Unknown(f);
      }
    }

    method KeyBody() returns (r: Result<KeyFields, ConfError>)
      requires Valid()
      modifies this`pos
      ensures Valid() && pos >= old(pos) && Agrees(Block(Close, KeyDirectiveStep(), old(Rest()), KeyFields(None, None)), r, Rest())
      ensures r.Ok? ==> pos > old(pos)
    {
      hide NC.KeyDirective, Block, InBlock;
      var f: KeyFields := KeyFields(None, None);
      ghost var all, before := Block(Close, KeyDirectiveStep(), Rest(), f), Rest();
      var closed := Consume(Close);
      Enter(all, Close, KeyDirectiveStep(), before, f, closed, Rest());
      while !closed
        invariant old(pos) <= pos <= |tokens| && InBlock(all, Close, KeyDirectiveStep(), closed, Rest(), f)
        decreases !closed, |tokens| - pos
      {
        before := Rest();
        var next := KeyDirective(f);
        Advance(all, Close, KeyDirectiveStep(), before, f, next, Rest());
        if next.Err? {
          return Err(ConfError);
        }
        f := next.value;
        before := Rest();
        closed := Consume(Close);
        Enter(all, Close, KeyDirectiveStep(), before, f, closed, Rest());
      }
      Finished(all, Close, KeyDirectiveStep(), Rest(), f);
      r := Ok(f);
    }

    method ParseKey() returns (r: Result<NamedKey, ConfError>)
      requires Valid()
      modifies this`pos
      ensures Valid() && pos >= old(pos) && Agrees(NC.ParseKey(lib, old(Rest())), r, Rest())
      ensures r.Ok? ==> pos > old(pos)
    {
      hide NC.KeyDirective, NC.NextName, Block, InBlock, KeyDirectiveStep;
      var name := NextName();
      if name.Err? {
        return Err(ConfError);
      }
      var open := Expect(Open);
      if open.Err? {
        return Err(ConfError);
      }
      var f := KeyBody();
      if f.Err? {
        return Err(ConfError);
      }
      var semi := Expect(Semi);
      if semi.Err? || f.value.algorithm.None? || f.value.secret.None? {
        return Err(ConfError);
      }
      var material := lib.material(f.value.secret.value);
      r := if material.Some? then Ok(NamedKey(name.value, f.value.algorithm.value, material.value)) else Err(ConfError);
    }

    // ---- Listeners -----------------------------------------------------------

    method EndpointOption(e: ControlEndpoint) returns (r: Result<ControlEndpoint, ConfError>)
      requires Valid()
      modifies this`pos
      ensures Valid() && pos >= old(pos) && Agrees(NC.EndpointOption(lib, old(Rest()), e), r, Rest())
      ensures r.Ok? ==> pos > old(pos)
    {
      hide NC.ParseAcl, KeyNames, Port, Skipped;
      var t := NextText();
      if t.Err? {
        return Err(ConfError);
      }
      var keyword := LowerAll(t.value);
      if keyword == PORT {
        var n := ParsePort();
        r := if n.Ok? then Ok(e.(port := n.value)) else Err(ConfError);
      } else if keyword == ALLOW {
        var acl := ParseAcl();
        r := if acl.Ok? then Ok(e.(allow := Some(acl.value))) else Err(ConfError);
      } else if keyword == KEYS {
        var ks := ParseKeyNames();
        r := if ks.Ok? then Ok(e.(keys := ks.value)) else Err(ConfError);
      } else {
        r := Unknown(e);
      }
    }

    method EndpointBody(start: ControlEndpoint) returns (r: Result<ControlEndpoint, ConfError>)
      requires Valid()
      modifies this`pos
      ensures Valid() && pos >= old(pos) && Agrees(Block(Semi, EndpointStep(lib), old(Rest()), start), r, Rest())
      ensures r.Ok? ==> pos > old(pos)
    {
      hide NC.EndpointOption, Block, InBlock;
      var e: ControlEndpoint := start;
      ghost var all, before := Block(Semi, EndpointStep(lib), Rest(), e), Rest();
      var closed := Consume(Semi);
      Enter(all, Semi, EndpointStep(lib), before, e, closed, Rest());
      while !closed
        invariant old(pos) <= pos <= |tokens| && InBlock(all, Semi, EndpointStep(lib), closed, Rest(), e)
        decreases !closed, |tokens| - pos
      {
        before := Rest();
        var next := EndpointOption(e);
        Advance(all, Semi, EndpointStep(lib), before, e, next, Rest());
        if next.Err? {
          return Err(ConfError);
        }
        e := next.value;
        before := Rest();
        closed := Consume(Semi);
        Enter(all, Semi, EndpointStep(lib), before, e, closed, Rest());
      }
      Finished(all, Semi, EndpointStep(lib), Rest(), e);
      r := Ok(e);
    }

    method ControlDirective(es: seq<ControlEndpoint>) returns (r: Result<seq<ControlEndpoint>, ConfError>)
      requires Valid()
      modifies this`pos
      ensures Valid() && pos >= old(pos) && Agrees(NC.ControlDirective(lib, old(Rest()), es), r, Rest())
      ensures r.Ok? ==> pos > old(pos)
    {
      hide Block, EndpointStep, Skipped, ParseListen;
      var t := NextText();
      if t.Err? {
        return Err(ConfError);
      }
      if LowerAll(t.value) != INET {
        r := Unknown(es);
        return;
      }
      var v := NextText();
      if v.Err? {
        return Err(ConfError);
      }
      var address := ParseListen(lib, v.value);
      if address.None? {
        return Err(ConfError);
      }
      var e := EndpointBody(ControlEndpoint(address.value, 953, None, []));
      r := if e.Ok? then Ok(es + [e.value]) else Err(ConfError);
    }

    method ParseControls() returns (r: Result<seq<ControlEndpoint>, ConfError>)
      requires Valid()
      modifies this`pos
      ensures Valid() && pos >= old(pos) && Agrees(NC.ParseControls(lib, old(Rest())), r, Rest())
      ensures r.Ok? ==> pos > old(pos)
    {
      hide NC.ControlDirective, Block, InBlock;
      var open := Expect(Open);
      if open.Err? {
        return Err(ConfError);
      }
      var es: seq<ControlEndpoint> := [];
      ghost var all, before := Block(Close, ControlStep(lib), Rest(), es), Rest();
      var closed := Consume(Close);
      Enter(all, Close, ControlStep(lib), before, es, closed, Rest());
      while !closed
        invariant old(pos) < pos <= |tokens| && InBlock(all, Close, ControlStep(lib), closed, Rest(), es)
        decreases !closed, |tokens| - pos
      {
        before := Rest();
        var next := ControlDirective(es);
        Advance(all, Close, ControlStep(lib), before, es, next, Rest());
        if next.Err? {
          return Err(ConfError);
        }
        es := next.value;
        before := Rest();
        closed := Consume(Close);
        Enter(all, Close, ControlStep(lib), before, es, closed, Rest());
      }
      Finished(all, Close, ControlStep(lib), Rest(), es);
      var semi := Expect(Semi);
      r := if semi.Ok? then Ok(es) else Err(ConfError);
    }

    method ChannelOption(c: StatisticsChannel) returns (r: Result<StatisticsChannel, ConfError>)
      requires Valid()
      modifies this`pos
      ensures Valid() && pos >= old(pos) && Agrees(NC.ChannelOption(lib, old(Rest()), c), r, Rest())
      ensures r.Ok? ==> pos > old(pos)
    {
      hide NC.ParseAcl, Port, Skipped;
      var t := NextText();
      if t.Err? {
        return Err(ConfError);
      }
      var keyword := LowerAll(t.value);
      if keyword == PORT {
        var n := ParsePort();
        r := if n.Ok? then Ok(c.(port := n.value)) else Err(ConfError);
      } else if keyword == ALLOW {
        var acl := ParseAcl();
        r := if acl.Ok? then Ok(c.(allow := Some(acl.value))) else Err(ConfError);
      } else {
        r := Unknown(c);
      }
    }

    method ChannelBody(start: StatisticsChannel) returns (r: Result<StatisticsChannel, ConfError>)
      requires Valid()
      modifies this`pos
      ensures Valid() && pos >= old(pos) && Agrees(Block(Semi, ChannelStep(lib), old(Rest()), start), r, Rest())
      ensures r.Ok? ==> pos > old(pos)
    {
      hide NC.ChannelOption, Block, InBlock;
      var c: StatisticsChannel := start;
      ghost var all, before := Block(Semi, ChannelStep(lib), Rest(), c), Rest();
      var closed := Consume(Semi);
      Enter(all, Semi, ChannelStep(lib), before, c, closed, Rest());
      while !closed
        invariant old(pos) <= pos <= |tokens| && InBlock(all, Semi, ChannelStep(lib), closed, Rest(), c)
        decreases !closed, |tokens| - pos
      {
        before := Rest();
        var next := ChannelOption(c);
        Advance(all, Semi, ChannelStep(lib), before, c, next, Rest());
        if next.Err? {
          return Err(ConfError);
        }
        c := next.value;
        before := Rest();
        closed := Consume(Semi);
        Enter(all, Semi, ChannelStep(lib), before, c, closed, Rest());
      }
      Finished(all, Semi, ChannelStep(lib), Rest(), c);
      r := Ok(c);
    }

    method ChannelDirective(cs: seq<StatisticsChannel>) returns (r: Result<seq<StatisticsChannel>, ConfError>)
      requires Valid()
      modifies this`pos
      ensures Valid() && pos >= old(pos) && Agrees(NC.ChannelDirective(lib, old(Rest()), cs), r, Rest())
      ensures r.Ok? ==> pos > old(pos)
    {
      hide Block, ChannelStep, Skipped, ParseListen;
      var t := NextText();
      if t.Err? {
        return Err(ConfError);
      }
      if LowerAll(t.value) != INET {
        r := Unknown(cs);
        return;
      }
      var v := NextText();
      if v.Err? {
        return Err(ConfError);
      }
      var address := ParseListen(lib, v.value);
      if address.None? {
        return Err(ConfError);
      }
      var c := ChannelBody(StatisticsChannel(address.value, 80, None));
      r := if c.Ok? then Ok(cs + [c.value]) else Err(ConfError);
    }

    method ParseStatistics() returns (r: Result<seq<StatisticsChannel>, ConfError>)
      requires Valid()
      modifies this`pos
      ensures Valid() && pos >= old(pos) && Agrees(NC.ParseStatistics(lib, old(Rest())), r, Rest())
      ensures r.Ok? ==> pos > old(pos)
    {
      hide NC.ChannelDirective, Block, InBlock;
      var open := Expect(Open);
      if open.Err? {
        return Err(ConfError);
      }
      var cs: seq<StatisticsChannel> := [];
      ghost var all, before := Block(Close, ChannelsStep(lib), Rest(), cs), Rest();
      var closed := Consume(Close);
      Enter(all, Close, ChannelsStep(lib), before, cs, closed, Rest());
      while !closed
        invariant old(pos) < pos <= |tokens| && InBlock(all, Close, ChannelsStep(lib), closed, Rest(), cs)
        decreases !closed, |tokens| - pos
      {
        before := Rest();
        var next := ChannelDirective(cs);
        Advance(all, Close, ChannelsStep(lib), before, cs, next, Rest());
        if next.Err? {
          return Err(ConfError);
        }
        cs := next.value;
        before := Rest();
        closed := Consume(Close);
        Enter(all, Close, ChannelsStep(lib), before, cs, closed, Rest());
      }
      Finished(all, Close, ChannelsStep(lib), Rest(), cs);
      var semi := Expect(Semi);
      r := if semi.Ok? then Ok(cs) else Err(ConfError);
    }

    // ---- Options and the top level ---------------------------------------------

    method OptionDirective() returns (r: Result<NamedConf, ConfError>)
      requires Valid()
      modifies this
      ensures Valid() && pos >= old(pos) && Agrees(NC.OptionDirective(lib, old(Rest()), old(output)), r, Rest())
      ensures r.Ok? ==> pos > old(pos) && r.value == output
    {
      hide NC.ParseAcl, NC.ParseStatistics, Skipped, Ended;
      ghost var all := NC.OptionDirective(lib, Rest(), output);
      var t := NextText();
      if t.Err? {
        return Err(ConfError);
      }
      var keyword := LowerAll(t.value);
      if keyword == DIRECTORY {
        var v := NextText();
        if v.Err? {
          return Err(ConfError);
        }
        output := output.(options := output.options.(directory := Some(v.value)));
        r := End(output, all);
      } else if keyword == ALLOW_RECURSION {
        var acl := ParseAcl();
        if acl.Err? {
          return Err(ConfError);
        }
        output := output.(options := output.options.(allowRecursion := Some(acl.value)));
        r := End(output, all);
      } else if keyword == STATISTICS {
        var cs := ParseStatistics();
        if cs.Err? {
          return Err(ConfError);
        }
        output := output.(statistics := output.statistics + cs.value);
        r := Ok(output);
      } else {
        r := Unknown(output);
      }
    }

    method ParseOptions() returns (r: Result<NamedConf, ConfError>)
      requires Valid()
      modifies this
      ensures Valid() && pos >= old(pos) && Agrees(NC.ParseOptions(lib, old(Rest()), old(output)), r, Rest())
      ensures r.Ok? ==> pos > old(pos) && r.value == output
    {
      hide NC.OptionDirective, Block, InBlock;
      var open := Expect(Open);
      if open.Err? {
        return Err(ConfError);
      }
      ghost var all, before, was := Block(Close, OptionStep(lib), Rest(), output), Rest(), output;
      var closed := Consume(Close);
      Enter(all, Close, OptionStep(lib), before, output, closed, Rest());
      while !closed
        invariant old(pos) < pos <= |tokens| && InBlock(all, Close, OptionStep(lib), closed, Rest(), output)
        decreases !closed, |tokens| - pos
      {
        before, was := Rest(), output;
        var next := OptionDirective();
        Advance(all, Close, OptionStep(lib), before, was, next, Rest());
        if next.Err? {
          return Err(ConfError);
        }
        before := Rest();
        closed := Consume(Close);
        Enter(all, Close, OptionStep(lib), before, output, closed, Rest());
      }
      Finished(all, Close, OptionStep(lib), Rest(), output);
      var semi := Expect(Semi);
      r := if semi.Ok? then Ok(output) else Err(ConfError);
    }

    /** One top-level statement. */
    method ParseStatement() returns (r: Result<NamedConf, ConfError>)
      requires Valid()
      modifies this
      ensures Valid() && pos >= old(pos) && Agrees(Statement(lib, old(Rest()), old(output)), r, Rest())
      ensures r.Ok? ==> pos > old(pos) && r.value == output
    {
      hide NC.ParseZone, NC.ParseKey, NC.ParseAcl, NC.ParseOptions, NC.ParseControls, NC.ParseStatistics, Skipped;
      var t := NextText();
      if t.Err? {
        return Err(ConfError);
      }
      var keyword := LowerAll(t.value);
      if keyword == ZONE {
        var z := ParseZone();
        if z.Err? {
          return Err(ConfError);
        }
        output := output.(zones := output.zones + [z.value]);
      } else if keyword == KEY {
        var k := ParseKey();
        if k.Err? {
          return Err(ConfError);
        }
        output := output.(keys := output.keys + [k.value]);
      } else if keyword == ACL {
        var name := NextText();
        if name.Err? {
          return Err(ConfError);
        }
        var acl := ParseAcl();
        if acl.Err? {
          return Err(ConfError);
        }
        var semi := Expect(Semi);
        if semi.Err? {
          return Err(ConfError);
        }
        output := output.(acls := output.acls + [NamedAcl(name.value, acl.value)]);
      } else if keyword == OPTIONS {
        r := ParseOptions();
        return;
      } else if keyword == CONTROLS {
        var es := ParseControls();
        if es.Err? {
          return Err(ConfError);
        }
        output := output.(controls := output.controls + es.value);
      } else if keyword == STATISTICS {
        var cs := ParseStatistics();
        if cs.Err? {
          return Err(ConfError);
        }
        output := output.(statistics := output.statistics + cs.value);
      } else {
        r := Unknown(output);
        return;
      }
      r := Ok(output);
    }

    /** The whole configuration. */
    method Parse() returns (r: Result<NamedConf, ConfError>)
      requires Valid() && pos == 0 && output == DEFAULT
      modifies this
      ensures r == NC.Parse(lib, tokens)
    {
      hide Statement;
      assert tokens[0..] == tokens;
      while pos < |tokens|
        invariant pos <= |tokens|
        invariant NC.Parse(lib, tokens) == Statements(lib, Rest(), output)
        decreases |tokens| - pos
      {
        var next := ParseStatement();
        if next.Err? {
          return Err(ConfError);
        }
      }
      r := Ok(output);
    }
  }

  lemma Finished<S>(all: Parsed<S>, end: Token, step: (Tokens, S) -> Parsed<S>, rest: Tokens, st: S)
    requires InBlock(all, end, step, true, rest, st)
    ensures all == Done(st, rest)
  {}
}
