/** What the parser of access lists accepts, described as a grammar over tokens, and nothing else. */
module NamedConfGrammar {
  import opened Bytes
  import opened Domain
  import opened Records
  import opened NamedConf
  import opened NamedConfPrinting
  import Decimal
  import Tsig

  // ---- Access lists --------------------------------------------------------

  /** The text is neither a reserved word nor holds a slash. */
  predicate Plain(t: Text) { LowerAll(t) !in RESERVED && SLASH !in t }

  /** An address, the first slash of the text, and a prefix length no longer than the address. */
  predicate IsNetwork(lib: Library, t: Text, a: seq<Byte>, n: nat, k: nat) {
    && k < |t| && t[k] == SLASH && SLASH !in t[..k]
    && lib.ip(t[..k]) == Some(a) && Decimal.Parse(t[k + 1..], 255) == Some(n) && n <= if |a| == 4 then 32 else 128
  }

  /** How many tokens an element takes. */
  function Width(e: AclElement): nat {
    match e
    case KeyName(_) => 2
    case Negated(x) => 1 + if x.KeyName? then 2 else 1
    case _ => 1
  }

  /** The text names the element. */
  ghost predicate Means(lib: Library, t: Text, e: AclElement) {
    match e
    case AnyAddress => LowerAll(t) == ANY
    case NoAddress => LowerAll(t) == NONE
    case Localhost => LowerAll(t) == LOCALHOST
    case Localnets => LowerAll(t) == LOCALNETS
    case Address(a) => Plain(t) && lib.ip(t) == Some(a)
    case Network(a, n) => exists k: nat :: IsNetwork(lib, t, a, n, k)
    case Named(name) => name == t && Plain(t) && lib.ip(t).None?
    case _ => false
  }

  predicate Readable(k: Token) { k.Word? || k.Quoted? }

  ghost predicate ItemSpelled(lib: Library, ts: Tokens, e: AclElement)
    requires |ts| == Width(e) && !e.Negated?
  {
    && Readable(ts[0])
    && if e.KeyName? then IsKeyword(ts[0], KEY) && Readable(ts[1]) && ParseName(ts[1].text) == Ok(e.name)
       else Means(lib, ts[0].text, e)
  }

  /** An element, negated exactly if an exclamation mark stands before it. */
  ghost predicate ElementSpelled(lib: Library, ts: Tokens, e: AclElement)
    requires |ts| == Width(e)
  {
    if e.Negated? then ts[0] == Bang && !e.element.Negated? && ItemSpelled(lib, ts[1..], e.element)
    else ItemSpelled(lib, ts, e)
  }

  /** One list entry: the tokens that spell it and a semicolon. */
  ghost predicate EntrySpelled(lib: Library, s: Tokens, e: AclElement, rest: Tokens) {
    var w := Width(e);
    |s| > w && ElementSpelled(lib, s[..w], e) && s[w] == Semi && rest == s[w + 1..]
  }

  /** The entries and a closing brace. */
  ghost predicate ListSpelled(lib: Library, s: Tokens, acl: Acl, rest: Tokens) {
    if acl == [] then s == [Close] + rest
    else
      var w := Width(acl[0]);
      |s| > w && EntrySpelled(lib, s, acl[0], s[w + 1..]) && ListSpelled(lib, s[w + 1..], acl[1..], rest)
  }

  lemma {:induction false} FirstSlash(t: Text, k: nat)
    requires k < |t| && t[k] == SLASH && SLASH !in t[..k]
    ensures SlashAt(t) == k
  {
    if k > 0 {
      assert t[0] == t[..k][0];
      assert t[1..][..k - 1] == t[..k][1..];
      FirstSlash(t[1..], k - 1);
    }
  }

  lemma {:induction false} SlashIs(t: Text)
    ensures SLASH !in t[..SlashAt(t)]
    ensures SlashAt(t) < |t| <==> SLASH in t
    ensures SlashAt(t) < |t| ==> t[SlashAt(t)] == SLASH
  {
    if t != [] && t[0] != SLASH {
      SlashIs(t[1..]);
      var k := SlashAt(t[1..]);
      assert t == [t[0]] + t[1..];
      assert t[..k + 1] == [t[0]] + t[1..][..k];
    }
  }

  /** The text of one element is read as the element it names, and refused if it names none. */
  lemma ElementIff(lib: Library, t: Text, e: AclElement)
    requires LowerAll(t) != KEY
    ensures ParseAclElement(lib, t) == Some(e) <==> Means(lib, t, e)
  {
    ReservedWords();
    SlashIs(t);
    var k := SlashAt(t);
    if LowerAll(t) in RESERVED {
      ReservedHasNoSlash(t);
    }
    if e.Network? {
      if IsNetwork(lib, t, e.address, e.prefix, k) {}
      forall j: nat | IsNetwork(lib, t, e.address, e.prefix, j) ensures j == k { FirstSlash(t, j); }
    }
    hide LowerAll, SlashAt, Ascii, Decimal.Parse;
  }

  lemma ReservedHasNoSlash(t: Text)
    requires LowerAll(t) in RESERVED
    ensures SLASH !in t
  {
    ReservedWords();
    assert SLASH !in LowerAll(t);
    forall i | 0 <= i < |t| ensures t[i] != SLASH { assert LowerAll(t)[i] in LowerAll(t); }
  }

  lemma ItemIff(lib: Library, s: Tokens, e: AclElement, rest: Tokens)
    ensures AclItem(lib, s) == Done(e, rest) <==>
            !e.Negated? && |s| >= Width(e) && ItemSpelled(lib, s[..Width(e)], e) && rest == s[Width(e)..]
  {
    ReservedWords();
    hide LowerAll, Ascii, ParseAclElement, Means, ParseName;
    if s != [] && Readable(s[0]) {
      if LowerAll(s[0].text) == KEY {
        KeyMeansNothing(lib, s[0].text, e);
      } else {
        ElementIff(lib, s[0].text, e);
        if e.Negated? { NegatedMeansNothing(lib, s[0].text, e); }
        if e.KeyName? { KeyNameMeansNothing(lib, s[0].text, e); }
      }
    }
  }

  lemma KeyMeansNothing(lib: Library, t: Text, e: AclElement)
    requires LowerAll(t) == KEY
    ensures !Means(lib, t, e)
  {
    ReservedWords();
    hide LowerAll, Ascii;
    if e.Network? {
      ReservedHasNoSlash(t);
    }
  }

  lemma NegatedMeansNothing(lib: Library, t: Text, e: AclElement)
    requires e.Negated?
    ensures !Means(lib, t, e)
  {}

  lemma KeyNameMeansNothing(lib: Library, t: Text, e: AclElement)
    requires e.KeyName?
    ensures !Means(lib, t, e)
  {}

  lemma EntryAccepted(lib: Library, s: Tokens, acl: Acl, e: AclElement, rest: Tokens)
    requires EntrySpelled(lib, s, e, rest)
    ensures AclEntry(lib, s, acl) == Done(acl + [e], rest)
  {
    hide AclItem, ItemSpelled, Means;
    var w := Width(e);
    if e.Negated? {
      ItemIff(lib, s[1..], e.element, s[w..]);
      assert s[1..][..w - 1] == s[..w][1..] && s[1..][w - 1..] == s[w..];
    } else {
      SpelledReadable(lib, s[..w], e);
      ItemIff(lib, s, e, s[w..]);
    }
  }

  lemma SpelledReadable(lib: Library, ts: Tokens, e: AclElement)
    requires |ts| == Width(e) && !e.Negated? && ItemSpelled(lib, ts, e)
    ensures Readable(ts[0])
  {}

  lemma EntryRead(lib: Library, s: Tokens, acl: Acl, next: Acl, rest: Tokens)
    requires AclEntry(lib, s, acl) == Done(next, rest)
    ensures |next| == |acl| + 1 && next == acl + [next[|acl|]] && EntrySpelled(lib, s, next[|acl|], rest)
  {
    hide AclItem, ItemSpelled;
    var negated := s != [] && s[0] == Bang;
    var body := if negated then s[1..] else s;
    var x, r := AclItem(lib, body).value, AclItem(lib, body).rest;
    ItemIff(lib, body, x, r);
    var e := next[|acl|];
    assert e == if negated then Negated(x) else x;
    var w := Width(x);
    assert r == body[w..] && body[w] == Semi;
    if negated {
      assert s[..w + 1][1..] == body[..w] && s[w + 1] == body[w] && s[w + 2..] == body[w + 1..];
    }
  }

  lemma EntryIsNoClose(lib: Library, s: Tokens, e: AclElement, rest: Tokens)
    requires EntrySpelled(lib, s, e, rest)
    ensures s[0] != Close
  {
    hide Means;
    if !e.Negated? { SpelledReadable(lib, s[..Width(e)], e); }
  }

  lemma {:induction false} ListAccepted(lib: Library, s: Tokens, acl: Acl, more: Acl, rest: Tokens)
    requires ListSpelled(lib, s, more, rest)
    ensures Block(Close, AclStep(lib), s, acl) == Done(acl + more, rest)
    decreases more
  {
    hide AclEntry, EntrySpelled;
    if more == [] {
      assert acl + more == acl;
    } else {
      var x := s[Width(more[0]) + 1..];
      EntryIsNoClose(lib, s, more[0], x);
      EntryAccepted(lib, s, acl, more[0], x);
      ListAccepted(lib, x, acl + [more[0]], more[1..], rest);
      assert acl + [more[0]] + more[1..] == acl + more;
    }
  }

  lemma {:induction false} ListRead(lib: Library, s: Tokens, acl: Acl, next: Acl, rest: Tokens)
    requires Block(Close, AclStep(lib), s, acl) == Done(next, rest)
    ensures acl <= next && ListSpelled(lib, s, next[|acl|..], rest)
    decreases |s|
  {
    hide AclEntry, ElementSpelled;
    if s != [] && s[0] == Close {
      assert s == [Close] + rest;
    } else {
      var grown, x := AclEntry(lib, s, acl).value, AclEntry(lib, s, acl).rest;
      EntryRead(lib, s, acl, grown, x);
      ListRead(lib, x, grown, next, rest);
      var more := next[|acl|..];
      assert more[0] == grown[|acl|] && more[1..] == next[|grown|..];
    }
  }

  /** Exactly the spelled lists are accepted, with the elements they spell, and everything after the list is left. */
  lemma AclIff(lib: Library, s: Tokens, acl: Acl, rest: Tokens)
    ensures ParseAcl(lib, s) == Done(acl, rest) <==> s != [] && s[0] == Open && ListSpelled(lib, s[1..], acl, rest)
  {
    hide ListSpelled, Block;
    if s != [] && s[0] == Open {
      if ListSpelled(lib, s[1..], acl, rest) {
        ListAccepted(lib, s[1..], [], acl, rest);
        assert [] + acl == acl;
      }
      if ParseAcl(lib, s) == Done(acl, rest) {
        ListRead(lib, s[1..], [], acl, rest);
        assert acl[0..] == acl;
      }
    }
  }

  // ---- Words ---------------------------------------------------------------

  /** Exactly the words of a zone type are accepted for it. */
  lemma ZoneTypeIff(t: Text, z: ZoneType)
    ensures ZoneTypeOf(t) == Some(z) <==> ZoneTypeWord(t, z)
  {
    if ZoneTypeWord(t, z) { ZoneTypeReadsBack(t, z); }
    hide LowerAll, Ascii;
  }

  lemma {:induction false} Trimmed(t: Text)
    ensures exists n: nat :: t == TrimDots(t) + Dots(n)
    decreases |t|
  {
    if t != [] && t[|t| - 1] == DOT {
      Trimmed(t[..|t| - 1]);
      var n: nat :| t[..|t| - 1] == TrimDots(t) + Dots(n);
      assert t == TrimDots(t) + Dots(n + 1);
    } else {
      assert t == TrimDots(t) + Dots(0);
    }
  }

  /** Exactly the words of an algorithm, with any number of final dots, are accepted for it. */
  lemma AlgorithmIff(t: Text, a: Tsig.Algorithm)
    ensures AlgorithmOf(t) == Some(a) <==> AlgorithmWord(t, a)
  {
    if AlgorithmWord(t, a) { AlgorithmReadsBack(t, a); }
    Trimmed(LowerAll(t));
    hide LowerAll, Ascii, TrimDots, Dots;
  }

  /** A port is read exactly up to 65535. */
  lemma PortIff(t: Token, n: nat, x: Tokens)
    requires IsText(t, Decimal.Digits(n))
    ensures Port([t] + x) == if n <= 65535 then Done(n, x) else Fail
  {
    Decimal.ParsePrinted(n, 0xFFFF);
    hide Decimal.Digits, Decimal.Parse;
    assert ([t] + x)[1..] == x;
  }
}
