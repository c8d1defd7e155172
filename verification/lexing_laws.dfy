/** Lexing undoes printing. */
module LexingLaws {
  import opened Bytes
  import opened Domain
  import opened Records
  import opened CharString
  import opened Tokenizer
  import opened Serializer
  import Base64
  import Bitmap
  import Decimal
  import Hex
  import RecordTypes
  import Timestamp

  // ---- Words that lex to themselves ----------------------------------------

  /** No special character stands outside an escape, and no escape is cut off. */
  predicate Closed(w: Text) {
    w == [] ||
    if w[0] == BACKSLASH then |w| > 1 && Closed(w[2..])
    else !Special(w[0]) && Closed(w[1..])
  }

  /** The scan stops exactly at the end of a word exactly when the word is closed. */
  lemma {:induction false} ClosedIff(w: Text, x: Text)
    requires x != [] && Special(x[0])
    ensures WordSize(w + x) == |w| <==> Closed(w)
    decreases |w|
  {
    hide Special;
    BackslashIsPlain();
    if w == [] {
      assert w + x == x;
    } else {
      var s := w + x;
      if w[0] == BACKSLASH && |w| > 1 {
        assert s[2..] == w[2..] + x;
        ClosedIff(w[2..], x);
      } else if w[0] != BACKSLASH {
        assert s[1..] == w[1..] + x;
        ClosedIff(w[1..], x);
      }
    }
  }

  lemma BackslashIsPlain()
    ensures !Special(BACKSLASH)
  {}

  /** A word that can stand anywhere on a line. */
  predicate Free(w: Text) {
    w != [] && Closed(w) && w[0] != DOLLAR && w[|w| - 1] != NEWLINE
  }

  /** A text is lexed as one word, up to the line end after it, exactly when it is closed and not a directive. */
  lemma WordLexesIff(w: Text)
    requires w != []
    ensures Lex(w + [NEWLINE], false, false) == Next(Word(w), |w|, 0, false) <==> Closed(w) && w[0] != DOLLAR
  {
    var s := w + [NEWLINE];
    ClosedIff(w, [NEWLINE]);
    LexUnfolds(s, false, false);
    if !Blank(w[0]) {
      hide WordSize, Closed, Lex;
      if w[0] != NEWLINE && w[0] != SEMICOLON && w[0] != OPEN && w[0] != CLOSE && w[0] != QUOTE {
        assert !Special(s[0]);
        assert WordSize(s) == |w| ==> s[..WordSize(s)] == w;
      } else {
        if w[0] == SEMICOLON { CommentThenLine(w); }
      }
    } else {
      BlanksOf(s);
      hide WordSize, Closed, Lex;
      BlankGivesLess(s, w);
    }
  }

  lemma CommentThenLine(w: Text)
    requires w != [] && w[0] == SEMICOLON
    ensures LexHere(w + [NEWLINE], false) != Next(Word(w), |w|, 0, false)
  {
    var s := w + [NEWLINE];
    var c := CommentSize(s);
    CommentEnds(s);
    LexUnfolds(s[c..], false, false);
  }

  lemma {:induction false} CommentEnds(s: Text)
    requires s != [] && s[|s| - 1] == NEWLINE
    ensures CommentSize(s) < |s| && s[CommentSize(s)] == NEWLINE
  {
    if s[0] != NEWLINE { CommentEnds(s[1..]); }
  }

  /** A token after blanks is shorter than what it was read from. */
  lemma BlankGivesLess(s: Text, w: Text)
    requires s != [] && Blank(s[0]) && |w| == |s| - 1 && w != [] && w[0] == s[0]
    ensures Lex(s, false, false) != Next(Word(w), |w|, 0, false)
  {
    LexUnfolds(s, false, false);
    BlanksOf(s);
    var k := Blanks(s);
    var rest := s[k..];
    if rest != [] {
      hide Lex;
      match LexHere(rest, false) {
        case End(_, _) =>
        case Next(t, n, _, _) =>
          if t == Word(w) { WordStartsPlain(rest, t); }
      }
    }
  }

  /** A word never starts with a blank. */
  lemma WordStartsPlain(s: Text, t: Token)
    requires s != [] && !Blank(s[0]) && LexHere(s, false).Next? && LexHere(s, false).token == t && t.Word?
    ensures t.text != [] && !Blank(t.text[0])
  {
    if s[0] == SEMICOLON {
      var rest := s[CommentSize(s)..];
      CommentNotEmpty(s);
      LexUnfolds(rest, false, false);
      CommentStops(s);
    }
  }

  lemma {:induction false} CommentStops(s: Text)
    ensures CommentSize(s) < |s| ==> s[CommentSize(s)] == NEWLINE
  {
    if s != [] && s[0] != NEWLINE { CommentStops(s[1..]); }
  }

  // ---- Token lists of concatenations ---------------------------------------

  lemma SkipBlank(b: Byte, x: Text)
    requires Blank(b)
    ensures Tokens([b] + x, false, false) == Tokens(x, false, false)
  {
    hide Lex, LexHere;
    var s := [b] + x;
    assert s[1..] == x;
    LexUnfolds(s, false, false);
    LexUnfolds(x, false, false);
    assert Blanks(s) == 1 + Blanks(x) && s[1 + Blanks(x)..] == x[Blanks(x)..];
    hide Blanks, Tokens;
    ReadOn([b], x, false, false, false, 0);
  }

  lemma WordThen(w: Text, x: Text, lineStart: bool)
    requires Free(w) && x != [] && Special(x[0])
    ensures Tokens(w + x, lineStart, false) == [Word(w)] + Tokens(x, false, false)
  {
    var s := w + x;
    ClosedIff(w, x);
    BackslashIsPlain();
    assert !Special(w[0]);
    LexUnfolds(s, lineStart, false);
    hide Lex, WordSize, Closed;
    assert s[..|w|] == w && s[|w|..] == x && s[|w| - 1] == w[|w| - 1];
    assert Lex(s, lineStart, false) == Next(Word(w), |w|, 0, false);
  }

  lemma DirectiveThen(w: Text, x: Text)
    requires w != [] && Closed(w) && w[0] == DOLLAR && w[|w| - 1] != NEWLINE && x != [] && Special(x[0])
    ensures Tokens(w + x, true, false) == [Directive(w)] + Tokens(x, false, false)
  {
    var s := w + x;
    ClosedIff(w, x);
    LexUnfolds(s, true, false);
    hide Lex, WordSize, Closed;
    assert s[..|w|] == w && s[|w|..] == x && s[|w| - 1] == w[|w| - 1];
    assert Lex(s, true, false) == Next(Directive(w), |w|, 0, false);
  }

  lemma LineEndThen(x: Text)
    ensures Tokens([NEWLINE] + x, false, false) == [Newline] + Tokens(x, true, false)
  {
    var s := [NEWLINE] + x;
    LexUnfolds(s, false, false);
    hide Lex;
    assert s[1..] == x;
    assert Lex(s, false, false) == Next(Newline, 1, 1, false);
  }

  /** Text between quotes that lexes to a value. */
  ghost predicate Reads(body: Text, value: Text) {
    forall x: Text :: ScanQuoted(body + [QUOTE] + x) == Scanned(value, |body| + 1)
  }

  lemma QuotedThen(body: Text, value: Text, x: Text)
    requires Reads(body, value)
    ensures Tokens([QUOTE] + body + [QUOTE] + x, false, false) == [QuotedString(value)] + Tokens(x, false, false)
  {
    var s := [QUOTE] + body + [QUOTE] + x;
    LexUnfolds(s, false, false);
    hide Lex, ScanQuoted;
    var n := |body| + 2;
    assert s[1..] == body + [QUOTE] + x;
    assert s[n..] == x && s[n - 1] == QUOTE;
    assert Lex(s, false, false) == Next(QuotedString(value), n, 0, false);
  }

  /** A tab at the start of a line stands for the owner of the line before. */
  lemma ElidedThen(x: Text)
    requires x != [] && !Blank(x[0]) && x[0] != NEWLINE
    ensures Tokens([TAB] + x, true, false) == [Word([])] + Tokens(x, false, false)
  {
    var s := [TAB] + x;
    assert s[1..] == x;
    LexUnfolds(s, true, false);
    hide Lex;
    assert Lex(s, true, false) == Next(Word([]), 1, 0, false);
  }

  // ---- Pieces --------------------------------------------------------------

  ghost predicate Fine(p: Piece) {
    match p
    case Bare(t) => t == [] || Free(t)
    case Quoted(b, v) => Reads(b, v)
  }

  ghost predicate AllFine(ps: seq<Piece>) { forall i :: 0 <= i < |ps| ==> Fine(ps[i]) }

  lemma PieceThen(p: Piece, x: Text)
    requires Fine(p) && x != [] && Special(x[0])
    ensures Tokens(PieceText(p) + x, false, false) == PieceTokens(p) + Tokens(x, false, false)
  {
    hide Tokens, Free, Reads, Special;
    match p {
      case Bare(t) =>
        if t == [] {
          assert t + x == x && [] + Tokens(x, false, false) == Tokens(x, false, false);
        } else {
          WordThen(t, x, false);
        }
      case Quoted(b, v) => QuotedThen(b, v, x);
    }
  }

  lemma {:induction false} PiecesThen(ps: seq<Piece>, sep: Byte, x: Text)
    requires AllFine(ps) && Blank(sep) && x != [] && Special(x[0])
    ensures Tokens(Separated(ps, sep) + x, false, false) == AllTokens(ps) + Tokens(x, false, false)
    ensures ps != [] ==> Separated(ps, sep) != [] && Separated(ps, sep)[0] == sep
    decreases ps
  {
    hide Tokens, PieceText, PieceTokens, Fine, Special, Blank;
    if ps == [] {
      assert Separated(ps, sep) + x == x && AllTokens(ps) + Tokens(x, false, false) == Tokens(x, false, false);
    } else {
      var rest, t := Separated(ps[1..], sep), Tokens(x, false, false);
      PiecesThen(ps[1..], sep, x);
      BlankIsSpecial(sep);
      PieceThen(ps[0], rest + x);
      SkipBlank(sep, PieceText(ps[0]) + (rest + x));
      Assoc([sep] + PieceText(ps[0]), rest, x);
      Assoc([sep], PieceText(ps[0]), rest + x);
      Assoc(PieceTokens(ps[0]), AllTokens(ps[1..]), t);
    }
  }

  lemma Assoc<T>(a: seq<T>, b: seq<T>, c: seq<T>)
    ensures a + b + c == a + (b + c)
  {}

  lemma BlankIsSpecial(b: Byte)
    requires Blank(b)
    ensures Special(b)
  {}

  lemma SpacedThen(ps: seq<Piece>, x: Text)
    requires AllFine(ps) && x != [] && Special(x[0])
    ensures Tokens(Spaced(ps) + x, false, false) == AllTokens(ps) + Tokens(x, false, false)
  {
    hide Tokens, PieceText, PieceTokens, Fine;
    if ps == [] {
      assert Spaced(ps) + x == x && AllTokens(ps) + Tokens(x, false, false) == Tokens(x, false, false);
    } else {
      var tail := Separated(ps[1..], SPACE) + x;
      PiecesThen(ps[1..], SPACE, x);
      PieceThen(ps[0], tail);
      assert Spaced(ps) + x == PieceText(ps[0]) + tail;
      assert PieceTokens(ps[0]) + (AllTokens(ps[1..]) + Tokens(x, false, false)) == AllTokens(ps) + Tokens(x, false, false);
    }
  }

  // ---- Pieces that always lex back -----------------------------------------

  /** No special character, backslash or dollar sign at all. */
  predicate Simple(t: Text) {
    forall i :: 0 <= i < |t| ==> !Special(t[i]) && t[i] != BACKSLASH && t[i] != DOLLAR
  }

  lemma {:induction false} UnescapedIsClosed(t: Text)
    requires forall i :: 0 <= i < |t| ==> !Special(t[i]) && t[i] != BACKSLASH
    ensures Closed(t)
  {
    hide Special;
    if t != [] { UnescapedIsClosed(t[1..]); }
  }

  lemma SimpleIsFine(t: Text)
    requires Simple(t)
    ensures Fine(Bare(t)) && (t != [] ==> Free(t))
  {
    UnescapedIsClosed(t);
    hide Closed;
  }

  lemma NumIsFine(n: nat)
    ensures Fine(Num(n)) && Free(Decimal.Digits(n)) && Decimal.AllDigits(Decimal.Digits(n))
  {
    hide Decimal.Digits, Fine, Free;
    SimpleIsFine(Decimal.Digits(n));
  }

  lemma HexIsFine(s: seq<Byte>)
    ensures Fine(HexText(s)) && Fine(Salt(s))
  {
    hide Hex.Encode, Fine;
    SimpleIsFine(Hex.Encode(s));
    SimpleIsFine(Ascii("-"));
  }

  lemma {:induction false} Base64Symbols(s: seq<Byte>)
    ensures Simple(Base64.Encode(s))
  {
    hide Base64.Sextet1, Base64.Sextet2, Base64.Sextet3, Base64.Sextet4;
    if |s| >= 3 { Base64Symbols(s[3..]); }
  }

  lemma Base64IsFine(s: seq<Byte>)
    ensures Fine(Base64Text(s))
  {
    hide Base64.Encode, Fine;
    Base64Symbols(s);
    SimpleIsFine(Base64.Encode(s));
  }

  lemma TimeIsFine(t: U32)
    ensures Fine(Time(t))
  {
    hide Timestamp.FormatTimestamp, Fine;
    Timestamp.TimestampRoundTrip(t);
    SimpleIsFine(Timestamp.FormatTimestamp(t));
  }

  lemma MnemonicIsFine(n: U16)
    ensures Fine(Bare(RecordTypes.Mnemonic(n))) && Free(RecordTypes.Mnemonic(n))
  {
    hide RecordTypes.Mnemonic, Fine, Free;
    RecordTypes.MnemonicIsCapital(n);
    SimpleIsFine(RecordTypes.Mnemonic(n));
  }

  lemma TypesAreFine(bitmap: seq<Byte>)
    ensures AllFine(Types(bitmap))
  {
    hide RecordTypes.Mnemonic, Fine, Bitmap.Numbers;
    var ns := Bitmap.Numbers(bitmap);
    forall i | 0 <= i < |ns| ensures Fine(Bare(RecordTypes.Mnemonic(ns[i]))) { MnemonicIsFine(ns[i]); }
  }

  lemma AddressIsFine(a: Ipv4)
    ensures Fine(Dotted4(a))
  {
    hide Decimal.Digits, Fine;
    SimpleIsFine(Dotted4(a).text);
  }

  lemma TxtIsFine(strings: seq<seq<Byte>>)
    ensures AllFine(TxtPieces(strings))
  {
    hide Escaped, Half, ScanQuoted;
    forall i | 0 <= i < |strings| ensures Fine(TxtPieces(strings)[i]) {
      forall x: Text ensures ScanQuoted(Escaped(strings[i]) + [QUOTE] + x) == Scanned(Half(strings[i]), |Escaped(strings[i])| + 1) {
        ScanEscaped(strings[i], x);
      }
    }
  }

  lemma GenericIsFine(rdata: seq<Byte>)
    ensures AllFine(GenericPieces(rdata))
  {
    var mark: Text := [BACKSLASH, 35];
    assert mark[2..] == [] && Closed(mark);
    hide Hex.Encode, Decimal.Digits, Closed;
    NumIsFine(|rdata|);
    HexIsFine(rdata);
  }

  lemma FixedIsFine(rr: ResourceRecord)
    ensures AllFine(Fixed(rr))
    ensures Decimal.Digits(rr.ttl) != []
  {
    hide Fine, Decimal.Digits, TypeText, ClassText;
    NumIsFine(rr.ttl);
    ClassIsFine(rr.rclass);
    TypeIsFine(rr.rdata);
  }

  lemma ClassIsFine(c: U16)
    ensures Fine(Bare(ClassText(c)))
  {
    hide Fine, Decimal.Digits;
    SimpleIsFine(ClassText(c));
  }

  lemma TypeIsFine(rd: RecordData)
    ensures Fine(Bare(TypeText(rd)))
  {
    hide Fine, Decimal.Digits, RecordTypes.Mnemonic;
    match rd {
      case Unknown(rtype, _) => SimpleIsFine(RecordTypes.TYPE + Decimal.Digits(rtype));
      case _ => MnemonicIsFine(TypeValue(rd));
    }
  }

  // ---- Pieces that depend on the zone --------------------------------------

  /** A name that prints as one word. */
  predicate PlainName(n: DomainName) { Free(Display(n)) }

  /** CAA text without quotes, backslashes or characters beyond ASCII. */
  predicate PlainValue(v: Text) {
    forall i :: 0 <= i < |v| ==> v[i] != QUOTE && v[i] != BACKSLASH && v[i] < 0x80
  }

  /** Library text that needs no escaping. */
  ghost predicate PlainLibrary(lib: Library) {
    forall s :: Simple(lib.ipv6(s)) && Simple(lib.base32hex(s))
  }

  predicate PlainRdata(rd: RecordData) {
    match rd
    case Cname(n) => PlainName(n)
    case Ns(n) => PlainName(n)
    case Ptr(n) => PlainName(n)
    case Soa(m, r, _, _, _, _, _) => PlainName(m) && PlainName(r)
    case Mx(_, x) => PlainName(x)
    case Srv(_, _, _, t) => PlainName(t)
    case Caa(_, tag, v) => (tag == [] || Free(tag)) && PlainValue(v)
    case Rrsig(_, _, _, _, _, _, _, s, _) => PlainName(s)
    case Nsec(n, _) => PlainName(n)
    case Rp(m, t) => PlainName(m) && PlainName(t)
    case _ => true
  }

  predicate PlainZone(z: ZoneFile) {
    PlainName(z.origin) && forall i :: 0 <= i < |z.records| ==> PlainName(z.records[i].owner) && PlainRdata(z.records[i].rdata)
  }

  lemma {:induction false} ValueReads(v: Text, x: Text)
    requires PlainValue(v)
    ensures ScanQuoted(v + [QUOTE] + x) == Scanned(v, |v| + 1)
  {
    if v == [] {
      assert v + [QUOTE] + x == [QUOTE] + x;
    } else {
      ValueReads(v[1..], x);
      assert (v + [QUOTE] + x)[1..] == v[1..] + [QUOTE] + x;
      assert [v[0]] + v[1..] == v;
    }
  }

  lemma ValueIsFine(v: Text)
    requires PlainValue(v)
    ensures Fine(Quoted(v, v))
  {
    hide ScanQuoted;
    forall x: Text ensures ScanQuoted(v + [QUOTE] + x) == Scanned(v, |v| + 1) { ValueReads(v, x); }
  }

  predicate OnlyNames(rd: RecordData) {
    rd.Cname? || rd.Ns? || rd.Ptr? || rd.Soa? || rd.Mx? || rd.Srv? || rd.Rp?
  }

  lemma NamesAreFine(lib: Library, rd: RecordData)
    requires OnlyNames(rd) && PlainRdata(rd)
    ensures AllFine(RdataPieces(lib, rd))
  {
    hide Fine, Num, Name, PlainName, Free, Display;
    forall n: nat ensures Fine(Num(n)) { NumIsFine(n); }
    forall n: DomainName | PlainName(n) ensures Fine(Name(n)) { NameIsFine(n); }
  }

  predicate OnlyBytes(rd: RecordData) {
    rd.Dnskey? || rd.Cdnskey? || rd.Ds? || rd.Cds? || rd.Dlv? || rd.Tlsa? || rd.Sshfp? || rd.Nsec3param?
  }

  lemma BytesAreFine(lib: Library, rd: RecordData)
    requires OnlyBytes(rd)
    ensures AllFine(RdataPieces(lib, rd))
  {
    hide Fine, Num, HexText, Base64Text, Salt;
    forall n: nat ensures Fine(Num(n)) { NumIsFine(n); }
    forall s: seq<Byte> ensures Fine(HexText(s)) && Fine(Salt(s)) && Fine(Base64Text(s)) { HexIsFine(s); Base64IsFine(s); }
  }

  lemma SignatureIsFine(lib: Library, rd: RecordData)
    requires rd.Rrsig? && PlainRdata(rd)
    ensures AllFine(RdataPieces(lib, rd))
  {
    hide Fine, Num, Name, Base64Text, Time, PlainName, Free, Display, RecordTypes.Mnemonic;
    forall n: nat ensures Fine(Num(n)) { NumIsFine(n); }
    MnemonicIsFine(rd.typeCovered);
    TimeIsFine(rd.expiration);
    TimeIsFine(rd.inception);
    NameIsFine(rd.signer);
    Base64IsFine(rd.signature);
  }

  /** All of a record's pieces lex to what they should, if its names and CAA text are plain. */
  lemma RdataIsFine(lib: Library, rd: RecordData)
    requires PlainLibrary(lib) && PlainRdata(rd)
    ensures AllFine(RdataPieces(lib, rd))
  {
    if OnlyNames(rd) {
      NamesAreFine(lib, rd);
    } else if OnlyBytes(rd) {
      BytesAreFine(lib, rd);
    } else if rd.Rrsig? {
      SignatureIsFine(lib, rd);
    } else {
      OthersAreFine(lib, rd);
    }
  }

  lemma OthersAreFine(lib: Library, rd: RecordData)
    requires PlainLibrary(lib) && PlainRdata(rd) && !OnlyNames(rd) && !OnlyBytes(rd) && !rd.Rrsig?
    ensures AllFine(RdataPieces(lib, rd))
  {
    hide Fine, Num, Name, Dotted4, Salt, Types, TxtPieces, GenericPieces, PlainName, PlainValue, PlainLibrary, Free, Simple,
      Display;
    forall n: nat ensures Fine(Num(n)) { NumIsFine(n); }
    match rd {
      case A(addr) => AddressIsFine(addr);
      case Aaaa(addr) => LibraryIsFine(lib, addr);
      case Txt(strings) => TxtIsFine(strings);
      case Caa(f, tag, v) => ValueIsFine(v); BareIsFine(tag);
      case Nsec(n, b) => TypesAreFine(b); NameIsFine(n);
      case Nsec3(_, _, _, salt, next, b) => TypesAreFine(b); LibraryIsFine(lib, next); HexIsFine(salt);
      case Csync(_, _, b) => TypesAreFine(b);
      case Unknown(_, raw) => GenericIsFine(raw);
    }
  }

  lemma LibraryIsFine(lib: Library, s: seq<Byte>)
    requires PlainLibrary(lib)
    ensures Fine(Bare(lib.ipv6(s))) && Fine(Bare(lib.base32hex(s)))
  {
    hide Simple, Fine;
    SimpleIsFine(lib.ipv6(s));
    SimpleIsFine(lib.base32hex(s));
  }

  lemma NameIsFine(n: DomainName)
    requires PlainName(n)
    ensures Fine(Name(n))
  {}

  lemma BareIsFine(t: Text)
    requires t == [] || Free(t)
    ensures Fine(Bare(t))
  {}

  // ---- Which names are plain -----------------------------------------------

  /** None of the four characters `;`, `(`, `)` and `"` outside an escape. */
  predicate NoMarks(t: Text) {
    t == [] ||
    if t[0] == BACKSLASH then |t| > 1 && NoMarks(t[2..])
    else t[0] != SEMICOLON && t[0] != OPEN && t[0] != CLOSE && t[0] != QUOTE && NoMarks(t[1..])
  }

  lemma TwoDigits(s: Text)
    requires |s| >= 2 && IsDigit(s[0]) && IsDigit(s[1])
    ensures (Closed(s) <==> Closed(s[2..])) && (NoMarks(s) <==> NoMarks(s[2..]))
  {
    assert s[1..][1..] == s[2..];
  }

  /** In a label the marks are all that can end a word early, and the dot after a label is never escaped. */
  lemma {:induction false} LabelClosed(t: Text, rest: Text)
    requires Decode(t).Ok?
    ensures Closed(t + [DOT] + rest) <==> NoMarks(t) && Closed(rest)
    decreases |t|
  {
    var s := t + [DOT] + rest;
    if t == [] {
      assert s[1..] == rest;
    } else if t[0] != BACKSLASH {
      assert s[1..] == t[1..] + [DOT] + rest;
      LabelClosed(t[1..], rest);
    } else if DecimalEscape(t) {
      assert s[4..] == t[4..] + [DOT] + rest;
      TwoDigits(s[2..]);
      TwoDigits(t[2..]);
      assert s[2..][2..] == s[4..] && t[2..][2..] == t[4..];
      LabelClosed(t[4..], rest);
    } else {
      assert s[2..] == t[2..] + [DOT] + rest;
      LabelClosed(t[2..], rest);
    }
  }

  lemma {:induction false} DottedClosed(labels: seq<Label>)
    requires forall l <- labels :: l.Valid()
    ensures Closed(Dotted(labels)) <==> forall i :: 0 <= i < |labels| ==> NoMarks(labels[i].text)
    ensures labels != [] ==> Dotted(labels) != [] && Dotted(labels)[|Dotted(labels)| - 1] == DOT
  {
    hide NoMarks;
    if labels != [] {
      assert labels[0] in labels && forall l <- labels[1..] :: l in labels;
      DottedClosed(labels[1..]);
      LabelClosed(labels[0].text, Dotted(labels[1..]));
    }
  }

  /** A name prints as one word exactly when no label has a mark outside an escape and it does not start with a dollar sign. */
  lemma PlainNameIff(n: DomainName)
    ensures PlainName(n) <==>
            (forall i :: 0 <= i < |n.labels| ==> NoMarks(n.labels[i].text)) && Display(n)[0] != DOLLAR
  {
    hide NoMarks;
    DottedClosed(n.labels);
    if n.labels == [] {
      var dot: Text := [DOT];
      assert dot[1..] == [] && Closed(dot);
    }
    hide Closed;
  }

  // ---- Main result ---------------------------------------------------------

  lemma Special2()
    ensures Special(NEWLINE) && Special(TAB) && Special(SPACE) && Blank(TAB) && Blank(SPACE)
  {}

  /** One printed record. */
  lemma RecordLexes(lib: Library, rr: ResourceRecord, elided: bool, x: Text)
    requires PlainLibrary(lib) && PlainName(rr.owner) && PlainRdata(rr.rdata)
    ensures Tokens(RecordLine(lib, rr, elided) + x, true, false) == RecordTokens(lib, rr, elided) + Tokens(x, true, false)
  {
    hide Tokens, PlainName, PlainRdata, RdataPieces, Spaced, Separated, Special, Blank, Fixed, AllTokens, Fine, Display;
    var fixed, data := Fixed(rr), RdataPieces(lib, rr.rdata);
    var line := [NEWLINE] + x;
    var tail := [TAB] + (Spaced(data) + line);
    Special2();
    FixedIsFine(rr);
    RdataIsFine(lib, rr.rdata);
    LineEndThen(x);
    SpacedThen(data, line);
    SkipBlank(TAB, Spaced(data) + line);
    PiecesThen(fixed, TAB, tail);
    FirstField(lib, rr, elided, tail);
    var owner: Text := if elided then [] else Display(rr.owner);
    assert RecordLine(lib, rr, elided) + x == owner + (Separated(fixed, TAB) + tail);
    var t := Tokens(x, true, false);
    assert RecordTokens(lib, rr, elided) + t == [Word(owner)] + (AllTokens(fixed) + (AllTokens(data) + ([Newline] + t)));
  }

  /** The owner, or the tab that stands for it. */
  lemma FirstField(lib: Library, rr: ResourceRecord, elided: bool, tail: Text)
    requires PlainName(rr.owner) && tail != []
    ensures var owner: Text := if elided then [] else Display(rr.owner);
            Tokens(owner + (Separated(Fixed(rr), TAB) + tail), true, false)
            == [Word(owner)] + Tokens(Separated(Fixed(rr), TAB) + tail, false, false)
  {
    hide Tokens, TypeText, ClassText, Special, Blank, Free, Display, Decimal.Digits, Decimal.AllDigits;
    var s := Separated(Fixed(rr), TAB) + tail;
    var digits := Decimal.Digits(rr.ttl);
    Special2();
    NumIsFine(rr.ttl);
    FirstDigit(rr.ttl);
    assert s[0] == TAB && s[1] == digits[0];
    if elided {
      var rest := s[1..];
      assert s == [TAB] + rest && [] + s == s;
      ElidedThen(rest);
      SkipBlank(TAB, rest);
    } else {
      WordThen(Display(rr.owner), s, true);
    }
  }

  lemma FirstDigit(n: nat)
    ensures Decimal.Digits(n) != [] && !Blank(Decimal.Digits(n)[0]) && Decimal.Digits(n)[0] != NEWLINE
  {
    assert IsDigit(Decimal.Digits(n)[0]);
  }

  lemma {:induction false} RecordsLex(lib: Library, last: Option<DomainName>, rs: seq<ResourceRecord>)
    requires PlainLibrary(lib)
    requires forall i :: 0 <= i < |rs| ==> PlainName(rs[i].owner) && PlainRdata(rs[i].rdata)
    ensures Tokens(RecordLines(lib, last, rs), true, false) == RecordsTokens(lib, last, rs)
    decreases rs
  {
    hide Tokens, PlainName, PlainRdata, RecordLine, RecordTokens, Elided;
    if rs == [] {
      NoTokens();
    } else {
      RecordLexes(lib, rs[0], Elided(last, rs[0]), RecordLines(lib, Some(rs[0].owner), rs[1..]));
      RecordsLex(lib, Some(rs[0].owner), rs[1..]);
    }
  }

  lemma NoTokens()
    ensures Tokens([], true, false) == []
  {}

  lemma DirectivesClosed()
    ensures Closed(ORIGIN) && Closed(TTL)
  {
    hide Closed;
    UnescapedIsClosed(ORIGIN);
    UnescapedIsClosed(TTL);
  }

  /** A directive with one word. */
  lemma DirectiveLine(name: Text, w: Text, x: Text)
    requires name != [] && Closed(name) && name[0] == DOLLAR && name[|name| - 1] != NEWLINE && Free(w)
    ensures Tokens(name + ([SPACE] + w + [NEWLINE]) + x, true, false) == [Directive(name), Word(w), Newline] + Tokens(x, true, false)
  {
    hide Tokens, Closed, Free, Special, Blank;
    Special2();
    var line := [NEWLINE] + x;
    LineEndThen(x);
    WordThen(w, line, false);
    SkipBlank(SPACE, w + line);
    DirectiveThen(name, [SPACE] + (w + line));
    assert name + ([SPACE] + w + [NEWLINE]) + x == name + ([SPACE] + (w + line));
  }

  /** Lexing a printed zone gives exactly the expected tokens: one line end per line, and an empty owner exactly
      where the owner was left out. */
  lemma LexingUndoesPrinting(lib: Library, z: ZoneFile)
    requires PlainLibrary(lib) && PlainZone(z)
    ensures Tokens(ZoneText(lib, z), true, false) == Expected(lib, z)
  {
    hide Tokens, Display, RecordLines, RecordsTokens, PlainRdata, Closed, Free, Decimal.Digits, ORIGIN, TTL;
    var lines := RecordLines(lib, None, z.records);
    RecordsLex(lib, None, z.records);
    DirectivesClosed();
    DirectiveNames();
    var ttl: Text := [];
    if z.defaultTtl.Some? {
      NumIsFine(z.defaultTtl.value);
      ttl := TTL + ([SPACE] + Decimal.Digits(z.defaultTtl.value) + [NEWLINE]);
      DirectiveLine(TTL, Decimal.Digits(z.defaultTtl.value), lines);
    }
    assert ttl == [] ==> ttl + lines == lines;
    DirectiveLine(ORIGIN, Display(z.origin), ttl + lines);
    assert ZoneText(lib, z) == ORIGIN + ([SPACE] + Display(z.origin) + [NEWLINE]) + (ttl + lines);
  }

  lemma DirectiveNames()
    ensures ORIGIN != [] && ORIGIN[0] == DOLLAR && ORIGIN[|ORIGIN| - 1] != NEWLINE
    ensures TTL != [] && TTL[0] == DOLLAR && TTL[|TTL| - 1] != NEWLINE
  {}

  // ---- Comments and parentheses --------------------------------------------

  /** A comment up to the end of its line, or of the text, leaves no token, inside parentheses or not. */
  lemma {:induction false} CommentSizeIs(c: Text, x: Text)
    requires NEWLINE !in c && (x == [] || x[0] == NEWLINE)
    ensures CommentSize(c + x) == |c|
  {
    if c == [] {
      assert c + x == x;
    } else {
      assert c[0] in c && forall b :: b in c[1..] ==> b in c;
      assert (c + x)[1..] == c[1..] + x;
      CommentSizeIs(c[1..], x);
    }
  }

  lemma CommentIgnored(c: Text, x: Text, parens: bool)
    requires NEWLINE !in c && (x == [] || x[0] == NEWLINE)
    ensures Tokens([SEMICOLON] + c + x, false, parens) == Tokens(x, false, parens)
  {
    var head := [SEMICOLON] + c;
    var s := head + x;
    CommentSizeIs(head, x);
    assert s[|head|..] == x && s[0] == SEMICOLON && Blanks(s) == 0 && s[0..] == s;
    LexUnfolds(s, false, parens);
    LexHereComment(s, parens);
    hide Lex, LexHere, Blanks, CommentSize;
    ReadOn(head, x, false, false, parens, 0);
  }

  /** If lexing goes on after some text as if it were not there, that text leaves no token. */
  lemma ReadOn(head: Text, x: Text, before: bool, after: bool, parens: bool, lines: nat)
    requires Lex(head + x, before, parens) == Advanced(Advanced(Lex(x, after, parens), |head|, lines), 0, 0)
    ensures Tokens(head + x, before, parens) == Tokens(x, after, parens)
  {
    hide Lex;
    var s := head + x;
    match Lex(x, after, parens) {
      case End(_, _) =>
      case Next(t, k, _, p) =>
        assert s[|head| + k..] == x[k..] && s[|head| + k - 1] == x[k - 1];
    }
  }

  lemma LexHereComment(s: Text, parens: bool)
    requires s != [] && s[0] == SEMICOLON
    ensures LexHere(s, parens) == Advanced(Lex(s[CommentSize(s)..], false, parens), CommentSize(s), 0)
  {
    hide Lex, CommentSize;
  }

  /** Inside parentheses a line end leaves no token, so a record may run over several lines. */
  lemma LineEndInParens(x: Text, lineStart: bool)
    ensures Tokens([NEWLINE] + x, lineStart, true) == Tokens(x, true, true)
  {
    var s := [NEWLINE] + x;
    assert s[1..] == x && Blanks(s) == 0 && s[0..] == s;
    LexUnfolds(s, lineStart, true);
    LexHereLine(s);
    hide Lex, LexHere, Blanks;
    ReadOn([NEWLINE], x, lineStart, true, true, 1);
  }

  lemma LexHereLine(s: Text)
    requires s != [] && s[0] == NEWLINE
    ensures LexHere(s, true) == Advanced(Lex(s[1..], true, true), 1, 1)
  {
    hide Lex;
  }

  /** An opening parenthesis is a token after which line ends do not count, until a closing one. */
  lemma ParenthesesSwitch(x: Text, lineStart: bool, parens: bool)
    ensures Tokens([OPEN] + x, lineStart, parens) == [ParenOpen] + Tokens(x, false, true)
    ensures Tokens([CLOSE] + x, lineStart, parens) == [ParenClose] + Tokens(x, false, false)
  {
    ParenThen(OPEN, x, lineStart, parens);
    ParenThen(CLOSE, x, lineStart, parens);
    hide Tokens;
  }

  lemma ParenThen(b: Byte, x: Text, lineStart: bool, parens: bool)
    requires b == OPEN || b == CLOSE
    ensures Tokens([b] + x, lineStart, parens) == [if b == OPEN then ParenOpen else ParenClose] + Tokens(x, false, b == OPEN)
  {
    var s := [b] + x;
    assert s[1..] == x && Blanks(s) == 0 && s[0..] == s;
    LexUnfolds(s, lineStart, parens);
    hide Lex;
    assert Lex(s, lineStart, parens) == Next(if b == OPEN then ParenOpen else ParenClose, 1, 0, b == OPEN);
  }

  /** A blank leaves no token inside parentheses or past the start of a line. */
  lemma BlankIgnored(b: Byte, x: Text, lineStart: bool, parens: bool)
    requires Blank(b) && (parens || !lineStart)
    ensures Tokens([b] + x, lineStart, parens) == Tokens(x, lineStart, parens)
  {
    var s := [b] + x;
    assert s[1..] == x && Blanks(s) == 1 + Blanks(x) && s[Blanks(s)..] == x[Blanks(x)..];
    LexUnfolds(s, lineStart, parens);
    LexUnfolds(x, lineStart, parens);
    hide Lex, LexHere, Blanks;
    ReadOn([b], x, lineStart, lineStart, parens, 0);
  }

  /** Outside parentheses a blank at the start of a line stands for the owner of the record before. */
  lemma BlankMeansOwner(b: Byte, x: Text)
    requires Blank(b) && x != [] && !Blank(x[0]) && x[0] != NEWLINE
    ensures Tokens([b] + x, true, false) == [Word([])] + Tokens(x, false, false)
  {
    var s := [b] + x;
    assert s[1..] == x && Blanks(x) == 0 && Blanks(s) == 1;
    LexUnfolds(s, true, false);
    hide Lex, LexHere, Blanks;
    assert Lex(s, true, false) == Next(Word([]), 1, 0, false);
    assert s[0] != NEWLINE;
  }
}
