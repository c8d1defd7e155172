/** Record type mnemonics, and type bitmaps as text. */
module RecordTypes {
  import opened Bytes
  import opened Domain
  import opened Records
  import Decimal
  import Bitmap

  const TYPE: Text := Ascii("TYPE")
  const SPACE: Byte := 32

  datatype TypeError = TypeError

  /** The mnemonic of a type, or nothing. */
  function Word(n: U16): (w: string)
    ensures forall i :: 0 <= i < |w| ==> w[i] as int < 0x80
  {
    match n
    case 1 => "A"
    case 28 => "AAAA"
    case 2 => "NS"
    case 5 => "CNAME"
    case 12 => "PTR"
    case 6 => "SOA"
    case 15 => "MX"
    case 16 => "TXT"
    case 33 => "SRV"
    case 257 => "CAA"
    case 48 => "DNSKEY"
    case 46 => "RRSIG"
    case 47 => "NSEC"
    case 50 => "NSEC3"
    case 51 => "NSEC3PARAM"
    case 43 => "DS"
    case 59 => "CDS"
    case 60 => "CDNSKEY"
    case 32769 => "DLV"
    case 52 => "TLSA"
    case 44 => "SSHFP"
    case 62 => "CSYNC"
    case 17 => "RP"
    case _ => ""
  }

  /** `Display` of `RecordType`: a mnemonic, or TYPE and the number. */
  function Mnemonic(n: U16): Text {
    if Word(n) != "" then Ascii(Word(n)) else TYPE + Decimal.Digits(n)
  }

  /** The type with a mnemonic of its own. */
  function NamedType(w: string): Option<U16> {
    if w == "A" then Some(1)
    else if w == "AAAA" then Some(28)
    else if w == "NS" then Some(2)
    else if w == "CNAME" then Some(5)
    else if w == "PTR" then Some(12)
    else if w == "SOA" then Some(6)
    else if w == "MX" then Some(15)
    else if w == "TXT" then Some(16)
    else if w == "SRV" then Some(33)
    else if w == "CAA" then Some(257)
    else if w == "DNSKEY" then Some(48)
    else if w == "RRSIG" then Some(46)
    else if w == "NSEC" then Some(47)
    else if w == "NSEC3" then Some(50)
    else if w == "NSEC3PARAM" then Some(51)
    else if w == "DS" then Some(43)
    else if w == "CDS" then Some(59)
    else if w == "CDNSKEY" then Some(60)
    else if w == "DLV" then Some(32769)
    else if w == "TLSA" then Some(52)
    else if w == "SSHFP" then Some(44)
    else if w == "CSYNC" then Some(62)
    else if w == "RP" then Some(17)
    else None
  }

  function Upper(b: Byte): Byte { if 97 <= b <= 122 then b - 32 else b }
  function UpperAll(s: Text): Text { seq(|s|, i requires 0 <= i < |s| => Upper(s[i])) }

  /** `record_type_from_str`. */
  function FromText(s: Text): Option<U16> {
    var upper := UpperAll(s);
    match NamedType(Chars(upper))
    case Some(n) => Some(n)
    case None => if TYPE <= upper then Decimal.Parse(upper[4..], 0xFFFF) else None
  }

  // ---- Mnemonics read back -------------------------------------------------

  /** Capital letters and digits, as every mnemonic is made of. */
  predicate Capital(s: Text) {
    s != [] && forall i :: 0 <= i < |s| ==> 48 <= s[i] <= 57 || 65 <= s[i] <= 90
  }

  lemma NotNamed(s: Text)
    requires TYPE <= s
    ensures NamedType(Chars(s)).None?
  {
    assert Chars(s)[0] == 'T' && Chars(s)[1] == 'Y';
  }

  lemma WordReads(n: U16)
    ensures Word(n) != "" ==> NamedType(Word(n)) == Some(n)
  {}

  lemma MnemonicIsCapital(n: U16)
    ensures Capital(Mnemonic(n)) && UpperAll(Mnemonic(n)) == Mnemonic(n)
  {
    hide Decimal.Digits;
  }

  /** What is printed for a type reads back as that type. */
  lemma MnemonicReads(n: U16)
    ensures FromText(Mnemonic(n)) == Some(n)
  {
    var s := Mnemonic(n);
    MnemonicIsCapital(n);
    WordReads(n);
    hide Word, NamedType;
    if Word(n) != "" {
      CharsOfAscii(Word(n));
    } else {
      assert s == TYPE + Decimal.Digits(n) && s[4..] == Decimal.Digits(n);
      NotNamed(s);
      Decimal.ParsePrinted(n, 0xFFFF);
    }
  }

  lemma WordsAreNames(w: string, n: U16)
    ensures NamedType(w) == Some(n) ==> Word(n) == w && w != ""
  {}

  lemma AsciiOfChars(s: Text)
    requires forall i :: 0 <= i < |s| ==> s[i] < 0x80
    ensures (forall i :: 0 <= i < |Chars(s)| ==> Chars(s)[i] as int < 0x80) && Ascii(Chars(s)) == s
  {}

  /** Exactly the mnemonic of a type, in any letter case, is read as that type, and so is TYPE with its number. */
  lemma ReadsIff(s: Text, n: U16)
    ensures var u := UpperAll(s);
            FromText(s) == Some(n) <==> u == Mnemonic(n) || (TYPE <= u && Decimal.Parse(u[4..], 0xFFFF) == Some(n))
  {
    var u := UpperAll(s);
    WordsAreNames(Chars(u), n);
    MnemonicReads(n);
    MnemonicIsCapital(n);
    if TYPE <= u { NotNamed(u); }
    hide Word, NamedType, Decimal.Parse, Mnemonic;
    if NamedType(Chars(u)) == Some(n) { NamedMnemonic(u, n); }
    assert u == Mnemonic(n) ==> FromText(s) == FromText(Mnemonic(n));
  }

  lemma NamedMnemonic(u: Text, n: U16)
    requires Word(n) == Chars(u) && Word(n) != ""
    ensures u == Mnemonic(n)
  {
    hide Word;
    forall i | 0 <= i < |u| ensures u[i] < 0x80 { assert Chars(u)[i] == Word(n)[i]; }
    AsciiOfChars(u);
  }

  // ---- Bitmaps as lists of mnemonics ---------------------------------------

  /** The types of a list of words, if each is one. */
  function TypesOf(words: seq<Text>): Result<seq<U16>, TypeError> {
    if words == [] then Ok([])
    else
      match (FromText(words[0]), TypesOf(words[1..]))
      case (Some(n), Ok(ns)) => Ok([n] + ns)
      case _ => Err(TypeError)
  }

  function EncodeTypes(words: seq<Text>): Result<seq<Byte>, TypeError> {
    match TypesOf(words)
    case Ok(ns) =>
      Bitmap.SortDedupSorts(ns);
      Ok(Bitmap.Octets(Bitmap.SortDedup(ns)))
    case Err(e) => Err(e)
  }

  method EncodeTypeBitmap(types: seq<Text>) returns (r: Result<seq<Byte>, TypeError>)
    ensures r == EncodeTypes(types)
  {
    hide FromText;
    var ns: seq<U16> := [];
    assert types[0..] == types && forall rest: seq<U16> :: ns + rest == rest;
    for i := 0 to |types|
      invariant TypesOf(types) ==
                match TypesOf(types[i..])
                case Ok(rest) => Ok(ns + rest)
                case Err(e) => Err(e)
    {
      var n := FromText(types[i]);
      assert types[i..][1..] == types[i + 1..];
      if n.None? {
        return Err(TypeError);
      }
      assert forall rest :: ns + ([n.value] + rest) == ns + [n.value] + rest;
      ns := ns + [n.value];
    }
    assert ns + [] == ns;
    Bitmap.SortDedupSorts(ns);
    var octets := Bitmap.EncodeNumbers(Bitmap.SortDedup(ns));
    r := Ok(octets);
  }

  function Mnemonics(ns: seq<U16>): seq<Text> { seq(|ns|, i requires 0 <= i < |ns| => Mnemonic(ns[i])) }

  /** Words with single spaces between them. */
  function Join(words: seq<Text>): Text {
    if words == [] then []
    else if |words| == 1 then words[0]
    else words[0] + [SPACE] + Join(words[1..])
  }

  function DecodeText(bitmap: seq<Byte>): Text { Join(Mnemonics(Bitmap.Numbers(bitmap))) }

  method DecodeTypeBitmap(bitmap: seq<Byte>) returns (text: Text)
    ensures text == DecodeText(bitmap)
  {
    var numbers := Bitmap.DecodeNumbers(bitmap);
    text := Join(Mnemonics(numbers));
  }

  /** Length of the word `s` starts with. */
  function WordLength(s: Text): (k: nat)
    ensures k <= |s|
  {
    if s == [] || s[0] == SPACE then 0 else 1 + WordLength(s[1..])
  }

  /** The words of a text. */
  function Words(s: Text): seq<Text> {
    if s == [] then []
    else if s[0] == SPACE then Words(s[1..])
    else [s[..WordLength(s)]] + Words(s[WordLength(s)..])
  }

  lemma {:induction false} WordThen(w: Text, rest: Text)
    requires Capital(w) && (rest == [] || rest[0] == SPACE)
    ensures WordLength(w + rest) == |w|
  {
    assert (w + rest)[1..] == w[1..] + rest;
    if |w| > 1 { WordThen(w[1..], rest); }
  }

  lemma {:induction false} WordsOfJoin(words: seq<Text>)
    requires forall i :: 0 <= i < |words| ==> Capital(words[i])
    ensures Words(Join(words)) == words
  {
    if words != [] {
      var w, rest := words[0], if |words| == 1 then [] else [SPACE] + Join(words[1..]);
      WordThen(w, rest);
      WordsOfJoin(words[1..]);
      assert Join(words) == w + rest && (w + rest)[..|w|] == w && (w + rest)[|w|..] == rest;
      assert words == [w] + words[1..];
      assert |words| > 1 ==> rest[1..] == Join(words[1..]);
      assert Words(rest) == words[1..];
    }
  }

  lemma {:induction false} TypesOfMnemonics(ns: seq<U16>)
    ensures TypesOf(Mnemonics(ns)) == Ok(ns)
  {
    hide Mnemonic, FromText;
    if ns != [] {
      MnemonicReads(ns[0]);
      TypesOfMnemonics(ns[1..]);
      assert Mnemonics(ns)[1..] == Mnemonics(ns[1..]);
      assert ns == [ns[0]] + ns[1..];
    }
  }

  /** Decoding an encoded bitmap lists exactly the distinct types asked for, ascending; and the bitmap is canonical. */
  lemma TypesRoundTrip(words: seq<Text>)
    requires TypesOf(words).Ok?
    ensures var ns := TypesOf(words).value;
            var bitmap := EncodeTypes(words).value;
            Bitmap.Canonical(bitmap) && Bitmap.Ascending(Bitmap.Numbers(bitmap))
            && (forall n: U16 :: n in Bitmap.Numbers(bitmap) <==> n in ns)
  {
    var ns := TypesOf(words).value;
    Bitmap.SortDedupSorts(ns);
    Bitmap.EncodeDecode(Bitmap.SortDedup(ns));
    Bitmap.EncodeIsCanonical(Bitmap.SortDedup(ns));
  }

  /** The text of a canonical bitmap encodes to it again. */
  lemma TextRoundTrip(bitmap: seq<Byte>)
    requires Bitmap.Canonical(bitmap)
    ensures EncodeTypes(Words(DecodeText(bitmap))) == Ok(bitmap)
  {
    hide Mnemonic, Words, Join, TypesOf;
    var ns := Bitmap.Numbers(bitmap);
    forall i | 0 <= i < |ns| ensures Capital(Mnemonic(ns[i])) { MnemonicIsCapital(ns[i]); }
    WordsOfJoin(Mnemonics(ns));
    TypesOfMnemonics(ns);
    Bitmap.DecodeEncode(bitmap);
    Bitmap.AscendingIsSorted(ns);
  }
}
