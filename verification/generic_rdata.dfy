/** The generic text form for record data of unknown types (RFC 3597). */
module GenericRdata {
  import opened Bytes
  import opened Domain
  import opened Records
  import opened Serializer
  import Decimal
  import Hex
  import RecordTypes

  const MAX_USIZE := 0xFFFF_FFFF_FFFF_FFFF

  const MARK: Text := Ascii("\\#")

  function Concat(words: seq<Text>): Text {
    if words == [] then [] else words[0] + Concat(words[1..])
  }

  /** `parse_unknown`, from the type word and the words after it. */
  function ParseUnknown(rtype: Text, words: seq<Text>): Option<RecordData> {
    var number := if RecordTypes.TYPE <= rtype then Decimal.Parse(rtype[4..], 0xFFFF) else None;
    if number.None? || |words| < 2 || words[0] != MARK then None
    else
      match Decimal.Parse(words[1], MAX_USIZE)
      case None => None
      case Some(0) => if |words| > 2 then None else Some(Unknown(number.value, []))
      case Some(n) =>
        match Hex.Decode(Concat(words[2..]))
        case None => None
        case Some(data) => if |data| != n then None else Some(Unknown(number.value, data))
  }

  function PieceWords(ps: seq<Piece>): seq<Text> {
    seq(|ps|, i requires 0 <= i < |ps| => PieceText(ps[i]))
  }

  /** Data of any type, named or not, printed in the generic form reads back as it was. */
  lemma UnknownReadsBack(rtype: U16, data: seq<Byte>)
    requires |data| <= MAX_USIZE
    ensures ParseUnknown(TypeText(Unknown(rtype, data)), PieceWords(GenericPieces(data))) == Some(Unknown(rtype, data))
  {
    hide Hex.Encode, Hex.Decode, Decimal.Parse, Decimal.Digits;
    var words := PieceWords(GenericPieces(data));
    var name := RecordTypes.TYPE + Decimal.Digits(rtype);
    Decimal.ParsePrinted(rtype, 0xFFFF);
    Decimal.ParsePrinted(|data|, MAX_USIZE);
    Hex.EncodeDecode(data);
    assert name[..4] == RecordTypes.TYPE && name[4..] == Decimal.Digits(rtype);
    assert words[0] == MARK && words[1] == Decimal.Digits(|data|);
    if data != [] {
      var hex := Hex.Encode(data);
      assert words == [MARK, Decimal.Digits(|data|), hex] && words[2..] == [hex];
      assert Concat([hex]) == hex + Concat([]) == hex;
    } else {
      assert |words| == 2;
    }
  }
}
