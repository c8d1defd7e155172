/** RRSIG times as fourteen digits, YYYYMMDDHHmmSS (section 3.2 of RFC 4034). */
module Timestamp {
  import opened Bytes
  import opened Domain
  import opened Records
  import opened Decimal
  import opened Calendar
  import opened Utf8

  const DAY := 86400
  const MAX_U32 := 0xFFFF_FFFF

  /** A time, a parse error, or a panic: an arithmetic overflow or a slice inside a character. */
  datatype Parsed = Time(t: U32) | Invalid | Panics

  // ---- Formatting ----------------------------------------------------------

  /** At least `width` digits. */
  function Padded(n: nat, width: nat): Text {
    var digits := Digits(n);
    if |digits| >= width then digits else seq(width - |digits|, _ => 48) + digits
  }

  /** A date and a time of day, in the fields the text holds. */
  datatype Fields = Fields(year: nat, month: nat, day: nat, hour: nat, minute: nat, second: nat) {
    function Date(): Date { Calendar.Date(year, month, day) }
    function Seconds(): nat { hour * 3600 + minute * 60 + second }
    function List(): seq<nat> { [year, month, day, hour, minute, second] }
  }

  /** Numbers in fields of the given widths. */
  function Joined(ns: seq<nat>, widths: seq<nat>): Text
    requires |ns| == |widths|
    decreases ns
  {
    if ns == [] then [] else Padded(ns[0], widths[0]) + Joined(ns[1..], widths[1..])
  }

  const WIDTHS: seq<nat> := [4, 2, 2, 2, 2, 2]

  function FieldsOf(ts: U32): Fields {
    var date := DateFromDays(ts / DAY);
    var remainder := ts % DAY;
    Fields(date.year, date.month, date.day, remainder / 3600, remainder % 3600 / 60, remainder % 60)
  }

  function TextOf(f: Fields): Text { Joined(f.List(), WIDTHS) }

  function FormatTimestamp(ts: U32): Text { TextOf(FieldsOf(ts)) }

  // ---- Parsing -------------------------------------------------------------

  /** `days_from_date` in 32-bit arithmetic: none if an intermediate value is out of range. */
  function DaysFromDate(year: U32, month: U32, day: U32): Option<U32> {
    if month <= 2 && year == 0 then None
    else
      var y: U32 := if month <= 2 then year - 1 else year;
      var era: U32 := y / 400;
      var yoe: U32 := y - era * 400;
      var months := 153 * (if month > 2 then month - 3 else month + 9) + 2;
      var doy := months / 5 + day - 1;
      var doe := YearStart(yoe) + doy;
      var days := era * ERA + doe;
      if months > MAX_U32 || months / 5 + day == 0 || doy >= MAX_U32 || days > MAX_U32 || days < EPOCH then None
      else Some(days - EPOCH)
  }

  datatype Numbers = Numbers(ns: seq<U32>) | BadNumber | BadBoundary

  /** Parses consecutive slices of the given widths, left to right. */
  function ParseSlices(s: Text, widths: seq<nat>): (r: Numbers)
    ensures r.Numbers? ==> |r.ns| == |widths|
    decreases widths
  {
    if widths == [] then Numbers([])
    else
      var w := widths[0];
      if w > |s| || (w < |s| && Continuation(s[w])) then BadBoundary
      else if Parse(s[..w], MAX_U32).None? then BadNumber
      else
        match ParseSlices(s[w..], widths[1..])
        case Numbers(ns) => Numbers([Parse(s[..w], MAX_U32).value] + ns)
        case bad => bad
  }

  function ParseTimestamp(s: Text): Parsed {
    if Parse(s, MAX_U32).Some? && |s| != 14 then Time(Parse(s, MAX_U32).value)
    else if |s| != 14 then Invalid
    else
      match ParseSlices(s, WIDTHS)
      case BadNumber => Invalid
      case BadBoundary => Panics
      case Numbers(ns) => TimeOf(ns)
  }

  function TimeOf(ns: seq<U32>): Parsed
    requires |ns| == 6
  {
    match DaysFromDate(ns[0], ns[1], ns[2])
    case None => Panics
    case Some(days) =>
      var t := days as int * DAY + ns[3] as int * 3600 + ns[4] as int * 60 + ns[5];
      if t > MAX_U32 then Panics else Time(t)
  }

  // ---- Digits of a field ---------------------------------------------------

  function Pow10(w: nat): nat { if w == 0 then 1 else 10 * Pow10(w - 1) }

  lemma {:induction false} ValueBound(s: Text)
    requires AllDigits(s)
    ensures Value(s) < Pow10(|s|)
  {
    if s != [] { ValueBound(s[..|s| - 1]); }
  }

  lemma {:induction false} DigitsLength(n: nat, w: nat)
    requires w > 0 && n < Pow10(w)
    ensures |Digits(n)| <= w
  {
    if n >= 10 { DigitsLength(n / 10, w - 1); }
  }

  lemma {:induction false} LeadingZeros(k: nat, s: Text)
    requires AllDigits(s)
    ensures AllDigits(seq(k, _ => 48) + s) && Value(seq(k, _ => 48) + s) == Value(s)
  {
    var zeros: Text := seq(k, _ => 48);
    if s != [] {
      LeadingZeros(k, s[..|s| - 1]);
      assert (zeros + s)[..k + |s| - 1] == zeros + s[..|s| - 1];
    } else if k > 0 {
      LeadingZeros(k - 1, []);
      assert (zeros + [])[..k - 1] == seq(k - 1, _ => 48) + [];
    }
  }

  lemma {:induction false} SameValue(a: Text, b: Text)
    requires AllDigits(a) && AllDigits(b) && |a| == |b| && Value(a) == Value(b)
    ensures a == b
  {
    if a != [] {
      SameValue(a[..|a| - 1], b[..|b| - 1]);
      assert a == a[..|a| - 1] + [a[|a| - 1]] && b == b[..|b| - 1] + [b[|b| - 1]];
    }
  }

  lemma PaddedField(n: nat, w: nat)
    requires w > 0 && n < Pow10(w)
    ensures |Padded(n, w)| == w && AllDigits(Padded(n, w)) && Value(Padded(n, w)) == n
  {
    hide Value, Digits, Pow10;
    DigitsLength(n, w);
    ValueOfDigits(n);
    LeadingZeros(w - |Digits(n)|, Digits(n));
    assert seq(0, _ => 48) + Digits(n) == Digits(n);
  }

  /** A run of digits is the padded text of its value and no other number's. */
  lemma FieldText(s: Text, n: nat)
    requires s != [] && n < Pow10(|s|)
    ensures Padded(n, |s|) == s <==> AllDigits(s) && Value(s) == n
  {
    PaddedField(n, |s|);
    if AllDigits(s) && Value(s) == n { SameValue(s, Padded(n, |s|)); }
  }

  // ---- Parsing and formatting agree ----------------------------------------

  /** One slice of digits, with digits after it. */
  lemma DigitSlices(field: Text, rest: Text, w: nat, ws: seq<nat>)
    requires |field| == w > 0 && AllDigits(field) && (rest == [] || !Continuation(rest[0]))
    ensures ParseSlices(field + rest, [w] + ws) ==
            if Value(field) > MAX_U32 then BadNumber
            else match ParseSlices(rest, ws)
                 case Numbers(ns) => Numbers([Value(field)] + ns)
                 case bad => bad
  {
    hide Value;
    var s := field + rest;
    assert s[..w] == field && s[w..] == rest && ([w] + ws)[1..] == ws;
    if rest != [] { assert s[w] == rest[0]; }
    assert IsDigit(field[0]);
  }

  /** Every number fits its field. */
  predicate Sized(ns: seq<nat>, widths: seq<nat>) {
    |ns| == |widths| && forall i :: 0 <= i < |ns| ==> 0 < widths[i] && ns[i] < Pow10(widths[i]) && ns[i] <= MAX_U32
  }

  function Total(widths: seq<nat>): nat {
    if widths == [] then 0 else widths[0] + Total(widths[1..])
  }

  /** Text of the right length is a list of numbers in their fields exactly when it is all digits and slices into them. */
  lemma {:induction false} JoinedIff(ns: seq<nat>, widths: seq<nat>, s: Text)
    requires Sized(ns, widths) && |s| == Total(widths)
    ensures Joined(ns, widths) == s <==> AllDigits(s) && ParseSlices(s, widths) == Numbers(ns)
    decreases ns
  {
    hide Padded, Value, Parse, Pow10;
    if ns == [] {
      assert s == [];
    } else {
      var w := widths[0];
      var field, rest := s[..w], s[w..];
      assert s == field + rest && widths == [w] + widths[1..] && ns == [ns[0]] + ns[1..];
      JoinedIff(ns[1..], widths[1..], rest);
      PaddedField(ns[0], w);
      FieldText(field, ns[0]);
      SplitDigits(field, rest);
      if Joined(ns, widths) == s {
        SamePrefix(Padded(ns[0], w), Joined(ns[1..], widths[1..]), field, rest);
      }
      if AllDigits(s) {
        ValueBound(field);
        assert rest != [] ==> IsDigit(rest[0]);
        DigitSlices(field, rest, w, widths[1..]);
      }
    }
  }

  lemma SplitDigits(a: Text, b: Text)
    ensures AllDigits(a + b) <==> AllDigits(a) && AllDigits(b)
  {
    if AllDigits(a + b) {
      assert forall i :: 0 <= i < |a| ==> (a + b)[i] == a[i];
      assert forall i :: 0 <= i < |b| ==> (a + b)[|a| + i] == b[i];
    }
  }

  /** On a valid date the checked computation is the day number, or fails before 1970. */
  lemma DaysFromValidDate(date: Date)
    requires Valid(date) && 0 <= date.year < 10000
    ensures DaysFromDate(date.year, date.month, date.day) ==
            if DaysFromCivil(date) >= 0 then Some(DaysFromCivil(date)) else None
  {
    assert 1 <= date.day <= 31;
    hide DaysInMonth, IsLeap, YearStart;
    YearOfDay(date);
    var y := if date.month <= 2 then date.year - 1 else date.year;
    if y >= 0 {
      assert y - y / 400 * 400 == y % 400;
    }
  }

  // ---- Main results --------------------------------------------------------

  /** Real dates and times of day. */
  predicate Proper(f: Fields) {
    Valid(f.Date()) && f.hour < 24 && f.minute < 60 && f.second < 60
  }

  function FieldsFrom(ns: seq<nat>): Fields
    requires |ns| == 6
  {
    Fields(ns[0], ns[1], ns[2], ns[3], ns[4], ns[5])
  }

  lemma ProperIsSized(f: Fields)
    requires Proper(f) && f.year < 10000
    ensures Sized(f.List(), WIDTHS)
  {
    assert Pow10(2) == 100 && Pow10(4) == 10000;
    hide Pow10, IsLeap;
    assert f.month < 100 && f.day < 100;
  }

  lemma {:induction false} JoinedLength(ns: seq<nat>, widths: seq<nat>)
    requires Sized(ns, widths)
    ensures |Joined(ns, widths)| == Total(widths)
    decreases ns
  {
    hide Padded, Pow10;
    if ns != [] {
      PaddedField(ns[0], widths[0]);
      JoinedLength(ns[1..], widths[1..]);
    }
  }

  /** The fields of a 32-bit time are a real date from 1970 on and a time of day, and determine it. */
  lemma FieldsOfTime(ts: U32)
    ensures var f := FieldsOf(ts);
            Proper(f) && 1970 <= f.year < 10000
            && DaysFromCivil(f.Date()) >= 0 && DaysFromCivil(f.Date()) * DAY + f.Seconds() == ts
  {
    hide DateFromDays, DaysToCivil, DaysFromCivil, Valid;
    var days := ts / DAY;
    ConversionsAgree(days);
    DaysRoundTrip(days);
    YearOfDay(DateFromDays(days));
    YearBelow(days);
  }

  lemma YearBelow(days: U32)
    requires days <= MAX_U32 / DAY
    ensures DateFromDays(days).year < 10000
  {
    hide YearOfEra, DayOfYear;
  }

  /** Conversely, real fields are those of their time. */
  lemma TimeOfFields(f: Fields)
    requires Proper(f) && f.year < 10000
    ensures TimeOf(f.List()) ==
            var days := DaysFromCivil(f.Date());
            if days < 0 || days * DAY + f.Seconds() > MAX_U32 then Panics else Time(days * DAY + f.Seconds())
    ensures TimeOf(f.List()).Time? ==> FieldsOf(TimeOf(f.List()).t) == f
  {
    hide DaysFromDate, DaysInMonth, DateFromDays, DaysFromCivil, DaysToCivil;
    DaysFromValidDate(f.Date());
    var days := DaysFromCivil(f.Date());
    if days >= 0 && days * DAY + f.Seconds() <= MAX_U32 {
      DateRoundTrip(f.Date());
      ConversionsAgree(days);
      SecondsSplit(days, f.hour, f.minute, f.second);
    }
  }

  lemma SecondsSplit(days: nat, h: nat, m: nat, s: nat)
    requires h < 24 && m < 60 && s < 60
    ensures var t := days * DAY + (h * 3600 + m * 60 + s);
            t / DAY == days && t % DAY / 3600 == h && t % DAY % 3600 / 60 == m && t % DAY % 60 == s
  {
    var r := h * 3600 + m * 60 + s;
    Quotient(days * DAY + r, DAY, days);
    assert r < DAY;
    Remainder(days * DAY + r, DAY, days, r);
    Quotient(r, 3600, h);
    Remainder(r, 3600, h, m * 60 + s);
    Remainder(r, 60, h * 60 + m, s);
  }

  /** Every 32-bit time prints as fourteen digits, which parse back to it. */
  lemma TimestampRoundTrip(ts: U32)
    ensures |FormatTimestamp(ts)| == 14 && AllDigits(FormatTimestamp(ts))
    ensures ParseTimestamp(FormatTimestamp(ts)) == Time(ts)
  {
    hide FieldsOf, DaysFromCivil, Proper, Joined, ParseSlices, Parse, TimeOf, AllDigits;
    var f := FieldsOf(ts);
    FieldsOfTime(ts);
    ProperIsSized(f);
    JoinedLength(f.List(), WIDTHS);
    JoinedIff(f.List(), WIDTHS, FormatTimestamp(ts));
    TimeOfFields(f);
    assert TimeOf(f.List()) == Time(ts);
  }

  /** An accepted fourteen-character time prints back as it was written exactly when it is all digits and names
      a real date and time of day. */
  lemma FormatOfParsed(s: Text)
    requires |s| == 14 && ParseTimestamp(s).Time?
    ensures FormatTimestamp(ParseTimestamp(s).t) == s <==>
            AllDigits(s) && Proper(FieldsFrom(ParseSlices(s, WIDTHS).ns))
  {
    hide FieldsOf, DaysFromCivil, Proper, Joined, ParseSlices, Parse, TimeOf, AllDigits;
    var t := ParseTimestamp(s).t;
    var ns := ParseSlices(s, WIDTHS).ns;
    var f, g := FieldsOf(t), FieldsFrom(ns);
    assert g.List() == ns;
    FieldsOfTime(t);
    ProperIsSized(f);
    JoinedIff(f.List(), WIDTHS, s);
    if AllDigits(s) && Proper(g) {
      FourDigitYear(s);
      TimeOfFields(g);
    }
  }

  lemma FourDigitYear(s: Text)
    requires |s| == 14 && AllDigits(s) && ParseSlices(s, WIDTHS).Numbers?
    ensures ParseSlices(s, WIDTHS).ns[0] < 10000
  {
    ValueBound(s[..4]);
    assert Pow10(4) == 10000;
    assert IsDigit(s[..4][0]);
    hide Value, Pow10;
  }

  /** Accepted and rewritten: 30 February becomes 2 March, and month 13 the next January. */
  lemma ImproperDatesRewritten()
    ensures ParseTimestamp(TextOf(Fields(1970, 2, 30, 0, 0, 0))) == Time(60 * DAY)
    ensures FormatTimestamp(60 * DAY) == TextOf(Fields(1970, 3, 2, 0, 0, 0))
    ensures ParseTimestamp(TextOf(Fields(1970, 13, 1, 0, 0, 0))) == Time(365 * DAY)
    ensures FormatTimestamp(365 * DAY) == TextOf(Fields(1971, 1, 1, 0, 0, 0))
  {
    hide TextOf, ParseTimestamp, FieldsOf, TimeOf, DaysFromCivil;
    FirstDates();
    FirstFields();
    DateParses(1970, 2, 30);
    DateParses(1970, 13, 1);
  }

  /** Midnight of a date that is not before 1970 or too late. */
  lemma DateParses(year: nat, month: nat, day: nat)
    requires year < 10000 && month < 100 && day < 100 && 0 <= DaysFromCivil(Calendar.Date(year, month, day)) <= MAX_U32 / DAY
    requires month != 3 || day != 0
    ensures ParseTimestamp(TextOf(Fields(year, month, day, 0, 0, 0))) ==
            Time(DaysFromCivil(Calendar.Date(year, month, day)) * DAY)
  {
    hide TextOf, ParseTimestamp, TimeOf, DaysFromCivil;
    DigitsParse(Fields(year, month, day, 0, 0, 0));
    TimeOfNumbers(Fields(year, month, day, 0, 0, 0));
  }

  lemma FirstFields()
    ensures FieldsOf(60 * DAY) == Fields(1970, 3, 2, 0, 0, 0) && FieldsOf(365 * DAY) == Fields(1971, 1, 1, 0, 0, 0)
  {
    hide DateFromDays, DaysFromCivil;
    FirstDates();
  }

  lemma FirstDates()
    ensures DateFromDays(60) == Calendar.Date(1970, 3, 2) && DateFromDays(365) == Calendar.Date(1971, 1, 1)
    ensures DateFromDays(0) == Calendar.Date(1970, 1, 1)
    ensures DaysFromCivil(Calendar.Date(1970, 2, 30)) == 60 && DaysFromCivil(Calendar.Date(1970, 13, 1)) == 365
    ensures DaysFromCivil(Calendar.Date(1970, 1, 1)) == 0
  {
    hide DateFromDays, DaysToCivil;
    assert DaysFromCivil(Calendar.Date(1970, 3, 2)) == 60 && DaysFromCivil(Calendar.Date(1971, 1, 1)) == 365;
    assert DaysFromCivil(Calendar.Date(1970, 1, 1)) == 0;
    DateRoundTrip(Calendar.Date(1970, 3, 2));
    DateRoundTrip(Calendar.Date(1971, 1, 1));
    DateRoundTrip(Calendar.Date(1970, 1, 1));
    ConversionsAgree(60);
    ConversionsAgree(365);
    ConversionsAgree(0);
  }

  /** Accepted and rewritten: a plus sign in the last field becomes a zero. */
  lemma PlusSignRewritten()
    ensures ParseTimestamp(Joined([1970, 1, 1, 0, 0], [4, 2, 2, 2, 2]) + Ascii("+0")) == Time(0)
    ensures FormatTimestamp(0) == TextOf(Fields(1970, 1, 1, 0, 0, 0))
  {
    hide TextOf, Joined, ParseSlices, Parse, DateFromDays, DaysFromCivil, Ascii, TimeOf, Sized;
    PlusSlices();
    FirstDates();
    TimeOfNumbers(Fields(1970, 1, 1, 0, 0, 0));
  }

  lemma PlusSlices()
    ensures var s := Joined([1970, 1, 1, 0, 0], [4, 2, 2, 2, 2]) + Ascii("+0");
            |s| == 14 && ParseSlices(s, WIDTHS) == Numbers(Fields(1970, 1, 1, 0, 0, 0).List())
  {
    hide Joined, ParseSlices, Parse, Ascii, Sized;
    var ns, ws := [1970, 1, 1, 0, 0], [4, 2, 2, 2, 2];
    PlusZero();
    FirstFieldsSized();
    JoinedThen(ns, ws, Ascii("+0"));
    JoinedLength(ns, ws);
    assert Total(ws) == 12;
    assert ws + [2] == WIDTHS && ns + [0] == Fields(1970, 1, 1, 0, 0, 0).List();
  }

  lemma PlusZero()
    ensures Parse(Ascii("+0"), MAX_U32) == Some(0) && |Ascii("+0")| == 2 && Ascii("+0")[0] == PLUS
  {
    var digits := Ascii("+0")[1..];
    assert digits == [48] && digits[..0] == [];
  }

  lemma FirstFieldsSized()
    ensures Sized([1970, 1, 1, 0, 0], [4, 2, 2, 2, 2])
  {
    assert Pow10(2) == 100 && Pow10(4) == 10000;
    hide Pow10;
  }

  /** Padded numbers and one more field. */
  lemma {:induction false} JoinedThen(ns: seq<nat>, widths: seq<nat>, last: Text)
    requires Sized(ns, widths) && |last| > 0 && last[0] < 0x80 && Parse(last, MAX_U32).Some?
    ensures ParseSlices(Joined(ns, widths) + last, widths + [|last|]) == Numbers(ns + [Parse(last, MAX_U32).value])
    decreases ns
  {
    hide Padded, Parse, Pow10;
    if ns == [] {
      assert [] + last == last && last[..|last|] == last && last[|last|..] == [];
      assert (widths + [|last|])[1..] == [];
    } else {
      var w := widths[0];
      var rest := Joined(ns[1..], widths[1..]) + last;
      JoinedThen(ns[1..], widths[1..], last);
      PaddedField(ns[0], w);
      JoinedStarts(ns[1..], widths[1..], last);
      assert Joined(ns, widths) + last == Padded(ns[0], w) + rest;
      assert widths + [|last|] == [w] + (widths[1..] + [|last|]);
      assert ns + [Parse(last, MAX_U32).value] == [ns[0]] + (ns[1..] + [Parse(last, MAX_U32).value]);
      DigitSlices(Padded(ns[0], w), rest, w, widths[1..] + [|last|]);
    }
  }

  lemma JoinedStarts(ns: seq<nat>, widths: seq<nat>, last: Text)
    requires Sized(ns, widths) && |last| > 0 && last[0] < 0x80
    ensures (Joined(ns, widths) + last)[0] < 0x80
  {
    if ns != [] {
      PaddedField(ns[0], widths[0]);
      assert IsDigit(Padded(ns[0], widths[0])[0]);
    }
  }

  /** Numbers that fit the fields of a time. */
  predicate Narrow(f: Fields) {
    f.year < 10000 && f.month < 100 && f.day < 100 && f.hour < 100 && f.minute < 100 && f.second < 100
  }

  lemma NarrowIsSized(f: Fields)
    ensures Sized(f.List(), WIDTHS) <==> Narrow(f)
  {
    assert Pow10(2) == 100 && Pow10(4) == 10000;
    hide Pow10;
    var ns := f.List();
    assert ns[0] == f.year && ns[1] == f.month && ns[2] == f.day && ns[3] == f.hour && ns[4] == f.minute && ns[5] == f.second;
  }

  lemma DigitsParse(f: Fields)
    requires Narrow(f)
    ensures ParseTimestamp(TextOf(f)) == TimeOf(f.List())
  {
    hide Joined, ParseSlices, Parse, TimeOf;
    NarrowIsSized(f);
    JoinedLength(f.List(), WIDTHS);
    JoinedIff(f.List(), WIDTHS, Joined(f.List(), WIDTHS));
  }

  // ---- Panics --------------------------------------------------------------

  /** Where a time is cut into its fields. */
  const CUTS: seq<nat> := [0, 4, 6, 8, 10, 12, 14]

  /** Is the j-th field, counted from one, a number? */
  predicate FieldParses(s: Text, j: nat)
    requires |s| == 14 && 1 <= j <= 6
  {
    Parse(s[CUTS[j - 1]..CUTS[j]], MAX_U32).Some?
  }

  /** Is the cut after field `k` inside a character, and everything between field `i` and field `k` a number? */
  predicate CutInside(s: Text, i: nat, k: nat)
    requires |s| == 14 && i < k <= 5
  {
    Continuation(s[CUTS[k]]) && forall j :: i < j < k ==> FieldParses(s, j)
  }

  lemma {:induction false} BreaksFrom(s: Text, i: nat)
    requires |s| == 14 && i <= 6
    ensures ParseSlices(s[CUTS[i]..], WIDTHS[i..]).BadBoundary? <==> exists k :: i < k <= 5 && CutInside(s, i, k)
    decreases 6 - i
  {
    hide Parse, CutInside;
    if i < 6 {
      var t, w := s[CUTS[i]..], WIDTHS[i];
      assert t[w..] == s[CUTS[i + 1]..] && WIDTHS[i..][1..] == WIDTHS[i + 1..] && t[..w] == s[CUTS[i]..CUTS[i + 1]];
      BreaksFrom(s, i + 1);
      if i < 5 {
        CutNext(s, i);
        assert t[w] == s[CUTS[i + 1]];
        if Continuation(t[w]) {
          assert CutInside(s, i, i + 1);
        } else if FieldParses(s, i + 1) && ParseSlices(t[w..], WIDTHS[i + 1..]).BadBoundary? {
          var k :| i + 1 < k <= 5 && CutInside(s, i + 1, k);
          assert CutInside(s, i, k);
        }
      }
    }
  }

  lemma CutNext(s: Text, i: nat)
    requires |s| == 14 && i < 5
    ensures CutInside(s, i, i + 1) <==> Continuation(s[CUTS[i + 1]])
    ensures forall k :: i + 1 < k <= 5 ==> (CutInside(s, i, k) <==> FieldParses(s, i + 1) && CutInside(s, i + 1, k))
  {
    hide FieldParses;
  }

  /** A text of `w` characters holds no number of more than `w` digits. */
  lemma ParsedBound(s: Text)
    requires Parse(s, MAX_U32).Some?
    ensures Parse(s, MAX_U32).value < Pow10(|s|)
  {
    hide Value, Pow10;
    if |s| > 1 && s[0] == PLUS {
      ValueBound(s[1..]);
      PowGrows(|s| - 1);
    } else {
      ValueBound(s);
    }
  }

  lemma PowGrows(w: nat)
    ensures Pow10(w) <= Pow10(w + 1)
  {}

  lemma {:induction false} SlicesAreSized(s: Text, widths: seq<nat>)
    requires ParseSlices(s, widths).Numbers? && forall i :: 0 <= i < |widths| ==> widths[i] > 0
    ensures Sized(ParseSlices(s, widths).ns, widths)
    decreases widths
  {
    hide Parse, Pow10;
    if widths != [] {
      ParsedBound(s[..widths[0]]);
      SlicesAreSized(s[widths[0]..], widths[1..]);
    }
  }

  lemma NumbersAreNarrow(s: Text)
    requires ParseSlices(s, WIDTHS).Numbers?
    ensures Narrow(FieldsFrom(ParseSlices(s, WIDTHS).ns))
  {
    hide ParseSlices, Sized;
    var ns := ParseSlices(s, WIDTHS).ns;
    SlicesAreSized(s, WIDTHS);
    assert FieldsFrom(ns).List() == ns;
    NarrowIsSized(FieldsFrom(ns));
  }

  /** The arithmetic on fields overflows exactly on day 0 of March, before 1970 and after the last 32-bit time. */
  lemma TimeOfNumbers(f: Fields)
    requires Narrow(f)
    ensures TimeOf(f.List()) ==
            var t := DaysFromCivil(f.Date()) * DAY + f.Seconds();
            if (f.month == 3 && f.day == 0) || DaysFromCivil(f.Date()) < 0 || t > MAX_U32 then Panics else Time(t)
  {
    hide YearStart;
    DaysOfNumbers(f.year, f.month, f.day);
    hide DaysFromDate, DaysFromCivil;
  }

  lemma DaysOfNumbers(year: U32, month: U32, day: U32)
    requires year < 10000 && month < 100 && day < 100
    ensures DaysFromDate(year, month, day) ==
            var days := DaysFromCivil(Calendar.Date(year, month, day));
            if (month == 3 && day == 0) || days < 0 then None else Some(days)
  {
    var y := if month <= 2 then year - 1 else year;
    if y >= 0 { assert y - y / 400 * 400 == y % 400; }
  }

  /** Exactly which fourteen-character texts make the parser panic: a cut between fields falls inside a character, after
      nothing but numbers, or all fields are numbers and the arithmetic overflows. */
  lemma PanicsIff(s: Text)
    requires |s| == 14
    ensures ParseTimestamp(s) == Panics <==>
            (exists k :: 0 < k <= 5 && CutInside(s, 0, k))
            || (ParseSlices(s, WIDTHS).Numbers?
                && var f := FieldsFrom(ParseSlices(s, WIDTHS).ns);
                   (f.month == 3 && f.day == 0) || DaysFromCivil(f.Date()) < 0
                   || DaysFromCivil(f.Date()) * DAY + f.Seconds() > MAX_U32)
  {
    hide ParseSlices, TimeOf, DaysFromCivil, CutInside;
    BreaksFrom(s, 0);
    assert s[0..] == s && WIDTHS[0..] == WIDTHS;
    if ParseSlices(s, WIDTHS).Numbers? {
      NumbersAreNarrow(s);
      assert FieldsFrom(ParseSlices(s, WIDTHS).ns).List() == ParseSlices(s, WIDTHS).ns;
      TimeOfNumbers(FieldsFrom(ParseSlices(s, WIDTHS).ns));
    }
  }

  /** Text of any other length is a number or nothing: a 32-bit number as it prints is the time itself. */
  lemma RawNumberParses(n: nat)
    ensures n <= MAX_U32 ==> ParseTimestamp(Digits(n)) == Time(n)
    ensures n > MAX_U32 && |Digits(n)| != 14 ==> ParseTimestamp(Digits(n)) == Invalid
  {
    ParsePrinted(n, MAX_U32);
    assert Pow10(10) == 10000000000;
    if n <= MAX_U32 { DigitsLength(n, 10); }
    hide Digits, Parse, Pow10, ParseSlices;
  }

  lemma OtherLengthsAreNumbers(s: Text)
    requires |s| != 14
    ensures ParseTimestamp(s) == match Parse(s, MAX_U32) case Some(n) => Time(n) case None => Invalid
  {}

  /** YYYYMMDDHHmmSS: which digits say what. */
  lemma TextInOrder(f: Fields)
    ensures TextOf(f) == Padded(f.year, 4) + Padded(f.month, 2) + Padded(f.day, 2) + Padded(f.hour, 2) + Padded(f.minute, 2)
                         + Padded(f.second, 2)
  {
    hide Padded;
    var ns := f.List();
    assert ns[1..] == [f.month, f.day, f.hour, f.minute, f.second] && WIDTHS[1..] == [2, 2, 2, 2, 2];
    LastFields(f);
    assert Joined(ns, WIDTHS) == Padded(f.year, 4) + Joined(ns[1..], WIDTHS[1..]);
  }

  lemma LastFields(f: Fields)
    ensures Joined([f.month, f.day, f.hour, f.minute, f.second], [2, 2, 2, 2, 2])
            == Padded(f.month, 2) + (Padded(f.day, 2) + (Padded(f.hour, 2) + (Padded(f.minute, 2) + Padded(f.second, 2))))
  {
    hide Padded;
    TwoMore(f.month, f.day, [f.hour, f.minute, f.second], [2, 2, 2]);
    TwoMore(f.hour, f.minute, [f.second], [2]);
    assert Joined([f.second], [2]) == Padded(f.second, 2) + Joined([], []);
  }

  lemma TwoMore(a: nat, b: nat, ns: seq<nat>, ws: seq<nat>)
    requires |ns| == |ws|
    ensures Joined([a, b] + ns, [2, 2] + ws) == Padded(a, 2) + (Padded(b, 2) + Joined(ns, ws))
  {
    hide Padded;
    assert ([a, b] + ns)[1..] == [b] + ns && ([2, 2] + ws)[1..] == [2] + ws && ([b] + ns)[1..] == ns && ([2] + ws)[1..] == ws;
  }
}
