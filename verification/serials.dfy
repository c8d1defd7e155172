/** Choosing a zone's next serial (RFC 1982 sequence-space arithmetic). */
module Serials {
  import opened Bytes
  import opened Calendar

  const WORD := 0x1_0000_0000
  const DAY := 86400

  datatype Strategy = DateCounter | UnixTimestamp | Monotonic

  /** Is `a` after `b` in sequence space? */
  predicate Greater(a: U32, b: U32) {
    a != b && (a - b) % WORD < WORD / 2
  }

  function Plus(a: U32, n: U32): U32 { (a + n) % WORD }

  /** YYYYMMDD. */
  function DayPrefix(days: nat): int {
    var date := DaysToCivil(days);
    date.year * 10000 + date.month * 100 + date.day
  }

  /** YYYYMMDD00, in wrapping 32-bit arithmetic. */
  function DayBase(days: nat): U32 { DayPrefix(days) * 100 % WORD }

  function DateCounterSerial(current: U32, now: nat): U32 {
    var base := DayBase(now / DAY);
    if base <= current < (base + 100) % WORD then
      if current - base >= 99 then Plus(current, 1) else base + (current - base) + 1
    else if Greater(base, current) then base
    else Plus(current, 1)
  }

  /** `SerialStrategy::next`, with the clock as a parameter. */
  function NextSerial(strategy: Strategy, current: U32, now: nat): U32 {
    match strategy
    case Monotonic => Plus(current, 1)
    case UnixTimestamp => if Greater(now % WORD, current) then now % WORD else Plus(current, 1)
    case DateCounter => DateCounterSerial(current, now)
  }

  /** Whatever the clock says, the next serial is after the current one. */
  lemma NextIsGreater(strategy: Strategy, current: U32, now: nat)
    ensures Greater(NextSerial(strategy, current, now), current)
  {
    hide DayBase;
    assert Greater(Plus(current, 1), current);
  }

  /** The first change of a day starts at YYYYMMDD00, if a serial can hold that and it is an advance, and the next 98
      count up within the day. Serials hold the dates up to the year 4294. */
  lemma DateSerials(current: U32, now: nat)
    ensures var prefix := DayPrefix(now / DAY);
            var next := DateCounterSerial(current, now);
            (current / 100 == prefix && current % 100 < 99 ==> next == current + 1 && next / 100 == prefix)
            && (current / 100 != prefix && prefix * 100 < WORD && Greater(prefix * 100, current) ==> next == prefix * 100)
    ensures DayPrefix(now / DAY) * 100 < WORD <==> DaysToCivil(now / DAY).year <= 4294
  {
    hide DayPrefix, DaysToCivil, Greater;
    DayPrefixFits(now / DAY);
    var prefix := DayPrefix(now / DAY);
    if prefix * 100 < WORD { assert DayBase(now / DAY) == prefix * 100; }
    hide DayBase;
  }

  lemma DayPrefixFits(days: nat)
    ensures DayPrefix(days) > 0
    ensures if DaysToCivil(days).year <= 4294 then DayPrefix(days) * 100 + 100 < WORD else DayPrefix(days) * 100 >= WORD
  {
    hide DaysToCivil, DaysFromCivil;
    var date := DaysToCivil(days);
    DaysRoundTrip(days);
    YearOfDay(date);
    assert date.day <= 31;
    hide DaysInMonth;
  }

  /** A clock serial is the clock exactly when the clock has moved on in sequence space, and otherwise the next number; the
      monotonic strategy always takes the next number. */
  lemma ClockWhenAhead(current: U32, now: nat)
    ensures var next := NextSerial(UnixTimestamp, current, now);
            if Greater(now % WORD, current) then next == now % WORD else next == (current + 1) % WORD
    ensures NextSerial(UnixTimestamp, current, now) == now % WORD <==>
            Greater(now % WORD, current) || now % WORD == (current + 1) % WORD
    ensures NextSerial(Monotonic, current, now) == (current + 1) % WORD
  {}
}
