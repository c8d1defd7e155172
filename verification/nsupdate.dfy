/** The sender's view of a message: a walk by header counts that finds the TSIG record, cuts it off,
    and checks it. */
module NsUpdate {
  import opened Bytes
  import opened Domain
  import opened Records
  import opened Update
  import opened Tsig
  import opened Builder

  datatype NetError = Truncated | BadTsig | Rejected(code: U16) | VerificationFailed | NoTsig

  // ---- The walk ------------------------------------------------------------

  /** Position after the name at `pos`; a compression pointer ends a name. */
  function SkipName(w: seq<Byte>, pos: nat): Result<nat, NetError>
    decreases |w| - pos
  {
    if pos >= |w| then Err(Truncated)
    else if w[pos] == 0 then Ok(pos + 1)
    else if w[pos] >= 0xC0 then Ok(pos + 2)
    else SkipName(w, pos + 1 + w[pos] as int)
  }

  function SkipQuestion(w: seq<Byte>, pos: nat): Result<nat, NetError> {
    match SkipName(w, pos)
    case Err(e) => Err(e)
    case Ok(p) => if p + 4 > |w| then Err(Truncated) else Ok(p + 4)
  }

  function SkipRR(w: seq<Byte>, pos: nat): Result<nat, NetError> {
    match SkipName(w, pos)
    case Err(e) => Err(e)
    case Ok(p) =>
      if p + 10 > |w| || p + 10 + U16At(w, p + 8) as int > |w| then Err(Truncated)
      else Ok(p + 10 + U16At(w, p + 8) as int)
  }

  function SkipQuestions(w: seq<Byte>, pos: nat, count: nat): Result<nat, NetError>
    decreases count
  {
    if count == 0 then Ok(pos)
    else
      match SkipQuestion(w, pos)
      case Err(e) => Err(e)
      case Ok(p) => SkipQuestions(w, p, count - 1)
  }

  function SkipRRs(w: seq<Byte>, pos: nat, count: nat): Result<nat, NetError>
    decreases count
  {
    if count == 0 then Ok(pos)
    else
      match SkipRR(w, pos)
      case Err(e) => Err(e)
      case Ok(p) => SkipRRs(w, p, count - 1)
  }

  datatype Last = Last(start: Option<nat>, rtype: U16)

  /** Type of the record at `pos`. */
  function RRType(w: seq<Byte>, pos: nat): U16 {
    match SkipName(w, pos)
    case Err(_) => 0
    case Ok(p) => if p + 2 > |w| then 0 else U16At(w, p)
  }

  /** Start and type of the last of `count` records, or `last` if there are none. */
  function LastRR(w: seq<Byte>, pos: nat, count: nat, last: Last): Result<Last, NetError>
    decreases count
  {
    if count == 0 then Ok(last)
    else
      match SkipRR(w, pos)
      case Err(e) => Err(e)
      case Ok(p) => LastRR(w, p, count - 1, Last(Some(pos), RRType(w, pos)))
  }

  function FindTsig(w: seq<Byte>): Result<Option<nat>, NetError> {
    if |w| < 12 || Arcount(w) == 0 then Ok(None)
    else
      match SkipQuestions(w, 12, U16At(w, 4))
      case Err(e) => Err(e)
      case Ok(p) =>
        match SkipRRs(w, p, U16At(w, 6) as int + U16At(w, 8) as int)
        case Err(e) => Err(e)
        case Ok(q) =>
          match LastRR(w, q, Arcount(w), Last(None, 0))
          case Err(e) => Err(e)
          case Ok(last) => Ok(if last.rtype == TSIG_TYPE then last.start else None)
  }

  method SkipWireName(w: seq<Byte>, start: nat) returns (r: Result<(), NetError>, pos: nat)
    ensures r.Ok? <==> SkipName(w, start).Ok?
    ensures r.Ok? ==> pos == SkipName(w, start).value
    ensures r.Err? ==> r.error == Truncated
  {
    pos := start;
    while true
      invariant SkipName(w, start) == SkipName(w, pos)
      decreases |w| - pos
    {
      if pos >= |w| {
        return Err(Truncated), pos;
      }
      var len := w[pos] as int;
      if len == 0 {
        pos := pos + 1;
        break;
      }
      if len >= 0xC0 {
        pos := pos + 2;
        break;
      }
      pos := pos + 1 + len;
    }
    r := Ok(());
  }

  method SkipSections(w: seq<Byte>, qdcount: nat, rrcount: nat) returns (r: Result<nat, NetError>)
    requires |w| >= 12
    ensures var questions := SkipQuestions(w, 12, qdcount);
            if questions.Err? then r.Err?
            else
              (r.Ok? <==> SkipRRs(w, questions.value, rrcount).Ok?)
              && (r.Ok? ==> r == SkipRRs(w, questions.value, rrcount))
  {
    hide SkipName, ReadBe16;
    var pos: nat := 12;
    for i := 0 to qdcount
      invariant SkipQuestions(w, 12, qdcount) == SkipQuestions(w, pos, qdcount - i)
    {
      var ok;
      ok, pos := SkipWireName(w, pos);
      if ok.Err? {
        return Err(Truncated);
      }
      pos := pos + 4;
      if pos > |w| {
        return Err(Truncated);
      }
    }
    ghost var p := pos;
    for i := 0 to rrcount
      invariant SkipRRs(w, p, rrcount) == SkipRRs(w, pos, rrcount - i)
    {
      var ok;
      ok, pos := SkipWireName(w, pos);
      if ok.Err? {
        return Err(Truncated);
      }
      if pos + 10 > |w| {
        return Err(Truncated);
      }
      pos := pos + 10 + U16At(w, pos + 8) as int;
      if pos > |w| {
        return Err(Truncated);
      }
    }
    r := Ok(pos);
  }

  method FindTsigInResponse(w: seq<Byte>) returns (r: Result<Option<nat>, NetError>)
    ensures FindTsig(w).Err? ==> r.Err?
    ensures FindTsig(w).Ok? ==> r == FindTsig(w)
  {
    hide ReadBe16, SkipQuestions, SkipRRs, LastRR;
    if |w| < 12 {
      return Ok(None);
    }
    var qdcount, ancount, nscount := U16At(w, 4) as int, U16At(w, 6) as int, U16At(w, 8) as int;
    var arcount := U16At(w, 10) as int;
    if arcount == 0 {
      return Ok(None);
    }
    var skipped := SkipSections(w, qdcount, ancount + nscount);
    if skipped.Err? {
      return Err(Truncated);
    }
    var last := ScanAdditional(w, skipped.value, arcount);
    if last.Err? {
      return Err(Truncated);
    }
    r := Ok(if last.value.rtype == TSIG_TYPE then last.value.start else None);
  }

  method ScanAdditional(w: seq<Byte>, first: nat, arcount: nat) returns (r: Result<Last, NetError>)
    ensures LastRR(w, first, arcount, Last(None, 0)).Err? ==> r.Err?
    ensures LastRR(w, first, arcount, Last(None, 0)).Ok? ==> r == LastRR(w, first, arcount, Last(None, 0))
  {
    hide ReadBe16, SkipName;
    var pos: nat := first;
    var last := Last(None, 0);
    for i := 0 to arcount
      invariant LastRR(w, first, arcount, Last(None, 0)) == LastRR(w, pos, arcount - i, last)
    {
      var start := pos;
      var ok;
      ok, pos := SkipWireName(w, pos);
      if ok.Err? || pos + 10 > |w| {
        return Err(Truncated);
      }
      var rtype := U16At(w, pos);
      pos := pos + 10 + U16At(w, pos + 8) as int;
      if pos > |w| {
        return Err(Truncated);
      }
      last := Last(Some(start), rtype);
    }
    r := Ok(last);
  }

  // ---- Checking a response -------------------------------------------------

  /** Cuts the message at `offset` and takes the cut record out of ARCOUNT. */
  function Strip(w: seq<Byte>, offset: nat): seq<Byte>
    requires offset <= |w|
  {
    var m := w[..offset];
    if |m| >= 12 && Arcount(m) > 0 then WithArcount(m, Arcount(m) - 1) else m
  }

  function Check(key: TsigKey, requestMac: seq<Byte>, w: seq<Byte>, now: U64): Result<(), NetError> {
    match FindTsig(w)
    case Err(_) => Err(Truncated)
    case Ok(None) => Err(NoTsig)
    case Ok(Some(offset)) =>
      if offset > |w| then Err(Truncated)
      else Judge(key, requestMac, Strip(w, offset), ParseTsig(w[offset..]), now)
  }

  /** What a found record means for the message it was cut from. */
  function Judge(key: TsigKey, requestMac: seq<Byte>, message: seq<Byte>, parsed: Result<TsigRecord, TsigError>, now: U64)
    : Result<(), NetError>
  {
    match parsed
    case Err(_) => Err(BadTsig)
    case Ok(rec) =>
      if rec.error != 0 then Err(Rejected(rec.error))
      else if Verifies(key, message, rec, requestMac, now) then Ok(())
      else Err(VerificationFailed)
  }

  lemma {:induction false} LastStartsInside(w: seq<Byte>, pos: nat, count: nat, last: Last)
    requires pos <= |w| && (last.start.Some? ==> last.start.value <= |w|)
    ensures var r := LastRR(w, pos, count, last);
            r.Ok? && r.value.start.Some? ==> r.value.start.value <= |w|
    decreases count
  {
    if count != 0 && SkipRR(w, pos).Ok? {
      LastStartsInside(w, SkipRR(w, pos).value, count - 1, Last(Some(pos), RRType(w, pos)));
    }
  }

  lemma {:induction false} SkipsStayInside(w: seq<Byte>, pos: nat, count: nat)
    requires pos <= |w|
    ensures SkipQuestions(w, pos, count).Ok? ==> SkipQuestions(w, pos, count).value <= |w|
    ensures SkipRRs(w, pos, count).Ok? ==> SkipRRs(w, pos, count).value <= |w|
    decreases count
  {
    if count != 0 {
      if SkipQuestion(w, pos).Ok? { SkipsStayInside(w, SkipQuestion(w, pos).value, count - 1); }
      if SkipRR(w, pos).Ok? { SkipsStayInside(w, SkipRR(w, pos).value, count - 1); }
    }
  }

  /** The offset found lies inside the message, whatever bytes were received. */
  lemma FoundInside(w: seq<Byte>)
    ensures FindTsig(w).Ok? && FindTsig(w).value.Some? ==> FindTsig(w).value.value <= |w|
  {
    if |w| >= 12 {
      SkipsStayInside(w, 12, U16At(w, 4));
      if SkipQuestions(w, 12, U16At(w, 4)).Ok? {
        var p := SkipQuestions(w, 12, U16At(w, 4)).value;
        SkipsStayInside(w, p, U16At(w, 6) as int + U16At(w, 8) as int);
        if SkipRRs(w, p, U16At(w, 6) as int + U16At(w, 8) as int).Ok? {
          LastStartsInside(w, SkipRRs(w, p, U16At(w, 6) as int + U16At(w, 8) as int).value, Arcount(w), Last(None, 0));
        }
      }
    }
  }

  method CheckResponse(key: TsigKey, requestMac: seq<Byte>, response: seq<Byte>, now: U64)
    returns (r: Result<(), NetError>)
    ensures r == Check(key, requestMac, response, now)
  {
    hide FindTsig, ParseTsig, Verifies, ReadBe16, Be16;
    var found := FindTsigInResponse(response);
    if found.Err? {
      return Err(Truncated);
    }
    if found.value.None? {
      return Err(NoTsig);
    }
    var offset := found.value.value;
    FoundInside(response);
    var rec := ParseFromWire(response[offset..]);
    if rec.Err? {
      return Err(BadTsig);
    }
    if rec.value.error != 0 {
      return Err(Rejected(rec.value.error));
    }
    var message := response[..offset];
    if |message| >= 12 {
      var arcount := Arcount(message);
      if arcount > 0 {
        message := message[..10] + Be16(arcount - 1) + message[12..];
      }
    }
    var verified := VerifyResponse(key, message, rec.value, requestMac, now);
    r := if verified.Ok? then Ok(()) else Err(VerificationFailed);
  }
}
