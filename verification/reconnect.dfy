/** One pooled job on a worker's own connection: serials, stale replies and the single retry. */
module Reconnect {
  import opened Bytes
  import opened Records
  import Decimal
  import Isc
  import IscAuth
  import Tsig

  const SERIALS := 0x1_0000_0000

  /** What happens to one command: it fails or times out before or after the request is written, or a reply to
      some request on the same connection is read. That reply carries the serial of the request it answers;
      `fields` are its other control fields, and it is genuine if its HMAC verifies and its type fits. */
  datatype Exchange = NotWritten | NoReply | Reply(to: nat, fields: Isc.Entries, genuine: bool)

  /** One use of a connection's serial counter. */
  datatype Use = Use(job: nat, now: Tsig.U64, exchange: Exchange)

  /** An authenticated connection: the serial and nonce of its handshake, and its uses since. */
  datatype Connection = Connection(start: U32, nonce: seq<Byte>, log: seq<Use>) {
    /** The serial of the k-th use, counted from one: the counter is incremented first, and wraps. */
    function Serial(k: nat): U32 { (start + k) % SERIALS }
  }

  datatype Handshake = Handshake(serial: U32, nonce: seq<Byte>)

  function Opened(h: Handshake): Connection { Connection(h.serial, h.nonce, []) }

  /** What the environment does in one attempt: a handshake or a failure to connect, a clock, then an exchange. */
  datatype Attempt = Attempt(connect: Option<Handshake>, now: Tsig.U64, exchange: Exchange)

  datatype Failure = Failed

  /** The job whose request a successful reply answers, or a failure. */
  type JobResult = Result<nat, Failure>

  /** What a job did: the connection it leaves behind, its result, requests written, connections made. */
  datatype Outcome = Outcome(connection: Option<Connection>, result: JobResult, requests: nat, connects: nat)

  function Used(c: Connection, job: nat, a: Attempt): Connection {
    c.(log := c.log + [Use(job, a.now, a.exchange)])
  }

  /** Control fields with a serial among them. */
  function WithSerial(fields: Isc.Entries, serial: U32): Isc.Entries {
    Isc.Insert(fields, IscAuth.SER, Isc.Str(Decimal.Digits(serial)))
  }

  /** What came of the k-th use: a reply is taken if it is genuine and its control fields pass as those of a
      reply to the request just made. */
  function Taken(c: Connection, k: nat): JobResult
    requires 1 <= k <= |c.log|
  {
    var x := c.log[k - 1].exchange;
    if x.Reply? && 1 <= x.to <= k && !c.log[x.to - 1].exchange.NotWritten? && x.genuine
       && IscAuth.CtrlOk(WithSerial(x.fields, c.Serial(x.to)), c.Serial(k), c.log[k - 1].now, Some(c.nonce))
    then Ok(c.log[x.to - 1].job)
    else Err(Failed)
  }

  function Answer(c: Connection): JobResult
    requires c.log != []
  {
    Taken(c, |c.log|)
  }

  /** A job from the state of its worker's connection: use it or connect; after one failure drop the connection
      and try once more on a new one; keep the connection after a second failure. */
  function Execute(c: Option<Connection>, job: nat, first: Attempt, second: Attempt): Outcome {
    if c.None? && first.connect.None? then Outcome(None, Err(Failed), 0, 0)
    else
      var made := if c.None? then 1 else 0;
      var c1 := Used(if c.Some? then c.value else Opened(first.connect.value), job, first);
      var sent := if first.exchange.NotWritten? then 0 else 1;
      if Answer(c1).Ok? then Outcome(Some(c1), Answer(c1), sent, made)
      else if second.connect.None? then Outcome(None, Err(Failed), sent, made)
      else
        var c2 := Used(Opened(second.connect.value), job, second);
        Outcome(Some(c2), Answer(c2), sent + if second.exchange.NotWritten? then 0 else 1, made + 1)
  }

  class Worker {
    var connection: Option<Connection>
    /** Connections made, a wrapping 64-bit counter. */
    var created: nat

    constructor ()
      ensures connection == None && created == 0
    {
      connection, created := None, 0;
    }

    /** `connect_authenticated`, given what the environment does. */
    method ConnectAuthenticated(connect: Option<Handshake>) returns (r: Result<Connection, Failure>)
      modifies this`created
      ensures connect.None? ==> r == Err(Failed) && created == old(created)
      ensures connect.Some? ==> r == Ok(Opened(connect.value)) && created == (old(created) + 1) % 0x1_0000_0000_0000_0000
    {
      if connect.None? {
        return Err(Failed);
      }
      created := (created + 1) % 0x1_0000_0000_0000_0000;
      r := Ok(Opened(connect.value));
    }

    method ExecuteWithReconnect(job: nat, attempts: seq<Attempt>) returns (result: JobResult, requests: nat)
      requires |attempts| == 2
      modifies this
      ensures var o := Execute(old(connection), job, attempts[0], attempts[1]);
              connection == o.connection && result == o.result && requests == o.requests
              && (created - old(created) - o.connects) % 0x1_0000_0000_0000_0000 == 0
    {
      hide Answer;
      requests := 0;
      for attempt := 0 to 2
        invariant attempt == 0 ==> connection == old(connection) && created == old(created) && requests == 0
        invariant attempt == 1 ==>
                    connection == None
                    && (old(connection).Some? || attempts[0].connect.Some?)
                    && (var c := if old(connection).Some? then old(connection).value
                                 else Opened(attempts[0].connect.value);
                        Answer(Used(c, job, attempts[0])).Err?)
                    && requests == (if attempts[0].exchange.NotWritten? then 0 else 1)
                    && (created - old(created) - (if old(connection).None? then 1 else 0)) % 0x1_0000_0000_0000_0000 == 0
        invariant attempt < 2
      {
        if connection.None? {
          var c := ConnectAuthenticated(attempts[attempt].connect);
          if c.Err? {
            return Err(Failed), requests;
          }
          connection := Some(c.value);
        }
        var x := attempts[attempt].exchange;
        connection := Some(Used(connection.value, job, attempts[attempt]));
        if !x.NotWritten? {
          requests := requests + 1;
        }
        result := Answer(connection.value);
        if result.Ok? {
          return;
        }
        if attempt == 1 {
          return;
        }
        connection := None;
      }
    }
  }

  // ---- What a job may do ---------------------------------------------------

  /** A job's command is written at most twice, on at most two new connections, and the second time only
      on a connection of its own. */
  lemma AtMostTwice(c: Option<Connection>, job: nat, first: Attempt, second: Attempt)
    ensures var o := Execute(c, job, first, second);
            o.requests <= 2 && o.connects <= 2
            && (o.requests == 2 ==> o.connection == Some(Used(Opened(second.connect.value), job, second)) && o.connects >= 1)
            && (o.result.Ok? ==> o.connection.Some? && o.requests >= 1)
  {
    hide IscAuth.CtrlOk, WithSerial;
  }

  /** A reply passes for the request with serial `n` exactly when its own serial is `n` and its other fields are right. */
  lemma SerialAndFields(fields: Isc.Entries, m: U32, n: U32, now: Tsig.U64, nonce: Option<seq<Byte>>)
    ensures IscAuth.CtrlOk(WithSerial(fields, m), n, now, nonce) <==> m == n && IscAuth.CtrlOk(WithSerial(fields, n), n, now, nonce)
  {
    hide Decimal.Digits, IscAuth.MapNumber, Isc.Insert;
    Isc.InsertLookup(fields, IscAuth.SER, Isc.Str(Decimal.Digits(m)), IscAuth.SER);
    if Decimal.Digits(m) == Decimal.Digits(n) { Decimal.PrintedUniquely(m, n); }
  }

  /** Exactly which replies are taken: genuine ones to a request a multiple of 2^32 uses back that would pass as
      the reply to the request just made. */
  lemma TakenIff(c: Connection, k: nat)
    requires 1 <= k <= |c.log|
    ensures var use := c.log[k - 1];
            var x := use.exchange;
            Taken(c, k).Ok? <==>
            x.Reply? && 1 <= x.to <= k && !c.log[x.to - 1].exchange.NotWritten? && x.genuine
            && (k - x.to) % SERIALS == 0
            && IscAuth.CtrlOk(WithSerial(x.fields, c.Serial(k)), c.Serial(k), use.now, Some(c.nonce))
  {
    hide IscAuth.CtrlOk, WithSerial;
    var x := c.log[k - 1].exchange;
    if x.Reply? { SerialAndFields(x.fields, c.Serial(x.to), c.Serial(k), c.log[k - 1].now, Some(c.nonce)); }
  }

  /** A success is the reply to the job's own request, whatever replies to earlier jobs are still in flight, as
      long as the connection has carried at most 2^32 requests. */
  lemma SuccessIsOwn(c: Option<Connection>, job: nat, first: Attempt, second: Attempt)
    requires var o := Execute(c, job, first, second);
             o.result.Ok? && |o.connection.value.log| <= SERIALS
    ensures Execute(c, job, first, second).result.value == job
  {
    hide IscAuth.CtrlOk, WithSerial;
    var c2 := Execute(c, job, first, second).connection.value;
    TakenIff(c2, |c2.log|);
  }

  /** A kind of exchange that always fails: nothing was written, or nothing came back. */
  lemma NothingTaken(c: Connection, job: nat, a: Attempt)
    ensures !a.exchange.Reply? ==> Answer(Used(c, job, a)).Err?
  {
    hide IscAuth.CtrlOk, WithSerial;
  }

  /** The connection a job's first attempt uses: the kept one, or a new one. */
  function FirstConnection(c: Option<Connection>, first: Attempt): Option<Connection> {
    if c.Some? then c
    else match first.connect case Some(h) => Some(Opened(h)) case None => None
  }

  /** The reply to the first request on a new connection, sent in time and under its nonce, is taken. */
  lemma OwnReplyTaken(h: Handshake, job: nat, a: Attempt, tim: Tsig.U64)
    requires a.exchange == Reply(1, ReplyFields(tim, h.nonce), true)
    requires a.now <= tim <= IscAuth.SaturatingAdd(a.now, IscAuth.EXPIRY_SECS)
    ensures Answer(Used(Opened(h), job, a)) == Ok(job)
  {
    hide IscAuth.CtrlOk, WithSerial, ReplyFields;
    var c := Used(Opened(h), job, a);
    FieldsPass(tim, h.nonce, c.Serial(1), a.now, h.nonce);
    TakenIff(c, 1);
  }

  /** Whatever connection a job finds, or none: if its first exchange fails in any way, not written, unanswered or answered
      by a reply that is not taken, and a new connection brings the job's own reply, then the job succeeds there. */
  lemma RetrySucceeds(c: Option<Connection>, job: nat, first: Attempt, second: Attempt, tim: Tsig.U64)
    requires FirstConnection(c, first).Some? && Answer(Used(FirstConnection(c, first).value, job, first)).Err?
    requires second.connect.Some? && second.exchange == Reply(1, ReplyFields(tim, second.connect.value.nonce), true)
    requires second.now <= tim <= IscAuth.SaturatingAdd(second.now, IscAuth.EXPIRY_SECS)
    ensures var o := Execute(c, job, first, second);
            && o.result == Ok(job)
            && o.connection == Some(Used(Opened(second.connect.value), job, second))
            && o.requests == (if first.exchange.NotWritten? then 1 else 2)
            && o.connects == (if c.Some? then 1 else 2)
  {
    OwnReplyTaken(second.connect.value, job, second, tim);
    hide Answer, ReplyFields;
  }

  /** A first exchange that takes a reply ends the job, whatever a second attempt would bring. */
  lemma FirstSuccessEnds(c: Option<Connection>, job: nat, first: Attempt, second: Attempt)
    requires FirstConnection(c, first).Some? && Answer(Used(FirstConnection(c, first).value, job, first)).Ok?
    ensures var used := Used(FirstConnection(c, first).value, job, first);
            Execute(c, job, first, second) == Outcome(Some(used), Answer(used), 1, if c.Some? then 0 else 1)
  {
    NothingTaken(FirstConnection(c, first).value, job, first);
    hide Answer;
  }

  /** Failures: with nothing to use nothing is done; without a second connection none is kept; and after a second failed
      exchange the new connection is kept, with that one use. */
  lemma FailedJobs(c: Option<Connection>, job: nat, first: Attempt, second: Attempt)
    ensures FirstConnection(c, first).None? ==> Execute(c, job, first, second) == Outcome(None, Err(Failed), 0, 0)
    ensures FirstConnection(c, first).Some? && Answer(Used(FirstConnection(c, first).value, job, first)).Err?
            && second.connect.None? ==>
            var o := Execute(c, job, first, second);
            o.connection.None? && o.result == Err(Failed) && o.connects == (if c.Some? then 0 else 1)
            && o.requests == if first.exchange.NotWritten? then 0 else 1
    ensures FirstConnection(c, first).Some? && Answer(Used(FirstConnection(c, first).value, job, first)).Err?
            && second.connect.Some? ==>
            var o := Execute(c, job, first, second);
            o.connection == Some(Used(Opened(second.connect.value), job, second))
            && (!second.exchange.Reply? ==> o.result == Err(Failed))
  {
    if second.connect.Some? { NothingTaken(Opened(second.connect.value), job, second); }
    hide Answer;
  }

  /** A late reply on a kept connection costs that connection, and the command succeeds on a new one. */
  lemma LateReplyForcesReconnect(c: Connection, job: nat, late: Attempt, second: Attempt)
    requires late.exchange.Reply? && |c.log| < SERIALS && 1 <= late.exchange.to <= |c.log|
    requires second.connect.Some? && Answer(Used(Opened(second.connect.value), job, second)).Ok?
    ensures var o := Execute(Some(c), job, late, second);
            o.result == Ok(job) && o.connects == 1 && o.requests == 2
            && o.connection == Some(Used(Opened(second.connect.value), job, second))
  {
    hide IscAuth.CtrlOk, WithSerial;
    TakenIff(Used(c, job, late), |c.log| + 1);
  }

  // ---- Runs of jobs on one worker ------------------------------------------

  datatype Step = Step(first: Attempt, second: Attempt)

  /** What the last of these jobs did; jobs are numbered in order. */
  function Last(steps: seq<Step>): Outcome
    requires steps != []
    decreases |steps|, 0
  {
    var n := |steps| - 1;
    Execute(Run(steps[..n]), n, steps[n].first, steps[n].second)
  }

  /** The connection a worker holds after these jobs. */
  function Run(steps: seq<Step>): Option<Connection>
    decreases |steps|, 1
  {
    if steps == [] then None else Last(steps).connection
  }

  /** Every use of the connection past the first took a reply: only the first can have been left unanswered, by a
      job whose second attempt failed. */
  predicate Kept(c: Option<Connection>) {
    c.Some? ==> forall k :: 2 <= k <= |c.value.log| ==> Taken(c.value, k).Ok?
  }

  lemma TakenBefore(c: Connection, job: nat, a: Attempt, k: nat)
    requires 1 <= k <= |c.log|
    ensures Taken(Used(c, job, a), k) == Taken(c, k)
  {
    hide IscAuth.CtrlOk, WithSerial;
  }

  lemma ExecuteKeeps(c: Option<Connection>, job: nat, first: Attempt, second: Attempt)
    requires Kept(c)
    ensures Kept(Execute(c, job, first, second).connection)
  {
    hide Taken;
    var d := Execute(c, job, first, second).connection;
    if c.Some? && d == Some(Used(c.value, job, first)) {
      forall k | 2 <= k <= |c.value.log| ensures Taken(d.value, k).Ok? { TakenBefore(c.value, job, first, k); }
    }
  }

  lemma {:induction false} RunIsKept(steps: seq<Step>)
    ensures Kept(Run(steps))
    decreases |steps|
  {
    hide Kept, Execute;
    if steps == [] {
      NothingIsKept();
    } else {
      var n := |steps| - 1;
      RunIsKept(steps[..n]);
      ExecuteKeeps(Run(steps[..n]), n, steps[n].first, steps[n].second);
    }
  }

  lemma NothingIsKept()
    ensures Kept(None)
  {}

  /** Within 2^32 uses, all of those replies were the request's own. */
  lemma RepliesAreOwn(steps: seq<Step>, k: nat)
    requires Run(steps).Some? && 2 <= k <= |Run(steps).value.log| && k <= SERIALS
    ensures var c := Run(steps).value;
            c.log[k - 1].exchange.Reply? && c.log[k - 1].exchange.to == k && Taken(c, k) == Ok(c.log[k - 1].job)
  {
    hide IscAuth.CtrlOk, WithSerial, Run;
    RunIsKept(steps);
    TakenIff(Run(steps).value, k);
  }

  /** The server replies to each request at most once. */
  predicate RepliesOnce(c: Connection) {
    forall i, j :: 0 <= i < j < |c.log| && c.log[i].exchange.Reply? && c.log[j].exchange.Reply?
                   ==> c.log[i].exchange.to != c.log[j].exchange.to
  }

  /** Which uses of a kept connection can have taken another request's reply: with one reply to a request, only
      those whose number is one more than a multiple of 2^32. */
  lemma {:induction false} OthersOnlyAtWrap(c: Connection, k: nat)
    requires Kept(Some(c)) && RepliesOnce(c) && 2 <= k <= |c.log|
    ensures c.log[k - 1].exchange.Reply?
    ensures c.log[k - 1].exchange.to == k || k % SERIALS == 1
  {
    hide IscAuth.CtrlOk, WithSerial, Taken;
    TakenIff(c, k);
    var j := c.log[k - 1].exchange.to;
    if j != k && k % SERIALS != 1 {
      Congruent(j, k);
      OthersOnlyAtWrap(c, j);
    }
  }

  lemma Congruent(j: nat, k: nat)
    requires j <= k && (k - j) % SERIALS == 0
    ensures j % SERIALS == k % SERIALS
  {}

  // ---- The bound is exact --------------------------------------------------

  /** The control fields of a reply sent at `tim`, without its serial. */
  function ReplyFields(tim: Tsig.U64, nonce: seq<Byte>): Isc.Entries {
    Isc.Cons(IscAuth.EXP, Isc.Str(Decimal.Digits(IscAuth.SaturatingAdd(tim, IscAuth.EXPIRY_SECS))),
    Isc.Cons(IscAuth.NONCE, Isc.Str(nonce),
    Isc.Cons(IscAuth.RPL, Isc.Str(Ascii("1")),
    Isc.Cons(IscAuth.TIM, Isc.Str(Decimal.Digits(tim)), Isc.Nil))))
  }

  /** They pass exactly when the reply was sent at the time of the request or up to 60 seconds later, under the nonce. */
  lemma FieldsPass(tim: Tsig.U64, theirs: seq<Byte>, serial: U32, now: Tsig.U64, nonce: seq<Byte>)
    ensures IscAuth.CtrlOk(WithSerial(ReplyFields(tim, theirs), serial), serial, now, Some(nonce)) <==>
            now <= tim <= IscAuth.SaturatingAdd(now, IscAuth.EXPIRY_SECS) && theirs == nonce
  {
    IscAuth.ControlKeysDiffer();
    hide Decimal.Digits, Decimal.Parse, Isc.Insert, Isc.Lookup, ReplyFields, Ascii;
    var f, s := ReplyFields(tim, theirs), Isc.Str(Decimal.Digits(serial));
    Decimal.ParsePrinted(tim, IscAuth.MAX_U64);
    Decimal.ParsePrinted(IscAuth.SaturatingAdd(tim, IscAuth.EXPIRY_SECS), IscAuth.MAX_U64);
    FieldsAt(tim, theirs);
    Isc.InsertLookup(f, IscAuth.SER, s, IscAuth.SER);
    Isc.InsertLookup(f, IscAuth.SER, s, IscAuth.TIM);
    Isc.InsertLookup(f, IscAuth.SER, s, IscAuth.EXP);
    Isc.InsertLookup(f, IscAuth.SER, s, IscAuth.RPL);
    Isc.InsertLookup(f, IscAuth.SER, s, IscAuth.NONCE);
  }

  lemma FieldsAt(tim: Tsig.U64, nonce: seq<Byte>)
    ensures var f := ReplyFields(tim, nonce);
            Isc.Lookup(f, IscAuth.TIM) == Ok(Isc.Str(Decimal.Digits(tim)))
            && Isc.Lookup(f, IscAuth.EXP) == Ok(Isc.Str(Decimal.Digits(IscAuth.SaturatingAdd(tim, IscAuth.EXPIRY_SECS))))
            && Isc.Lookup(f, IscAuth.RPL) == Ok(Isc.Str(Ascii("1"))) && Isc.Lookup(f, IscAuth.NONCE) == Ok(Isc.Str(nonce))
  {
    IscAuth.ControlKeysDiffer();
    hide Decimal.Digits, Ascii;
    var f := ReplyFields(tim, nonce);
    assert Isc.Lookup(f, IscAuth.RPL) == Isc.Lookup(f.rest.rest, IscAuth.RPL);
    assert Isc.Lookup(f, IscAuth.TIM) == Isc.Lookup(f.rest.rest, IscAuth.TIM) == Isc.Lookup(f.rest.rest.rest, IscAuth.TIM);
  }

  /** The i-th attempt of a long run: the first two get no reply, every later one its own. */
  function OwnReply(h: Handshake, clock: nat -> Tsig.U64, i: nat): Attempt {
    Attempt(Some(h), clock(i), if i == 0 then NoReply else Reply(i + 1, ReplyFields(clock(i), h.nonce), true))
  }

  /** Jobs of which the first stays unanswered in both attempts and every later one is answered at once. */
  function LongRun(h: Handshake, clock: nat -> Tsig.U64, n: nat): seq<Step> {
    seq(n, i requires 0 <= i < n => Step(OwnReply(h, clock, i), OwnReply(h, clock, i)))
  }

  function LongLog(h: Handshake, clock: nat -> Tsig.U64, n: nat): seq<Use> {
    seq(n, i requires 0 <= i < n => Use(i, clock(i), OwnReply(h, clock, i).exchange))
  }

  lemma {:induction false} LongRunIsKept(h: Handshake, clock: nat -> Tsig.U64, n: nat)
    requires n >= 1
    ensures Run(LongRun(h, clock, n)) == Some(Connection(h.serial, h.nonce, LongLog(h, clock, n)))
  {
    hide IscAuth.CtrlOk, WithSerial, ReplyFields;
    var steps, a := LongRun(h, clock, n), OwnReply(h, clock, n - 1);
    if n == 1 {
      assert steps[..0] == [];
      assert LongLog(h, clock, 1) == [] + [Use(0, a.now, a.exchange)];
    } else {
      LongRunIsKept(h, clock, n - 1);
      assert steps[..n - 1] == LongRun(h, clock, n - 1);
      assert LongLog(h, clock, n) == LongLog(h, clock, n - 1) + [Use(n - 1, a.now, a.exchange)];
      var c := Connection(h.serial, h.nonce, LongLog(h, clock, n));
      FieldsPass(clock(n - 1), h.nonce, c.Serial(n), clock(n - 1), h.nonce);
      TakenIff(c, n);
    }
  }

  /** After 2^32 jobs the next one makes the reply to the first its result, exactly when that reply is sent within
      60 seconds from the new request on and carries the connection's nonce. No request is answered twice. */
  lemma LateReplyAfterWrap(h: Handshake, clock: nat -> Tsig.U64, tim: Tsig.U64, nonce: seq<Byte>, second: Attempt)
    ensures var late := Attempt(None, clock(SERIALS), Reply(1, ReplyFields(tim, nonce), true));
            Last(LongRun(h, clock, SERIALS) + [Step(late, second)]).result == Ok(0) <==>
            clock(SERIALS) <= tim <= IscAuth.SaturatingAdd(clock(SERIALS), IscAuth.EXPIRY_SECS) && nonce == h.nonce
    ensures var late := Attempt(None, clock(SERIALS), Reply(1, ReplyFields(tim, nonce), true));
            Run(LongRun(h, clock, SERIALS)).Some?
            && RepliesOnce(Used(Run(LongRun(h, clock, SERIALS)).value, SERIALS, late))
  {
    hide IscAuth.CtrlOk, WithSerial, ReplyFields, Run;
    var late := Attempt(None, clock(SERIALS), Reply(1, ReplyFields(tim, nonce), true));
    var steps := LongRun(h, clock, SERIALS) + [Step(late, second)];
    assert steps[..SERIALS] == LongRun(h, clock, SERIALS);
    LongRunIsKept(h, clock, SERIALS);
    var c := Used(Connection(h.serial, h.nonce, LongLog(h, clock, SERIALS)), SERIALS, late);
    FieldsPass(tim, nonce, c.Serial(SERIALS + 1), clock(SERIALS), h.nonce);
    TakenIff(c, SERIALS + 1);
  }
}
