/** The connection pool: callers, worker tasks, one-slot job channels, the availability queue and its
    separately updated counter, as interleaved steps. A step is one await point or atomic operation. */
module Pool {
  import opened Bytes
  import opened Records
  import opened Reconnect

  const DEFAULT_POOL_SIZE := 4
  const USIZE := 0x1_0000_0000_0000_0000
  /** The largest capacity a channel can be made with. */
  const MAX_PERMITS := 0x1FFF_FFFF_FFFF_FFFF

  /** Where one `execute` call stands; a worker is named by its index. */
  datatype Caller = Waiting | Popped(w: nat) | Decremented(w: nat) | Sent(w: nat) | Done(outcome: Outcome)

  /** Where a worker's loop stands, with the caller whose job it has. */
  datatype Phase = Idle | Running(c: nat) | Finished(c: nat, outcome: Outcome)
                 | Pushed(c: nat, outcome: Outcome) | Counted(c: nat, outcome: Outcome)

  datatype State = State(queue: seq<nat>, count: nat, callers: seq<Caller>, slots: seq<Option<nat>>,
                         phases: seq<Phase>, connections: seq<Option<Connection>>, created: nat) {
    function Size(): nat { |phases| }

    /** `available()`. */
    function Available(): nat { count }
  }

  /** Pop and Decrement are the two halves of taking a worker, Push and Increment of giving it back. */
  datatype Step = NewCall | Pop(c: nat) | Decrement(c: nat) | Send(c: nat)
                | Receive(w: nat) | Finish(w: nat, first: Attempt, second: Attempt)
                | Push(w: nat) | Increment(w: nat) | Respond(w: nat) | IdleClose(w: nat)

  /** Zero means the configured limit if that is positive, or else four. */
  function PoolSize(size: nat, configured: Option<nat>): (n: nat)
    ensures n > 0
  {
    if size > 0 then size
    else if configured.Some? && configured.value > 0 then configured.value
    else DEFAULT_POOL_SIZE
  }

  function Initial(n: nat): State {
    State(seq(n, i => i), n, [], seq(n, _ => None), seq(n, _ => Idle), seq(n, _ => None), 0)
  }

  /** Queues every worker's index and starts it. */
  method New(size: nat, configured: Option<nat>) returns (s: State)
    ensures s == Initial(PoolSize(size, configured))
  {
    var n := PoolSize(size, configured);
    var queue: seq<nat> := [];
    var slots: seq<Option<nat>> := [];
    var phases: seq<Phase> := [];
    var connections: seq<Option<Connection>> := [];
    for index := 0 to n
      invariant queue == seq(index, i => i) && slots == seq(index, _ => None)
      invariant phases == seq(index, _ => Idle) && connections == seq(index, _ => None)
    {
      slots := slots + [None];
      queue := queue + [index];
      phases := phases + [Idle];
      connections := connections + [None];
    }
    s := State(queue, n, [], slots, phases, connections, 0);
  }

  // ---- Steps ---------------------------------------------------------------

  /** Can this step be taken? Sends wait for room in their channel, receives for something to receive. */
  predicate Enabled(s: State, step: Step) {
    |s.slots| == |s.connections| == s.Size() &&
    match step
    case NewCall => true
    case Pop(c) => c < |s.callers| && s.callers[c].Waiting? && s.queue != []
    case Decrement(c) => c < |s.callers| && s.callers[c].Popped?
    case Send(c) => c < |s.callers| && s.callers[c].Decremented? && s.callers[c].w < s.Size() && s.slots[s.callers[c].w].None?
    case Receive(w) => w < s.Size() && s.phases[w].Idle? && s.slots[w].Some?
    case Finish(w, _, _) => w < s.Size() && s.phases[w].Running?
    case Push(w) => w < s.Size() && s.phases[w].Finished? && |s.queue| < s.Size()
    case Increment(w) => w < s.Size() && s.phases[w].Pushed?
    case Respond(w) => w < s.Size() && s.phases[w].Counted? && s.phases[w].c < |s.callers|
    case IdleClose(w) => w < s.Size() && s.phases[w].Idle? && s.slots[w].None? && s.connections[w].Some?
  }

  function Apply(s: State, step: Step): State
    requires Enabled(s, step)
  {
    match step
    case NewCall => s.(callers := s.callers + [Waiting])
    case Pop(c) => s.(queue := s.queue[1..], callers := s.callers[c := Popped(s.queue[0])])
    case Decrement(c) => s.(count := (s.count - 1) % USIZE, callers := s.callers[c := Decremented(s.callers[c].w)])
    case Send(c) =>
      var w := s.callers[c].w;
      s.(slots := s.slots[w := Some(c)], callers := s.callers[c := Sent(w)])
    case Receive(w) => s.(slots := s.slots[w := None], phases := s.phases[w := Running(s.slots[w].value)])
    case Finish(w, first, second) =>
      var c := s.phases[w].c;
      var o := Execute(s.connections[w], c, first, second);
      s.(phases := s.phases[w := Finished(c, o)], connections := s.connections[w := o.connection],
         created := (s.created + o.connects) % USIZE)
    case Push(w) => s.(queue := s.queue + [w], phases := s.phases[w := Pushed(s.phases[w].c, s.phases[w].outcome)])
    case Increment(w) =>
      s.(count := (s.count + 1) % USIZE, phases := s.phases[w := Counted(s.phases[w].c, s.phases[w].outcome)])
    case Respond(w) =>
      s.(callers := s.callers[s.phases[w].c := Done(s.phases[w].outcome)], phases := s.phases[w := Idle])
    case IdleClose(w) => s.(connections := s.connections[w := None])
  }

  // ---- The one place of every worker index ---------------------------------

  datatype Place = Queued | With(c: nat) | InSlot | Busy

  function Held(c: Caller): Option<nat> { if c.Popped? || c.Decremented? then Some(c.w) else None }

  function JobOf(p: Phase): Option<nat> { if p.Idle? then None else Some(p.c) }

  ghost predicate Shape(s: State) {
    0 < s.Size() <= MAX_PERMITS && |s.slots| == |s.connections| == s.Size()
  }

  /** The queue holds exactly the queued indices, once each. */
  ghost predicate QueuePlaces(queue: seq<nat>, p: seq<Place>) {
    (forall i :: 0 <= i < |queue| ==> queue[i] < |p| && p[queue[i]] == Queued)
    && (forall i, j :: 0 <= i < j < |queue| ==> queue[i] != queue[j])
    && (forall w :: 0 <= w < |p| && p[w] == Queued ==> w in queue)
  }

  ghost predicate CallerPlaces(callers: seq<Caller>, p: seq<Place>) {
    (forall c :: 0 <= c < |callers| && Held(callers[c]).Some? ==>
       Held(callers[c]).value < |p| && p[Held(callers[c]).value] == With(c))
    && (forall w :: 0 <= w < |p| && p[w].With? ==> p[w].c < |callers| && Held(callers[p[w].c]) == Some(w))
  }

  /** Each index is in the queue once, or with one caller, or has a job in its slot, or runs one: `p` says which. */
  ghost predicate Places(s: State, p: seq<Place>) {
    |p| == s.Size() == |s.slots| && QueuePlaces(s.queue, p) && CallerPlaces(s.callers, p)
    && (forall w :: 0 <= w < |p| ==> (p[w] == InSlot <==> s.slots[w].Some?))
    && (forall w :: 0 <= w < |p| ==> (p[w] == Busy <==> s.phases[w].Running? || s.phases[w].Finished?))
  }

  /** Every sent job is in its worker's slot or with its worker, never both, and nobody else's is. */
  ghost predicate Jobs(s: State) {
    |s.slots| == s.Size()
    && (forall w :: 0 <= w < s.Size() && s.slots[w].Some? ==>
          s.slots[w].value < |s.callers| && s.callers[s.slots[w].value] == Sent(w))
    && (forall w :: 0 <= w < s.Size() && JobOf(s.phases[w]).Some? ==>
          s.phases[w].c < |s.callers| && s.callers[s.phases[w].c] == Sent(w) && s.slots[w] != Some(s.phases[w].c))
    && (forall c :: 0 <= c < |s.callers| && s.callers[c].Sent? ==>
          s.callers[c].w < s.Size() && (s.slots[s.callers[c].w] == Some(c) || JobOf(s.phases[s.callers[c].w]) == Some(c)))
  }

  /** What each job's outcome promises its caller. */
  ghost predicate Honest(o: Outcome, c: nat) {
    o.requests <= 2 && o.connects <= 2
    && (o.result.Ok? ==> o.connection.Some? && (|o.connection.value.log| <= SERIALS ==> o.result.value == c))
  }

  ghost predicate Outcomes(s: State) {
    (forall w :: 0 <= w < |s.phases| && (s.phases[w].Finished? || s.phases[w].Pushed? || s.phases[w].Counted?) ==>
       Honest(s.phases[w].outcome, s.phases[w].c))
    && (forall c :: 0 <= c < |s.callers| && s.callers[c].Done? ==> Honest(s.callers[c].outcome, c))
  }

  // ---- Sums ----------------------------------------------------------------

  function Sum<T>(s: seq<T>, f: T -> int): int {
    if s == [] then 0 else f(s[0]) + Sum(s[1..], f)
  }

  lemma {:induction false} SumUpdate<T>(s: seq<T>, i: nat, x: T, f: T -> int)
    requires i < |s|
    ensures Sum(s[i := x], f) == Sum(s, f) - f(s[i]) + f(x)
  {
    if i == 0 {
      assert s[0 := x][1..] == s[1..];
    } else {
      assert s[i := x][1..] == s[1..][i - 1 := x];
      SumUpdate(s[1..], i - 1, x, f);
    }
  }

  lemma {:induction false} SumAppend<T>(s: seq<T>, x: T, f: T -> int)
    ensures Sum(s + [x], f) == Sum(s, f) + f(x)
  {
    if s == [] {
      assert Sum([x], f) == f(x) + Sum([], f);
      assert s + [x] == [x];
    } else {
      assert (s + [x])[1..] == s[1..] + [x];
      SumAppend(s[1..], x, f);
    }
  }

  lemma {:induction false} SumOfNone<T>(s: seq<T>, f: T -> int)
    requires forall i :: 0 <= i < |s| ==> f(s[i]) == 0
    ensures Sum(s, f) == 0
  {
    if s != [] { SumOfNone(s[1..], f); }
  }

  lemma {:induction false} SumBounds<T>(s: seq<T>, f: T -> int)
    requires forall i :: 0 <= i < |s| ==> 0 <= f(s[i])
    ensures 0 <= Sum(s, f) && forall i :: 0 <= i < |s| ==> f(s[i]) <= Sum(s, f)
    ensures (forall i :: 0 <= i < |s| ==> f(s[i]) <= 1) ==> Sum(s, f) <= |s|
  {
    if s != [] { SumBounds(s[1..], f); }
  }

  // ---- The counter ---------------------------------------------------------

  function PoppedOne(c: Caller): int { if c.Popped? then 1 else 0 }
  function PushedOne(p: Phase): int { if p.Pushed? then 1 else 0 }

  /** Indices in the queue, plus callers that popped but have not decremented, less workers that pushed but
      have not incremented. */
  function Balance(s: State): int {
    |s.queue| + Sum(s.callers, PoppedOne) - Sum(s.phases, PushedOne)
  }

  function CallerConnects(c: Caller): int { if c.Done? then c.outcome.connects else 0 }
  function PhaseConnects(p: Phase): int { if p.Idle? || p.Running? then 0 else p.outcome.connects }

  function Connects(s: State): int { Sum(s.callers, CallerConnects) + Sum(s.phases, PhaseConnects) }

  ghost predicate Counters(s: State) {
    s.count == Balance(s) % USIZE && s.created == Connects(s) % USIZE
  }

  ghost predicate Inv(s: State) {
    Shape(s) && (exists p :: Places(s, p)) && Jobs(s) && Outcomes(s) && Counters(s)
  }

  lemma Starts(n: nat)
    requires 0 < n <= MAX_PERMITS
    ensures Inv(Initial(n))
  {
    var s := Initial(n);
    var p := seq(n, _ => Queued);
    forall w | 0 <= w < n ensures w in s.queue { assert s.queue[w] == w; }
    assert Places(s, p);
    SumOfNone(s.phases, PushedOne);
    SumOfNone(s.phases, PhaseConnects);
  }

  // ---- Every step keeps the invariant --------------------------------------

  /** Where each index is after a step. */
  ghost function Moved(s: State, p: seq<Place>, step: Step): seq<Place>
    requires Shape(s) && Places(s, p) && Enabled(s, step)
  {
    match step
    case Pop(c) => p[s.queue[0] := With(c)]
    case Send(c) => p[s.callers[c].w := InSlot]
    case Receive(w) => p[w := Busy]
    case Push(w) => p[w := Queued]
    case _ => p
  }

  lemma PlacesKept(s: State, p: seq<Place>, step: Step)
    requires Shape(s) && Places(s, p) && Jobs(s) && Enabled(s, step)
    ensures Places(Apply(s, step), Moved(s, p, step))
  {
    hide Places, Jobs, Apply, Moved;
    match step {
      case Pop(c) => PopPlaces(s, p, c);
      case Push(w) => PushPlaces(s, p, w);
      case NewCall => CallerStepPlaces(s, p, step);
      case Decrement(c) => CallerStepPlaces(s, p, step);
      case Send(c) => CallerStepPlaces(s, p, step);
      case Respond(w) => RespondPlaces(s, p, w);
      case _ => WorkerPlaces(s, p, step);
    }
  }

  lemma RespondPlaces(s: State, p: seq<Place>, w: nat)
    requires Shape(s) && Places(s, p) && Jobs(s) && Enabled(s, Respond(w))
    ensures Places(Apply(s, Respond(w)), Moved(s, p, Respond(w)))
  {
    hide Jobs;
    SentByCounted(s, w);
  }

  lemma SentByCounted(s: State, w: nat)
    requires Shape(s) && Jobs(s) && Enabled(s, Respond(w))
    ensures s.callers[s.phases[w].c] == Sent(w)
  {}

  lemma CallerStepPlaces(s: State, p: seq<Place>, step: Step)
    requires Shape(s) && Places(s, p) && Enabled(s, step) && (step.NewCall? || step.Decrement? || step.Send?)
    ensures Places(Apply(s, step), Moved(s, p, step))
  {}

  lemma WorkerPlaces(s: State, p: seq<Place>, step: Step)
    requires Shape(s) && Places(s, p) && Enabled(s, step)
    requires step.Receive? || step.Finish? || step.Increment? || step.IdleClose?
    ensures Places(Apply(s, step), Moved(s, p, step))
  {
    hide Execute;
  }

  lemma PopPlaces(s: State, p: seq<Place>, c: nat)
    requires Shape(s) && Places(s, p) && Enabled(s, Pop(c))
    ensures Places(Apply(s, Pop(c)), Moved(s, p, Pop(c)))
  {
    var w := s.queue[0];
    assert p[w] == Queued;
    hide QueuePlaces, CallerPlaces;
  }

  lemma PushPlaces(s: State, p: seq<Place>, w: nat)
    requires Shape(s) && Places(s, p) && Enabled(s, Push(w))
    ensures Places(Apply(s, Push(w)), Moved(s, p, Push(w)))
  {}

  lemma JobsKept(s: State, step: Step)
    requires Shape(s) && Jobs(s) && Enabled(s, step)
    ensures Jobs(Apply(s, step))
  {
    hide Jobs, Apply;
    if step.Send? {
      SendJobs(s, step.c);
    } else if step.NewCall? || step.Pop? || step.Decrement? {
      CallerJobs(s, step);
    } else {
      WorkerJobs(s, step);
    }
  }

  lemma CallerJobs(s: State, step: Step)
    requires Shape(s) && Jobs(s) && Enabled(s, step)
    requires step.NewCall? || step.Pop? || step.Decrement?
    ensures Jobs(Apply(s, step))
  {}

  lemma SendJobs(s: State, c: nat)
    requires Shape(s) && Jobs(s) && Enabled(s, Send(c))
    ensures Jobs(Apply(s, Send(c)))
  {}

  lemma WorkerJobs(s: State, step: Step)
    requires Shape(s) && Jobs(s) && Enabled(s, step)
    requires !step.NewCall? && !step.Pop? && !step.Decrement? && !step.Send?
    ensures Jobs(Apply(s, step))
  {
    hide Execute;
  }

  lemma OutcomesKept(s: State, step: Step)
    requires Shape(s) && Outcomes(s) && Enabled(s, step)
    ensures Outcomes(Apply(s, step))
  {
    hide Execute;
    if step.Finish? {
      var c, before := s.phases[step.w].c, s.connections[step.w];
      AtMostTwice(before, c, step.first, step.second);
      var o := Execute(before, c, step.first, step.second);
      if o.result.Ok? && |o.connection.value.log| <= SERIALS {
        SuccessIsOwn(before, c, step.first, step.second);
      }
    }
  }

  lemma CountersKept(s: State, step: Step)
    requires Shape(s) && Jobs(s) && Counters(s) && Enabled(s, step)
    ensures Counters(Apply(s, step))
  {
    hide Counters;
    CountersAre(s);
    CountKept(s, step);
    CreatedKept(s, step);
    CountersAre(Apply(s, step));
    hide Apply, Enabled;
  }

  lemma CountersAre(s: State)
    ensures Counters(s) <==> s.count == Balance(s) % USIZE && s.created == Connects(s) % USIZE
  {}

  lemma CountKept(s: State, step: Step)
    requires Shape(s) && Jobs(s) && Enabled(s, step) && s.count == Balance(s) % USIZE
    ensures Apply(s, step).count == Balance(Apply(s, step)) % USIZE
  {
    hide Execute, Sum;
    CallerSum(s, step, PoppedOne);
    PhaseSum(s, step, PushedOne);
  }

  lemma CreatedKept(s: State, step: Step)
    requires Shape(s) && Jobs(s) && Enabled(s, step) && s.created == Connects(s) % USIZE
    ensures Apply(s, step).created == Connects(Apply(s, step)) % USIZE
  {
    hide Execute, Sum;
    CallerSum(s, step, CallerConnects);
    PhaseSum(s, step, PhaseConnects);
  }

  /** How a sum over callers changes in one step. */
  lemma CallerSum(s: State, step: Step, f: Caller -> int)
    requires Shape(s) && Enabled(s, step)
    ensures var t := Apply(s, step);
            Sum(t.callers, f) - Sum(s.callers, f) ==
            match step
            case NewCall => f(Waiting)
            case Pop(c) => f(t.callers[c]) - f(s.callers[c])
            case Decrement(c) => f(t.callers[c]) - f(s.callers[c])
            case Send(c) => f(t.callers[c]) - f(s.callers[c])
            case Respond(w) => f(Done(s.phases[w].outcome)) - f(s.callers[s.phases[w].c])
            case _ => 0
  {
    hide Sum, Execute;
    match step {
      case NewCall => SumAppend(s.callers, Waiting, f);
      case Pop(c) => SumUpdate(s.callers, c, Popped(s.queue[0]), f);
      case Decrement(c) => SumUpdate(s.callers, c, Decremented(s.callers[c].w), f);
      case Send(c) => SumUpdate(s.callers, c, Sent(s.callers[c].w), f);
      case Respond(w) => SumUpdate(s.callers, s.phases[w].c, Done(s.phases[w].outcome), f);
      case _ =>
    }
  }

  lemma PhaseSum(s: State, step: Step, f: Phase -> int)
    requires Shape(s) && Enabled(s, step)
    ensures var t := Apply(s, step);
            Sum(t.phases, f) - Sum(s.phases, f) ==
            if step.Receive? || step.Finish? || step.Push? || step.Increment? || step.Respond?
            then f(t.phases[step.w]) - f(s.phases[step.w]) else 0
  {
    hide Sum, Execute;
    if step.Receive? || step.Finish? || step.Push? || step.Increment? || step.Respond? {
      SumUpdate(s.phases, step.w, Apply(s, step).phases[step.w], f);
    }
  }

  /** Every step of every interleaving keeps the invariant. */
  lemma StepKeeps(s: State, step: Step)
    requires Inv(s) && Enabled(s, step)
    ensures Inv(Apply(s, step))
  {
    hide Apply, Enabled, Places, Jobs, Outcomes, Counters;
    var p :| Places(s, p);
    PlacesKept(s, p, step);
    JobsKept(s, step);
    OutcomesKept(s, step);
    CountersKept(s, step);
    ShapeKept(s, step);
  }

  lemma ShapeKept(s: State, step: Step)
    requires Shape(s) && Enabled(s, step)
    ensures Shape(Apply(s, step)) && Apply(s, step).Size() == s.Size()
  {
    hide Execute;
  }

  // ---- What the invariant says ---------------------------------------------

  ghost predicate At(s: State, w: nat, place: Place)
    requires Shape(s) && w < s.Size()
  {
    match place
    case Queued => w in s.queue
    case With(c) => c < |s.callers| && Held(s.callers[c]) == Some(w)
    case InSlot => s.slots[w].Some?
    case Busy => s.phases[w].Running? || s.phases[w].Finished?
  }

  /** Every worker index is in exactly one place, and in the queue at most once. */
  lemma ExactlyOnePlace(s: State, w: nat)
    requires Inv(s) && w < s.Size()
    ensures exists place :: At(s, w, place) && forall other :: At(s, w, other) ==> other == place
    ensures forall i, j :: 0 <= i < |s.queue| && 0 <= j < |s.queue| && s.queue[i] == s.queue[j] ==> i == j
  {
    hide Jobs, Outcomes, Counters;
    var p :| Places(s, p);
    forall other | At(s, w, other) ensures other == p[w] {}
    assert At(s, w, p[w]);
  }

  ghost predicate Distinct(s: seq<nat>) {
    forall i, j :: 0 <= i < j < |s| ==> s[i] != s[j]
  }

  /** Distinct numbers below `n` are at most `n` many. */
  lemma {:induction false} AtMost(s: seq<nat>, n: nat)
    requires Distinct(s) && forall i :: 0 <= i < |s| ==> s[i] < n
    ensures |s| <= n
  {
    assert s == [] || 0 <= s[0] < n;
    if n > 0 && exists i :: 0 <= i < |s| && s[i] == n - 1 {
      var i :| 0 <= i < |s| && s[i] == n - 1;
      AtMost(s[..i] + s[i + 1..], n - 1);
    } else if n > 0 {
      AtMost(s, n - 1);
    }
  }

  lemma QueueHasRoom(s: State, p: seq<Place>, w: nat)
    requires Shape(s) && Places(s, p) && w < s.Size()
    ensures |s.queue| <= s.Size() && (w !in s.queue ==> |s.queue| < s.Size())
    ensures s.queue == [] ==> p[w] != Queued
  {
    AtMost(s.queue, s.Size());
    if w !in s.queue { AtMost(s.queue + [w], s.Size()); }
  }

  /** No send ever waits: a worker that was handed out has an empty slot, and the queue has room for every
      index that is given back. */
  lemma SendsNeverBlock(s: State)
    requires Inv(s)
    ensures |s.queue| <= s.Size()
    ensures forall c :: 0 <= c < |s.callers| && s.callers[c].Decremented? ==> Enabled(s, Send(c))
    ensures forall w :: 0 <= w < s.Size() && s.phases[w].Finished? ==> Enabled(s, Push(w))
  {
    hide Jobs, Outcomes, Counters;
    var p :| Places(s, p);
    forall w | 0 <= w < s.Size() && s.phases[w].Finished? ensures Enabled(s, Push(w)) {
      QueueHasRoom(s, p, w);
    }
    QueueHasRoom(s, p, 0);
    forall c | 0 <= c < |s.callers| && s.callers[c].Decremented? ensures Enabled(s, Send(c)) {
      assert Held(s.callers[c]).Some?;
    }
  }

  /** Steps that bring some call closer to its response. */
  predicate Progress(step: Step) { !step.NewCall? && !step.IdleClose? }

  /** While a call is pending, some step that brings one closer can be taken. */
  lemma NeverStuck(s: State, c: nat) returns (step: Step)
    requires Inv(s) && c < |s.callers| && !s.callers[c].Done?
    ensures Enabled(s, step) && Progress(step)
  {
    hide Outcomes, Counters;
    if w :| 0 <= w < s.Size() && !s.phases[w].Idle? {
      step := WorkerStep(s, w);
    } else if w :| 0 <= w < s.Size() && s.slots[w].Some? {
      step := Receive(w);
    } else if d :| 0 <= d < |s.callers| && Held(s.callers[d]).Some? {
      hide Places, Jobs;
      SendsNeverBlock(s);
      step := if s.callers[d].Popped? then Decrement(d) else Send(d);
    } else {
      var p :| Places(s, p);
      assert p[0] == Queued;
      step := Pop(c);
    }
  }

  lemma WorkerStep(s: State, w: nat) returns (step: Step)
    requires Inv(s) && w < s.Size() && !s.phases[w].Idle?
    ensures Enabled(s, step) && Progress(step)
  {
    hide Places, Outcomes, Counters;
    SendsNeverBlock(s);
    match s.phases[w] {
      case Running(_) => step := Finish(w, Attempt(None, 0, NoReply), Attempt(None, 0, NoReply));
      case Finished(_, _) => step := Push(w);
      case Pushed(_, _) => step := Increment(w);
      case Counted(_, _) => step := Respond(w);
    }
  }

  // ---- The counter, exactly ------------------------------------------------

  function PoppedAt(callers: seq<Caller>): seq<nat> {
    if callers == [] then []
    else PoppedAt(callers[1..]) + if callers[0].Popped? then [callers[0].w] else []
  }

  lemma {:induction false} PoppedAreDistinct(s: State, p: seq<Place>, k: nat)
    requires Shape(s) && Places(s, p) && k <= |s.callers|
    ensures var at := PoppedAt(s.callers[k..]);
            |at| == Sum(s.callers[k..], PoppedOne) && Distinct(at)
            && forall i :: 0 <= i < |at| ==> at[i] < |p| && p[at[i]].With? && p[at[i]].c >= k
    decreases |s.callers| - k
  {
    if k < |s.callers| {
      PoppedAreDistinct(s, p, k + 1);
      assert s.callers[k..][1..] == s.callers[k + 1..];
      assert s.callers[k].Popped? ==> Held(s.callers[k]) == Some(s.callers[k].w);
    }
  }

  lemma BalanceBounds(s: State)
    requires Inv(s)
    ensures 0 <= Balance(s) + s.Size() <= 2 * s.Size()
  {
    hide Jobs, Outcomes, Counters;
    var p :| Places(s, p);
    PoppedAreDistinct(s, p, 0);
    assert s.callers[0..] == s.callers;
    var all := s.queue + PoppedAt(s.callers);
    assert Distinct(all);
    AtMost(all, s.Size());
    SumBounds(s.phases, PushedOne);
  }

  /** `available()` is the balance, except that a negative balance shows as a number just below 2^64: it is
      past the pool's size exactly while more workers have pushed without incrementing than there are indices
      queued or popped without decrementing. */
  lemma AvailableExactly(s: State)
    requires Inv(s)
    ensures s.Available() == if Balance(s) < 0 then USIZE + Balance(s) else Balance(s)
    ensures s.Available() > s.Size() <==>
            |s.queue| + Sum(s.callers, PoppedOne) < Sum(s.phases, PushedOne)
  {
    BalanceBounds(s);
  }

  // ---- Runs ----------------------------------------------------------------

  predicate Run(s: State, steps: seq<Step>)
    decreases steps
  {
    steps == [] || (Enabled(s, steps[0]) && Run(Apply(s, steps[0]), steps[1..]))
  }

  function End(s: State, steps: seq<Step>): State
    requires Run(s, steps)
    decreases steps
  {
    if steps == [] then s else End(Apply(s, steps[0]), steps[1..])
  }

  /** The invariant holds at the end of every run. */
  lemma {:induction false} RunKeeps(s: State, steps: seq<Step>)
    requires Inv(s) && Run(s, steps)
    ensures Inv(End(s, steps)) && End(s, steps).Size() == s.Size()
    decreases steps
  {
    hide Apply, Enabled, Inv;
    if steps != [] {
      ShapeOf(s);
      ShapeKept(s, steps[0]);
      StepKeeps(s, steps[0]);
      RunKeeps(Apply(s, steps[0]), steps[1..]);
    }
  }

  lemma ShapeOf(s: State)
    requires Inv(s)
    ensures Shape(s)
  {}

  /** Steps still to come before every pending call has its response. */
  function Remaining(s: State): int {
    Sum(s.callers, CallerLeft) + Sum(s.slots, SlotLeft) + Sum(s.phases, PhaseLeft)
  }

  function CallerLeft(c: Caller): int {
    match c
    case Waiting => 8
    case Popped(_) => 7
    case Decremented(_) => 6
    case Sent(_) => 0
    case Done(_) => 0
  }

  function SlotLeft(o: Option<nat>): int { if o.Some? then 5 else 0 }

  function PhaseLeft(p: Phase): int {
    match p
    case Idle => 0
    case Running(_) => 4
    case Finished(_, _) => 3
    case Pushed(_, _) => 2
    case Counted(_, _) => 1
  }

  lemma StepCounts(s: State, step: Step)
    requires Shape(s) && Jobs(s) && Enabled(s, step)
    ensures Remaining(Apply(s, step)) == Remaining(s) + if step.NewCall? then 8 else if step.IdleClose? then 0 else -1
  {
    hide Execute, Sum;
    CallerSum(s, step, CallerLeft);
    PhaseSum(s, step, PhaseLeft);
    if step.Send? { SumUpdate(s.slots, s.callers[step.c].w, Some(step.c), SlotLeft); }
    if step.Receive? { SumUpdate(s.slots, step.w, None, SlotLeft); }
  }

  function Weight(step: Step): int { if step.NewCall? then 8 else if step.IdleClose? then 0 else -1 }

  /** Eight steps take each call to its response, in every interleaving: no run has more, and one that can go no
      further has taken exactly eight for each call. */
  lemma {:induction false} RunCounts(s: State, steps: seq<Step>)
    requires Inv(s) && Run(s, steps)
    ensures Remaining(End(s, steps)) == Remaining(s) + Sum(steps, Weight)
    ensures Remaining(End(s, steps)) >= 0
    decreases steps
  {
    hide Apply, Enabled, Remaining, Shape, Places, Outcomes, Counters, Jobs;
    if steps == [] {
      RemainingIsPositive(s);
    } else {
      StepCounts(s, steps[0]);
      StepKeeps(s, steps[0]);
      RunCounts(Apply(s, steps[0]), steps[1..]);
    }
  }

  lemma RemainingIsPositive(s: State)
    ensures Remaining(s) >= 0
  {
    SumBounds(s.callers, CallerLeft);
    SumBounds(s.slots, SlotLeft);
    SumBounds(s.phases, PhaseLeft);
  }

  /** A run of a new pool that can go no further has given every call its response: exactly one, from its own
      job, after at most two requests on at most two new connections; and eight steps were taken for each call. */
  lemma EveryCallAnswered(n: nat, steps: seq<Step>)
    requires 0 < n <= MAX_PERMITS && Run(Initial(n), steps)
    requires forall step :: Enabled(End(Initial(n), steps), step) ==> !Progress(step)
    ensures var end := End(Initial(n), steps);
            forall c :: 0 <= c < |end.callers| ==> end.callers[c].Done? && Honest(end.callers[c].outcome, c)
    ensures Sum(steps, Weight) == 0
  {
    hide Apply, Enabled, Run, End, Shape, Places, Jobs, Counters, Honest, Remaining, Sum;
    var s := Initial(n);
    Starts(n);
    RunKeeps(s, steps);
    RunCounts(s, steps);
    var end := End(s, steps);
    forall c | 0 <= c < |end.callers| ensures end.callers[c].Done? {
      if !end.callers[c].Done? {
        var step := NeverStuck(end, c);
      }
    }
    NothingRemains(s);
    NothingRemains(end);
  }

  lemma NothingRemains(s: State)
    requires Inv(s) && forall c :: 0 <= c < |s.callers| ==> s.callers[c].Done?
    ensures Remaining(s) == 0
  {
    hide Sum, Places, Outcomes, Counters;
    SumOfNone(s.callers, CallerLeft);
    SumOfNone(s.slots, SlotLeft);
    SumOfNone(s.phases, PhaseLeft);
  }

  /** A response, once given, is never replaced. */
  lemma ResponseIsFinal(s: State, step: Step, c: nat)
    requires Inv(s) && Enabled(s, step) && c < |s.callers| && s.callers[c].Done?
    ensures c < |Apply(s, step).callers| && Apply(s, step).callers[c] == s.callers[c]
  {
    hide Execute, Places, Outcomes, Counters;
  }

  lemma {:induction false} Then(s: State, steps: seq<Step>, step: Step)
    requires Run(s, steps) && Enabled(End(s, steps), step)
    ensures Run(s, steps + [step]) && End(s, steps + [step]) == Apply(End(s, steps), step)
    decreases steps
  {
    hide Apply, Enabled;
    if steps == [] {
      assert [] + [step] == [step];
      assert [step][1..] == [];
    } else {
      assert (steps + [step])[1..] == steps[1..] + [step];
      Then(Apply(s, steps[0]), steps[1..], step);
    }
  }

  /** The counter can pass the pool's size: one worker, which has pushed its index but not yet counted it when a
      second call takes it. */
  lemma AvailableWraps(first: Attempt, second: Attempt) returns (steps: seq<Step>)
    ensures Run(Initial(1), steps) && End(Initial(1), steps).Available() == USIZE - 1
  {
    hide Execute, Run, End;
    var s := Initial(1);
    var o := Execute(None, 0, first, second);
    steps := [];
    EmptyRun(s);
    Then(s, steps, NewCall);
    steps := steps + [NewCall];
    Then(s, steps, NewCall);
    steps := steps + [NewCall];
    Then(s, steps, Pop(0));
    steps := steps + [Pop(0)];
    Then(s, steps, Decrement(0));
    steps := steps + [Decrement(0)];
    Then(s, steps, Send(0));
    steps := steps + [Send(0)];
    Then(s, steps, Receive(0));
    steps := steps + [Receive(0)];
    Then(s, steps, Finish(0, first, second));
    steps := steps + [Finish(0, first, second)];
    Then(s, steps, Push(0));
    steps := steps + [Push(0)];
    Then(s, steps, Pop(1));
    steps := steps + [Pop(1)];
    Then(s, steps, Decrement(1));
    steps := steps + [Decrement(1)];
  }

  lemma EmptyRun(s: State)
    ensures Run(s, []) && End(s, []) == s
  {}
}
