/** Streaming bodies (src/streaming.rs): a generator is drained inline while the response is
built, then driven on by a blocking thread or by a task on the worker loop, through a channel
of 32 chunks that the connection consumes at its own pace and may drop at any time.

The driver, the waiter that a full channel leaves behind on the worker loop, and the consumer
interleave at every generator step and channel access. */
module StreamDrivers {
  import opened Runs

  const CAPACITY: nat := 32

  /** Which driver: a synchronous generator, an asynchronous one that never awaits, or one
  that runs as a task on the worker loop. */
  datatype Kind = Sync | NoAwait | Loop

  datatype Yield = Value(bytes: string) | Nothing

  /** What the generator does: its items, and whether it ends by raising. A plain iterable,
  which has no `__next__`, is not drained inline. */
  datatype Body = Body(kind: Kind, items: seq<Yield>, raises: bool, plain: bool)

  datatype Driver =
    | Draining                 // inline, before the response exists
    | Stepping                 // about to step the generator
    | Sending(chunk: string)   // blocked in `blocking_send`
    | Parked                   // awaiting the waiter's future
    | Resumed(ok: bool)        // the future has resolved
    | Cleaning                 // receiver gone: about to close the generator
    | Raised                   // about to capture the exception
    | Leaving                  // about to drop its sender
    | Exited

  datatype Waiter = NoWaiter | Holding(chunk: string) | Settling(ok: bool)

  datatype State = State(
    body: Body,
    next: nat,                 // generator steps taken
    chan: seq<string>,
    delivered: seq<string>,
    dropped: bool,             // the consumer has gone
    driver: Driver,
    waiter: Waiter,
    lingering: nat,            // waiters done but still holding their sender
    txHeld: bool,
    captured: bool,
    genClosed: bool)

  datatype Action = DrainStep(cut: bool) | DriverStep | WaiterStep | WaiterLeaves | Poll | Drop

  /** The asynchronous drivers without a loop skip `None`; the others send its text. */
  function Emit(kind: Kind, y: Yield): seq<string> {
    match y
    case Value(bytes) => [bytes]
    case Nothing => if kind == NoAwait then [] else ["None"]
  }

  /** The chunks of the first `n` items. */
  function Sent(b: Body, n: nat): seq<string>
    requires n <= |b.items|
  {
    if n == 0 then [] else Sent(b, n - 1) + Emit(b.kind, b.items[n - 1])
  }

  function Start(b: Body): State {
    State(b, 0, [], [], false, if b.kind == Loop || b.plain then Stepping else Draining, NoWaiter, 0, true, false, false)
  }

  function StepDrain(s: State, cut: bool): Option<State> {
    if !s.driver.Draining? then None
    else if |s.chan| >= CAPACITY then Some(s.(driver := Stepping))
    else if s.next >= |s.body.items| then Some(s.(driver := if s.body.raises then Raised else Leaving))
    else Some(s.(
      next := s.next + 1,
      chan := s.chan + Emit(s.body.kind, s.body.items[s.next]),
      driver := if cut then Stepping else Draining))
  }

  /** What becomes of a chunk just taken from the generator. */
  function Offer(s: State, chunk: string): State {
    if s.body.kind != Loop then s.(driver := Sending(chunk))
    else if s.dropped then s.(driver := Cleaning)
    else if |s.chan| < CAPACITY then s.(chan := s.chan + [chunk])
    else s.(driver := Parked, waiter := Holding(chunk))
  }

  function StepGenerator(s: State): State {
    if s.next >= |s.body.items| then s.(driver := if s.body.raises then Raised else Leaving) else
    var out, moved := Emit(s.body.kind, s.body.items[s.next]), s.(next := s.next + 1);
    if out == [] then moved else Offer(moved, out[0])
  }

  function StepDriver(s: State): Option<State> {
    match s.driver
    case Stepping => Some(StepGenerator(s))
    case Sending(chunk) =>
      if s.dropped then Some(s.(driver := Cleaning))
      else if |s.chan| < CAPACITY then Some(s.(chan := s.chan + [chunk], driver := Stepping))
      else None
    case Resumed(ok) => Some(s.(driver := if ok then Stepping else Cleaning))
    case Cleaning => Some(s.(genClosed := true, driver := Leaving))
    case Raised => Some(s.(captured := true, driver := Leaving))
    case Leaving => Some(s.(txHeld := false, driver := Exited))
    case _ => None
  }

  function StepWaiter(s: State): Option<State> {
    match s.waiter
    case Holding(chunk) =>
      if s.dropped then Some(s.(waiter := Settling(false)))
      else if |s.chan| < CAPACITY then Some(s.(chan := s.chan + [chunk], waiter := Settling(true)))
      else None
    case Settling(ok) => Some(s.(driver := Resumed(ok), waiter := NoWaiter, lingering := s.lingering + 1))
    case NoWaiter => None
  }

  function Step(s: State, a: Action): Option<State> {
    match a
    case DrainStep(cut) => StepDrain(s, cut)
    case DriverStep => StepDriver(s)
    case WaiterStep => StepWaiter(s)
    case WaiterLeaves => if s.lingering == 0 then None else Some(s.(lingering := s.lingering - 1))
    case Poll =>
      if s.driver.Draining? || s.dropped || s.chan == [] then None
      else Some(s.(delivered := s.delivered + [s.chan[0]], chan := s.chan[1..]))
    case Drop => if s.driver.Draining? || s.dropped then None else Some(s.(dropped := true, chan := []))
  }

  /** The chunk that has left the generator and is not in the channel. */
  function Hand(s: State): seq<string> {
    match s.waiter
    case Holding(chunk) => [chunk]
    case _ => if s.driver.Sending? then [s.driver.chunk] else []
  }

  ghost predicate Flow(s: State) {
    && s.next <= |s.body.items|
    && (!s.dropped ==> s.delivered + s.chan + Hand(s) == Sent(s.body, s.next))
    && s.delivered <= Sent(s.body, s.next)
    && |s.chan| <= CAPACITY
    && (s.dropped ==> s.chan == [])
  }

  ghost predicate Control(s: State) {
    && (s.driver.Parked? <==> s.waiter.Holding? || s.waiter.Settling?)
    && (s.waiter == Settling(false) || s.driver == Resumed(false) || s.driver.Cleaning? || s.genClosed ==> s.dropped)
    && (s.driver.Raised? || s.driver.Leaving? || s.driver.Exited? ==> s.genClosed || s.next == |s.body.items|)
    && (s.driver.Raised? || s.captured ==> s.body.raises)
    && (s.driver.Leaving? || s.driver.Exited? ==> s.genClosed || s.captured == s.body.raises)
    && (s.txHeld <==> !s.driver.Exited?)
    && (s.driver.Draining? ==> !s.dropped && s.delivered == [])
  }

  ghost predicate Inv(s: State) {
    Flow(s) && Control(s)
  }

  lemma GeneratorKeepsControl(s: State)
    requires Inv(s) && s.driver.Stepping?
    ensures Control(StepGenerator(s))
  {
  }

  lemma DriverKeepsControl(s: State)
    requires Inv(s) && StepDriver(s).Some?
    ensures Control(StepDriver(s).value)
  {
    if s.driver.Stepping? {
      GeneratorKeepsControl(s);
    }
  }

  lemma StepKeepsControl(s: State, a: Action)
    requires Inv(s) && Step(s, a).Some?
    ensures Control(Step(s, a).value)
  {
    if a.DriverStep? {
      DriverKeepsControl(s);
    }
  }

  lemma DrainKeepsFlow(s: State, cut: bool)
    requires Inv(s) && StepDrain(s, cut).Some?
    ensures Flow(StepDrain(s, cut).value)
  {
  }

  lemma OfferKeepsFlow(s: State, chunk: string, sent: seq<string>)
    requires s.driver.Stepping? && s.waiter.NoWaiter? && (!s.dropped ==> s.delivered + s.chan == sent)
    requires |s.chan| <= CAPACITY && (s.dropped ==> s.chan == [])
    ensures var t := Offer(s, chunk);
      && (!t.dropped ==> t.delivered + t.chan + Hand(t) == sent + [chunk])
      && |t.chan| <= CAPACITY && (t.dropped ==> t.chan == [])
      && t.body == s.body && t.next == s.next && t.delivered == s.delivered
  {
    if s.body.kind == Loop && !s.dropped && |s.chan| < CAPACITY {
      assert s.delivered + (s.chan + [chunk]) + [] == s.delivered + s.chan + [chunk];
    }
  }

  lemma GeneratorKeepsFlow(s: State)
    requires Flow(s) && s.driver.Stepping? && s.waiter.NoWaiter?
    ensures Flow(StepGenerator(s))
  {
    if s.next < |s.body.items| {
      var out, moved, sent := Emit(s.body.kind, s.body.items[s.next]), s.(next := s.next + 1), Sent(s.body, s.next);
      assert Sent(s.body, s.next + 1) == sent + out;
      if out != [] {
        assert out == [out[0]];
        OfferKeepsFlow(moved, out[0], sent);
      }
    }
  }

  lemma DriverKeepsFlow(s: State)
    requires Inv(s) && StepDriver(s).Some?
    ensures Flow(StepDriver(s).value)
  {
    if s.driver.Stepping? {
      GeneratorKeepsFlow(s);
    }
  }

  lemma WaiterKeepsFlow(s: State)
    requires Inv(s) && StepWaiter(s).Some?
    ensures Flow(StepWaiter(s).value)
  {
  }

  lemma PollKeepsFlow(s: State)
    requires Flow(s) && Step(s, Poll).Some?
    ensures Flow(Step(s, Poll).value)
  {
    var t := Step(s, Poll).value;
    assert s.delivered + s.chan == s.delivered + [s.chan[0]] + s.chan[1..];
    assert t.delivered + t.chan + Hand(t) == Sent(s.body, s.next);
  }

  lemma StepKeepsInv(s: State, a: Action)
    requires Inv(s) && Step(s, a).Some?
    ensures Inv(Step(s, a).value)
  {
    StepKeepsControl(s, a);
    match a
    case DrainStep(cut) => DrainKeepsFlow(s, cut);
    case DriverStep => DriverKeepsFlow(s);
    case WaiterStep => WaiterKeepsFlow(s);
    case WaiterLeaves =>
    case Poll => PollKeepsFlow(s);
    case Drop =>
  }

  lemma StepKeepsBody(s: State, a: Action)
    requires Step(s, a).Some?
    ensures Step(s, a).value.body == s.body
  {
  }

  lemma {:induction false} RunKeepsInv(b: Body, acts: seq<Action>)
    requires Exec(Step, Start(b), acts).Some?
    ensures Inv(Exec(Step, Start(b), acts).value) && Exec(Step, Start(b), acts).value.body == b
  {
    if acts == [] {
    } else {
      var front := acts[..|acts| - 1];
      RunKeepsInv(b, front);
      StepKeepsInv(Exec(Step, Start(b), front).value, acts[|acts| - 1]);
      StepKeepsBody(Exec(Step, Start(b), front).value, acts[|acts| - 1]);
    }
  }

  lemma {:induction false} SentGrows(b: Body, n: nat, m: nat)
    requires n <= m <= |b.items|
    ensures Sent(b, n) <= Sent(b, m)
  {
    if n == m {
    } else {
      SentGrows(b, n, m - 1);
    }
  }

  /** In every run, what the consumer has is what the generator yielded, in order and without
  gap or repetition; until the consumer drops, the rest is in the channel, but for one chunk. */
  lemma ChunksInOrder(b: Body, acts: seq<Action>)
    requires Exec(Step, Start(b), acts).Some?
    ensures var s := Exec(Step, Start(b), acts).value;
      && s.delivered <= Sent(b, |b.items|)
      && |s.chan| <= CAPACITY && |Hand(s)| <= 1
      && (!s.dropped ==> s.next <= |b.items| && s.delivered + s.chan + Hand(s) == Sent(b, s.next))
  {
    RunKeepsInv(b, acts);
    SentGrows(b, Exec(Step, Start(b), acts).value.next, |b.items|);
  }

  /** The consumer sees the end of the body: nothing queued and no sender left. */
  predicate AtEnd(s: State) {
    s.chan == [] && !s.txHeld && s.waiter.NoWaiter? && s.lingering == 0
  }

  /** A consumer that reads to the end has every chunk, and an exception raised on the way was
  captured before the channel closed. */
  lemma EndMeansAll(b: Body, acts: seq<Action>)
    requires Exec(Step, Start(b), acts).Some?
    ensures var s := Exec(Step, Start(b), acts).value;
      && (AtEnd(s) && !s.dropped ==> s.delivered == Sent(b, |b.items|))
      && (!s.txHeld && !s.dropped ==> s.captured == b.raises)
      && (!s.txHeld ==> s.genClosed || s.next == |b.items|)
      && (s.genClosed ==> s.dropped)
  {
    RunKeepsInv(b, acts);
  }

  // ---- Nothing gets stuck ----

  function DriverRank(d: Driver): nat {
    match d
    case Exited => 0
    case Leaving => 1
    case Raised => 2
    case Cleaning => 2
    case Stepping => 3
    case Resumed(_) => 4
    case Sending(_) => 5
    case Parked => 5
    case Draining => 6
  }

  function Work(s: State): nat
    requires s.next <= |s.body.items|
  {
    10 * (|s.body.items| - s.next) + DriverRank(s.driver) + |s.chan| + s.lingering +
    match s.waiter
    case NoWaiter => 0
    case Settling(_) => 4
    case Holding(_) => 6
  }

  /** A move that is always possible before the end. */
  function NextMove(s: State): Action {
    if s.driver.Draining? then DrainStep(true)
    else if s.chan != [] then Poll
    else if !s.waiter.NoWaiter? then WaiterStep
    else if !s.driver.Exited? then DriverStep
    else WaiterLeaves
  }

  lemma MovePossible(s: State)
    requires Inv(s) && !AtEnd(s)
    ensures Step(s, NextMove(s)).Some?
  {
  }

  lemma OfferCosts(s: State, chunk: string)
    requires s.next <= |s.body.items| && s.driver.Stepping? && s.waiter.NoWaiter?
    ensures var t := Offer(s, chunk); t.body == s.body && t.next == s.next && t.dropped == s.dropped && Work(t) < Work(s) + 10
  {
  }

  lemma GeneratorProgresses(s: State)
    requires s.next <= |s.body.items| && s.driver.Stepping? && s.waiter.NoWaiter?
    ensures var t := StepGenerator(s); t.next <= |t.body.items| && Work(t) < Work(s) && t.dropped == s.dropped
  {
    if s.next < |s.body.items| {
      var out, moved := Emit(s.body.kind, s.body.items[s.next]), s.(next := s.next + 1);
      assert Work(moved) == Work(s) - 10;
      if out != [] {
        OfferCosts(moved, out[0]);
      }
    }
  }

  lemma DriverProgresses(s: State)
    requires s.next <= |s.body.items| && StepDriver(s).Some? && (s.driver.Stepping? ==> s.waiter.NoWaiter?)
    ensures var t := StepDriver(s).value; t.next <= |t.body.items| && Work(t) < Work(s) && t.dropped == s.dropped
  {
    if s.driver.Stepping? {
      GeneratorProgresses(s);
    }
  }

  lemma DrainProgresses(s: State)
    requires s.next <= |s.body.items| && s.driver.Draining?
    ensures var t := StepDrain(s, true).value; t.next <= |t.body.items| && Work(t) < Work(s) && t.dropped == s.dropped
  {
  }

  lemma WaiterProgresses(s: State)
    requires s.next <= |s.body.items| && s.driver.Parked? && StepWaiter(s).Some?
    ensures var t := StepWaiter(s).value; t.next <= |t.body.items| && Work(t) < Work(s) && t.dropped == s.dropped
  {
  }

  lemma MoveProgresses(s: State)
    requires Inv(s) && !AtEnd(s) && Step(s, NextMove(s)).Some?
    ensures var t := Step(s, NextMove(s)).value; t.next <= |t.body.items| && Work(t) < Work(s) && t.dropped == s.dropped
  {
    match NextMove(s)
    case DrainStep(_) => DrainProgresses(s);
    case DriverStep => DriverProgresses(s);
    case WaiterStep => WaiterProgresses(s);
    case WaiterLeaves =>
    case Poll =>
    case Drop =>
  }

  lemma {:induction false} Finishes(s: State) returns (acts: seq<Action>)
    requires Inv(s)
    ensures Exec(Step, s, acts).Some? && AtEnd(Exec(Step, s, acts).value) && Exec(Step, s, acts).value.dropped == s.dropped
    decreases Work(s)
  {
    if AtEnd(s) {
      return [];
    }
    var a := NextMove(s);
    MovePossible(s);
    MoveProgresses(s);
    StepKeepsInv(s, a);
    var t := Step(s, a).value;
    var rest := Finishes(t);
    assert [a][..0] == [] && Exec(Step, s, [a]) == Some(t);
    Compose(Step, s, [a], rest);
    acts := [a] + rest;
  }

  /** From every state of every run the stream can be brought to its end: no chunk, waiter or
  driver is ever stuck, whether the consumer goes on reading or has gone. */
  lemma EndArrives(b: Body, acts: seq<Action>) returns (more: seq<Action>)
    requires Exec(Step, Start(b), acts).Some?
    ensures Exec(Step, Start(b), acts + more).Some? && AtEnd(Exec(Step, Start(b), acts + more).value)
    ensures Exec(Step, Start(b), acts + more).value.dropped == Exec(Step, Start(b), acts).value.dropped
  {
    RunKeepsInv(b, acts);
    more := Finishes(Exec(Step, Start(b), acts).value);
    Compose(Step, Start(b), acts, more);
  }

  // ---- The inline loop ----

  /** Inline, `next` items in. */
  function Inline(b: Body, next: nat, chan: seq<string>, driver: Driver): State {
    Start(b).(next := next, chan := chan, driver := driver)
  }

  ghost predicate DrainedTo(b: Body, acts: seq<Action>, next: nat, chan: seq<string>, driver: Driver) {
    Exec(Step, Start(b), acts) == Some(Inline(b, next, chan, driver))
  }

  lemma DrainTurn(b: Body, acts: seq<Action>, next: nat, chan: seq<string>, cut: bool)
    requires DrainedTo(b, acts, next, chan, Draining)
    ensures var after := acts + [DrainStep(cut)];
      if |chan| >= CAPACITY then DrainedTo(b, after, next, chan, Stepping)
      else if next >= |b.items| then DrainedTo(b, after, next, chan, if b.raises then Raised else Leaving)
      else DrainedTo(b, after, next + 1, chan + Emit(b.kind, b.items[next]), if cut then Stepping else Draining)
  {
    assert (acts + [DrainStep(cut)])[..|acts|] == acts;
  }

  /** `inline_drain_sync` and `inline_drain_noawait`: the loop is a run of the protocol above,
  so what is proved of all runs holds of it and of whatever follows. `late[k]` says whether the
  time budget is spent after step `k`. */
  method InlineDrain(b: Body, late: seq<bool>) returns (next: nat, chan: seq<string>, complete: bool, ghost acts: seq<Action>)
    requires b.kind != Loop && !b.plain
    ensures DrainedTo(b, acts, next, chan, if !complete then Stepping else if b.raises then Raised else Leaving)
    ensures complete ==> next == |b.items|
    ensures next <= |b.items| && chan == Sent(b, next) && |chan| <= CAPACITY
  {
    next, chan, acts := 0, [], [];
    while true
      invariant next <= |b.items| && chan == Sent(b, next) && |chan| <= CAPACITY
      invariant DrainedTo(b, acts, next, chan, Draining)
      decreases |b.items| - next
    {
      var cut := next < |late| && late[next];
      DrainTurn(b, acts, next, chan, cut);
      acts := acts + [DrainStep(cut)];
      if |chan| == CAPACITY {
        return next, chan, false, acts;
      }
      if next == |b.items| {
        return next, chan, true, acts;
      }
      chan := chan + Emit(b.kind, b.items[next]);
      next := next + 1;
      if cut {
        return next, chan, false, acts;
      }
    }
  }
}
