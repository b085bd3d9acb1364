/** The receive half of the WebSocket bridge (src/websocket.rs): the per-connection reader
task pushes inbound frames into a channel and fires a one-slot wake; the handler pulls
frames in batches and, in loop mode, suspends on an asyncio future when the channel is empty.

Every atomic operation, channel operation and lock-protected slot access is one step, so
the reader may run between any two of the handler's. Atomics are sequentially consistent. */
module WsReceive {
  import opened Runs

  type Future = nat

  const BATCH_DRAIN_CAP := 64

  /** Where the reader goes once its current `LoopWake::fire` is over. */
  datatype Then = ToRead | ToTeardown | ToExit

  datatype Reader =
    | Reading
    | Swapping(goal: Then)             // about to swap `armed`
    | Taking(goal: Then)               // swapped true, about to take the slot
    | Resolving(fut: Future, goal: Then)
    | Dropping                         // about to drop the inbound sender
    | Exited

  datatype Handler<M> =
    | Running                                   // user code, outside any receive
    | Popping                                   // `__next__`: batch buffer first
    | Pulling                                   // first `try_pull`
    | Draining(first: M, armedFor: Option<Future>)  // moving the burst into the buffer
    | Creating                                  // flushed, about to create the future
    | Storing(fut: Future)                      // about to publish it in the slot
    | Arming(fut: Future)                       // about to set `armed`
    | Rechecking(fut: Future)                   // second `try_pull`, after arming
    | Disarming(pulled: Option<M>)              // second pull settled it; clear `armed`
    | Suspended(fut: Future)
    | Parked                                    // thread mode: blocking `recv`
    | Raised                                    // receive raised: channel closed

  datatype State<M> = State(
    loopMode: bool,
    pushed: seq<M>,          // history: every frame the reader sent, in order
    delivered: seq<M>,       // history: every frame a receive returned, in order
    chan: seq<M>,
    closed: bool,            // inbound sender dropped
    buf: seq<M>,
    armed: bool,
    slot: Option<Future>,
    created: nat,            // futures 0..created exist
    scheduled: set<Future>,  // handed to `call_soon_threadsafe`, not yet run
    resolved: set<Future>,
    reader: Reader,
    handler: Handler<M>)

  datatype Action<M> =
    | ReadFrame(frame: M)
    | ReadClose(frame: M)
    | ReadEnd                // stream ended, failed, or the server closed first
    | ReaderStep
    | CallbackStep(fut: Future)
    | CallReceive
    | CancelReceive          // the awaiting task is cancelled, by `asyncio.wait_for` for one
    | HandlerStep

  function Init<M>(loopMode: bool): State<M> {
    State(loopMode, [], [], [], false, [], false, None, 0, {}, {}, Reading, Running)
  }

  function After(goal: Then): Reader {
    match goal
    case ToRead => Reading
    case ToTeardown => Dropping
    case ToExit => Exited
  }

  /** One step of `LoopWake::fire`, or the sender drop that precedes the last one. */
  function StepReader<M>(s: State<M>): Option<State<M>> {
    match s.reader
    case Reading => None
    case Swapping(goal) =>
      if s.armed then Some(s.(armed := false, reader := Taking(goal))) else Some(s.(reader := After(goal)))
    case Taking(goal) =>
      if s.slot.Some? then Some(s.(slot := None, reader := Resolving(s.slot.value, goal)))
      else Some(s.(reader := After(goal)))
    case Resolving(fut, goal) => Some(s.(scheduled := s.scheduled + {fut}, reader := After(goal)))
    case Dropping => Some(s.(closed := true, reader := Swapping(ToExit)))
    case Exited => None
  }

  function Deliver<M>(s: State<M>, frame: M): State<M> {
    s.(delivered := s.delivered + [frame], handler := Running)
  }

  /** `try_recv` succeeded: hold the first frame, then drain the burst behind it. */
  function Pull<M>(s: State<M>, armedFor: Option<Future>): State<M>
    requires s.chan != []
  {
    s.(chan := s.chan[1..], handler := Draining(s.chan[0], armedFor))
  }

  function StepHandler<M>(s: State<M>): Option<State<M>> {
    match s.handler
    case Running => None
    case Popping =>
      if s.buf != [] then Some(Deliver(s.(buf := s.buf[1..]), s.buf[0]))
      else Some(s.(handler := if s.loopMode then Pulling else Parked))
    case Pulling =>
      if s.chan != [] then Some(Pull(s, None))
      else Some(s.(handler := if s.closed then Raised else Creating))
    case Draining(first, armedFor) =>
      if |s.buf| < BATCH_DRAIN_CAP && s.chan != [] then
        Some(s.(chan := s.chan[1..], buf := s.buf + [s.chan[0]]))
      else if armedFor.Some? then Some(s.(handler := Disarming(Some(first))))
      else Some(Deliver(s, first))
    case Creating => Some(s.(created := s.created + 1, handler := Storing(s.created)))
    case Storing(fut) => Some(s.(slot := Some(fut), handler := Arming(fut)))
    case Arming(fut) => Some(s.(armed := true, handler := Rechecking(fut)))
    case Rechecking(fut) =>
      if s.chan != [] then Some(Pull(s, Some(fut)))
      else Some(s.(handler := if s.closed then Disarming(None) else Suspended(fut)))
    case Disarming(pulled) =>
      var t := s.(armed := false);
      if pulled.Some? then Some(Deliver(t, pulled.value)) else Some(t.(handler := Raised))
    case Suspended(fut) => if fut in s.resolved then Some(s.(handler := Popping)) else None
    case Parked =>
      if s.chan != [] then Some(Pull(s, None))
      else if s.closed then Some(s.(handler := Raised))
      else None
    case Raised => None
  }

  function Step<M>(s: State<M>, a: Action<M>): Option<State<M>> {
    match a
    case ReadFrame(m) =>
      if s.reader != Reading then None
      else Some(s.(pushed := s.pushed + [m], chan := s.chan + [m], reader := Swapping(ToRead)))
    case ReadClose(m) =>
      if s.reader != Reading then None
      else Some(s.(pushed := s.pushed + [m], chan := s.chan + [m], reader := Swapping(ToTeardown)))
    case ReadEnd => if s.reader != Reading then None else Some(s.(reader := Dropping))
    case ReaderStep => StepReader(s)
    case CallbackStep(fut) =>
      if fut !in s.scheduled then None
      else Some(s.(scheduled := s.scheduled - {fut}, resolved := s.resolved + {fut}))
    case CallReceive =>
      if s.handler == Running || s.handler == Raised then Some(s.(handler := Popping)) else None
    case CancelReceive => if s.handler.Suspended? then Some(s.(handler := Running)) else None
    case HandlerStep => StepHandler(s)
  }

  // ---- Frames are neither lost, duplicated nor reordered ----

  /** The frame a receive has pulled but not yet returned. */
  function InHand<M>(h: Handler<M>): seq<M> {
    match h
    case Draining(first, _) => [first]
    case Disarming(Some(first)) => [first]
    case _ => []
  }

  /** The receive in progress started on an empty batch buffer and has not refilled it. */
  predicate BufferDrained<M>(h: Handler<M>) {
    match h
    case Running | Popping | Draining(_, _) | Raised => false
    case Disarming(pulled) => pulled.None?
    case _ => true
  }

  ghost predicate Ordered<M>(s: State<M>) {
    && s.pushed == s.delivered + InHand(s.handler) + s.buf + s.chan
    && (BufferDrained(s.handler) ==> s.buf == [])
    && |s.buf| <= BATCH_DRAIN_CAP
  }

  // ---- Lost wakeups ----

  /** `fut` is resolved or sure to be, whatever the handler and the peer do. */
  ghost predicate Woken<M>(s: State<M>, fut: Future) {
    || fut in s.resolved
    || fut in s.scheduled
    || (s.reader.Resolving? && s.reader.fut == fut)
  }

  /** A future the handler relies on is woken, or still in the slot for the next `fire`. */
  ghost predicate Reachable<M>(s: State<M>, fut: Future) {
    Woken(s, fut) || (s.slot == Some(fut) && (s.armed || s.reader.Taking?))
  }

  /** The reader is in, or past, the wake it fires after dropping the sender. */
  predicate LastFire(r: Reader) {
    match r
    case Swapping(goal) => goal == ToExit
    case Taking(goal) => goal == ToExit
    case Resolving(_, goal) => goal == ToExit
    case Exited => true
    case _ => false
  }

  ghost predicate WakeInv<M>(s: State<M>) {
    && (s.handler.Arming? ==> Woken(s, s.handler.fut) || s.slot == Some(s.handler.fut))
    && (s.handler.Rechecking? || s.handler.Suspended? ==> Reachable(s, s.handler.fut))
    && (s.handler.Suspended? && !Woken(s, s.handler.fut) && (s.chan != [] || s.closed)
        ==> s.reader.Swapping? || s.reader.Taking?)
    && (LastFire(s.reader) ==> s.closed)
  }

  ghost predicate Inv<M>(s: State<M>) {
    Ordered(s) && WakeInv(s)
  }

  lemma ReaderKeepsWake<M>(s: State<M>)
    requires WakeInv(s) && StepReader(s).Some?
    ensures WakeInv(StepReader(s).value)
  {
    match s.reader
    case Resolving(fut, _) => assert forall f :: Woken(s, f) ==> Woken(StepReader(s).value, f);
    case _ =>
  }

  /** Moving the head of the channel behind `left` changes nothing in the whole. */
  lemma MoveHead<M>(left: seq<M>, chan: seq<M>)
    requires chan != []
    ensures left + [chan[0]] + chan[1..] == left + chan
  {
    assert chan == [chan[0]] + chan[1..];
  }

  lemma PullKeepsOrdered<M>(s: State<M>, armedFor: Option<Future>)
    requires Ordered(s) && BufferDrained(s.handler) && s.chan != []
    ensures Ordered(Pull(s, armedFor))
  {
    MoveHead(s.delivered, s.chan);
  }

  lemma DrainKeepsOrdered<M>(s: State<M>)
    requires Ordered(s) && s.handler.Draining?
    ensures Ordered(StepHandler(s).value)
  {
    var before := s.delivered + InHand(s.handler);
    if |s.buf| < BATCH_DRAIN_CAP && s.chan != [] {
      MoveHead(before + s.buf, s.chan);
      assert before + (s.buf + [s.chan[0]]) == before + s.buf + [s.chan[0]];
    } else {
      var t := StepHandler(s).value;
      assert t.delivered + InHand(t.handler) == before;
    }
  }

  lemma PopKeepsOrdered<M>(s: State<M>)
    requires Ordered(s) && s.handler.Popping?
    ensures Ordered(StepHandler(s).value)
  {
    if s.buf != [] {
      MoveHead(s.delivered, s.buf);
    }
  }

  lemma HandlerKeepsOrdered<M>(s: State<M>)
    requires Ordered(s) && StepHandler(s).Some?
    ensures Ordered(StepHandler(s).value)
  {
    match s.handler
    case Popping => PopKeepsOrdered(s);
    case Draining(_, _) => DrainKeepsOrdered(s);
    case Pulling | Parked => if s.chan != [] { PullKeepsOrdered(s, None); }
    case Rechecking(fut) => if s.chan != [] { PullKeepsOrdered(s, Some(fut)); }
    case _ =>
  }

  lemma HandlerKeepsWake<M>(s: State<M>)
    requires WakeInv(s) && StepHandler(s).Some?
    ensures WakeInv(StepHandler(s).value)
  {
    match s.handler
    case Storing(fut) =>
    case Arming(fut) => assert Woken(s, fut) ==> Woken(StepHandler(s).value, fut);
    case Rechecking(fut) => assert Woken(s, fut) ==> Woken(StepHandler(s).value, fut);
    case _ =>
  }

  lemma StepKeepsInv<M>(s: State<M>, a: Action<M>)
    requires Inv(s) && Step(s, a).Some?
    ensures Inv(Step(s, a).value)
  {
    match a
    case ReaderStep => ReaderKeepsWake(s);
    case HandlerStep => HandlerKeepsOrdered(s); HandlerKeepsWake(s);
    case _ =>
  }

  /** Every run keeps the invariant, in either mode. */
  lemma {:induction false} RunKeepsInv<M>(loopMode: bool, acts: seq<Action<M>>)
    requires Exec(Step<M>, Init(loopMode), acts).Some?
    ensures Inv(Exec(Step<M>, Init(loopMode), acts).value)
  {
    if acts == [] {
    } else {
      var front := acts[..|acts| - 1];
      RunKeepsInv(loopMode, front);
      StepKeepsInv(Exec(Step<M>, Init(loopMode), front).value, acts[|acts| - 1]);
    }
  }

  // ---- Main results ----

  /** After any interleaving, what receives returned, then what they hold, then the batch
  buffer, then the channel, is exactly what the peer sent. */
  lemma FramesInOrder<M>(loopMode: bool, acts: seq<Action<M>>)
    requires Exec(Step<M>, Init(loopMode), acts).Some?
    ensures var s := Exec(Step<M>, Init(loopMode), acts).value;
            s.pushed == s.delivered + InHand(s.handler) + s.buf + s.chan
  {
    RunKeepsInv(loopMode, acts);
  }

  /** A handler suspended on `fut` while a frame (or the end of the stream) is there to be
  seen: the reader is inside the very `fire` that resolves `fut`, or has done so. */
  lemma NoLostWakeup<M>(loopMode: bool, acts: seq<Action<M>>)
    requires Exec(Step<M>, Init(loopMode), acts).Some?
    ensures var s := Exec(Step<M>, Init(loopMode), acts).value;
            s.handler.Suspended? && (s.chan != [] || s.closed) ==>
              var fut := s.handler.fut;
              || fut in s.resolved + s.scheduled
              || (s.reader.Resolving? && s.reader.fut == fut)
              || (s.slot == Some(fut) && (s.reader.Taking? || (s.reader.Swapping? && s.armed)))
  {
    RunKeepsInv(loopMode, acts);
  }

  /** How many more reader steps the current `fire` can take. */
  function FireLeft(r: Reader): nat {
    match r
    case Swapping(_) => 3
    case Taking(_) => 2
    case Resolving(_, _) => 1
    case _ => 0
  }

  /** The reader and loop-callback steps that finish the pending wake of `fut`. */
  function WakeSchedule<M>(s: State<M>, fut: Future): seq<Action<M>>
    decreases FireLeft(s.reader)
  {
    if fut in s.resolved then []
    else if fut in s.scheduled then [CallbackStep(fut)]
    else if FireLeft(s.reader) == 0 then []
    else
      var t := StepReader(s).value;
      if FireLeft(t.reader) < FireLeft(s.reader) then [ReaderStep] + WakeSchedule(t, fut) else []
  }

  /** From every state in which the handler waits with something to receive, at most four
  steps of the reader and the event loop (and none of the handler or the peer) wake it. */
  lemma {:induction false} WakeArrives<M>(s: State<M>)
    requires Inv(s) && s.handler.Suspended? && (s.chan != [] || s.closed)
    ensures var acts := WakeSchedule(s, s.handler.fut);
            && |acts| <= FireLeft(s.reader) + 1
            && Exec(Step<M>, s, acts).Some?
            && var t := Exec(Step<M>, s, acts).value;
               t.handler == s.handler && t.chan == s.chan && s.handler.fut in t.resolved
    decreases FireLeft(s.reader)
  {
    var fut := s.handler.fut;
    var acts := WakeSchedule(s, fut);
    if fut in s.resolved {
    } else if fut in s.scheduled {
      assert acts[..0] == [];
    } else {
      var t := StepReader(s).value;
      StepKeepsInv(s, ReaderStep);
      WakeArrives(t);
      var one: seq<Action<M>> := [ReaderStep];
      assert one[..0] == [];
      assert Exec(Step<M>, s, one) == Some(t);
      Compose(Step<M>, s, one, WakeSchedule(t, fut));
    }
  }
}
