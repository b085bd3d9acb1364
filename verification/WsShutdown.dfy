/** How the select task's teardown answers `close_and_wait` (src/websocket.rs): the Close
frame and a flush request travel the command channel in that order, through a waiter when
the channel is full, and whoever finds the request undeliverable answers it at once.

The handler awaits each data frame and closes once, as the Python wrapper enforces. A send
on the channel, with its capacity permit, is one step. Direct sends happen only while
nothing is queued, which the outbound model proves. A sink that breaks stays broken: it
swallows direct frames without a word, and fails the next write of the select task. */
module WsShutdown {
  import opened Runs

  const WS_OUT_CAP := 256

  datatype Cmd = Data | Close | Flush

  datatype Handler =
    | Idle
    | Pushing(cmds: seq<Cmd>, closing: bool)   // `queue_send` or `queue_seq`: still to be pushed
    | Waiting                                  // a waiter has the frame
    | Closed                                   // `queue_seq` has returned; awaiting the ack, if asked for

  datatype Select =
    | NotStarted
    | Looping
    | Writing(cmd: Cmd)
    | Ending                    // left the loop, about to close the channel
    | Draining
    | Gone

  datatype State = State(
    bounded: bool,
    chan: seq<Cmd>,
    chanClosed: bool,
    waiter: seq<Cmd>,
    handler: Handler,
    select: Select,
    issued: nat,        // history: frames sent by the handler
    written: nat,       // history: frames handed to the sink successfully
    broken: bool,
    endedEarly: bool,   // history: the loop ended other than by writing the handler's Close
    wantsAck: bool,
    acked: bool)

  datatype Action =
    | DirectSend
    | CallSend
    | CallClose(wait: bool)
    | HandlerStep
    | WaiterStep
    | SelectStep(ok: bool)   // `ok`: what the sink answers to a write
    | PeerEnds               // peer closed, stream ended or failed
    | SinkBreaks

  function Init(bounded: bool): State {
    State(bounded, [], false, [], Idle, NotStarted, 0, 0, false, false, false, false)
  }

  predicate Full(s: State) {
    s.bounded && |s.chan| >= WS_OUT_CAP
  }

  /** A command nobody can deliver any more: a frame is dropped, a flush request answered. */
  function Discard(s: State, cmd: Cmd): State {
    if cmd == Flush then s.(acked := true) else s
  }

  function HandlerCmds(h: Handler): seq<Cmd> {
    if h.Pushing? then h.cmds else []
  }

  function StepHandler(s: State): Option<State> {
    match s.handler
    case Idle => None
    case Pushing(cmds, closing) =>
      if cmds == [] then Some(s.(handler := if closing then Closed else Idle))
      else if s.chanClosed then Some(Discard(s, cmds[0]).(handler := Pushing(cmds[1..], closing)))
      else if Full(s) then Some(s.(waiter := cmds, handler := if closing then Closed else Waiting))
      else Some(s.(chan := s.chan + [cmds[0]], handler := Pushing(cmds[1..], closing)))
    case Waiting => if s.waiter == [] then Some(s.(handler := Idle)) else None
    case Closed => None
  }

  function StepWaiter(s: State): Option<State> {
    if s.waiter == [] then None
    else if s.chanClosed then Some(Discard(s, s.waiter[0]).(waiter := s.waiter[1..]))
    else if Full(s) then None
    else Some(s.(chan := s.chan + [s.waiter[0]], waiter := s.waiter[1..]))
  }

  /** The select loop has taken `cmd`. */
  function Fetch(s: State, cmd: Cmd): State {
    if cmd == Flush then s.(acked := true) else s.(select := Writing(cmd))
  }

  function StepSelect(s: State, ok: bool): Option<State> {
    match s.select
    case NotStarted => Some(s.(select := Looping))
    case Looping =>
      if s.chan == [] then None
      else Some(Fetch(s.(chan := s.chan[1..]), s.chan[0]))
    case Writing(cmd) =>
      if !ok || s.broken then Some(s.(broken := true, endedEarly := true, select := Ending))
      else Some(s.(written := s.written + 1, select := if cmd == Close then Ending else Looping))
    case Ending => Some(s.(chanClosed := true, select := Draining))
    case Draining =>
      if s.chan != [] then Some(Discard(s.(chan := s.chan[1..]), s.chan[0])) else Some(s.(select := Gone))
    case Gone => None
  }

  function Step(s: State, a: Action): Option<State> {
    match a
    case DirectSend =>
      if s.handler != Idle || s.chan + s.waiter != [] || s.select.Writing? then None
      else if s.select.NotStarted? || s.select.Gone? then None   // no write half to lock
      else Some(s.(issued := s.issued + 1, written := if s.broken then s.written else s.written + 1))
    case CallSend =>
      if s.handler != Idle then None else Some(s.(issued := s.issued + 1, handler := Pushing([Data], false)))
    case CallClose(wait) =>
      if s.handler != Idle then None
      else
        Some(s.(issued := s.issued + 1, wantsAck := wait,
                handler := Pushing(if wait then [Close, Flush] else [Close], true)))
    case HandlerStep => StepHandler(s)
    case WaiterStep => StepWaiter(s)
    case SelectStep(ok) => StepSelect(s, ok)
    case PeerEnds => if s.select == Looping then Some(s.(endedEarly := true, select := Ending)) else None
    case SinkBreaks => Some(s.(broken := true))
  }

  // ---- Invariant ----

  predicate Closing(h: Handler) {
    h == Closed || (h.Pushing? && h.closing)
  }

  /** The select task has taken the handler's Close, or is past taking anything. */
  predicate CloseTaken(c: Select) {
    c == Writing(Close) || c.Ending? || c.Draining? || c.Gone?
  }

  /** Everything on the channel path, in delivery order. */
  function Rest(s: State): seq<Cmd> {
    s.chan + s.waiter + HandlerCmds(s.handler)
  }

  predicate FlushPending(s: State) {
    s.wantsAck && !s.acked
  }

  /** `cmds` is data frames, then the Close if `close`, then the flush request if `flush`. */
  predicate Shape(cmds: seq<Cmd>, close: bool, flush: bool) {
    var n := |cmds| - (if close then 1 else 0) - (if flush then 1 else 0);
    && n >= 0
    && (forall i :: 0 <= i < n ==> cmds[i] == Data)
    && (close ==> cmds[n] == Close)
    && (flush ==> cmds[|cmds| - 1] == Flush)
  }

  /** The flush request is somewhere on its way exactly until it is answered. */
  ghost predicate AckInv(s: State) {
    && (s.chanClosed <==> s.select.Draining? || s.select.Gone?)
    && (s.select.Gone? ==> s.chan == [])
    && (s.waiter != [] ==> s.handler == Waiting || s.handler == Closed)
    && (s.wantsAck ==> Closing(s.handler))
    && (s.acked ==> s.wantsAck)
    && (FlushPending(s) ==> Flush in s.chan || Flush in s.waiter || Flush in HandlerCmds(s.handler))
    && (Flush in s.chan || Flush in s.waiter || Flush in HandlerCmds(s.handler) ==> s.wantsAck)
  }

  /** Until the loop ends the path holds data, then the Close, then the flush request; and
  while the sink is sound every frame issued is written, being written, or on the path. */
  ghost predicate PathInv(s: State) {
    && (!CloseTaken(s.select) ==>
          && !s.acked
          && Shape(Rest(s), Closing(s.handler), s.wantsAck)
          && (s.broken || s.issued == s.written + |Rest(s)| - (if s.wantsAck then 1 else 0) + (if s.select.Writing? then 1 else 0)))
    && (s.select == Writing(Close) ==> (s.broken || s.issued == s.written + 1) && Closing(s.handler) && !s.acked)
    && (s.select.Writing? ==> s.select.cmd != Flush)
    && ((s.select.Ending? || s.select.Draining? || s.select.Gone?) && !s.endedEarly ==>
          s.issued == s.written && Closing(s.handler))
  }

  ghost predicate Inv(s: State) {
    AckInv(s) && PathInv(s)
  }

  /** Both ends of a head move: membership is kept, and so is the concatenation. */
  lemma MoveHead(src: seq<Cmd>, dst: seq<Cmd>, x: Cmd)
    requires src != []
    ensures x in src <==> x == src[0] || x in src[1..]
    ensures x in dst + [src[0]] <==> x in dst || x == src[0]
    ensures (dst + [src[0]]) + src[1..] == dst + src
  {
    assert src == [src[0]] + src[1..];
  }

  lemma PushKeepsAck(s: State)
    requires AckInv(s) && s.handler.Pushing?
    ensures AckInv(StepHandler(s).value)
  {
    if s.handler.cmds != [] {
      MoveHead(s.handler.cmds, s.chan, Flush);
    }
  }

  lemma DeliverKeepsPath(s: State)
    requires Inv(s) && s.handler.Pushing? && s.handler.cmds != [] && !s.chanClosed
    ensures PathInv(StepHandler(s).value)
  {
    var t, cmds := StepHandler(s).value, s.handler.cmds;
    assert s.waiter == [];
    assert Rest(s) == s.chan + cmds;
    if Full(s) {
      assert Rest(t) == s.chan + cmds + [];
    } else {
      MoveHead(cmds, s.chan, Flush);
      assert Rest(t) == s.chan + [cmds[0]] + cmds[1..];
    }
    assert Rest(t) == Rest(s) && Closing(t.handler) == Closing(s.handler);
  }

  lemma PushKeepsPath(s: State)
    requires Inv(s) && s.handler.Pushing?
    ensures PathInv(StepHandler(s).value)
  {
    if s.handler.cmds != [] && !s.chanClosed {
      DeliverKeepsPath(s);
    }
  }

  lemma WaiterKeepsAck(s: State)
    requires AckInv(s) && StepWaiter(s).Some?
    ensures AckInv(StepWaiter(s).value)
  {
    MoveHead(s.waiter, s.chan, Flush);
  }

  lemma WaiterKeepsPath(s: State)
    requires Inv(s) && StepWaiter(s).Some?
    ensures PathInv(StepWaiter(s).value)
  {
    MoveHead(s.waiter, s.chan, Flush);
    assert !s.chanClosed ==> Rest(StepWaiter(s).value) == Rest(s);
  }

  lemma ShapeTail(cmds: seq<Cmd>, close: bool, flush: bool)
    requires Shape(cmds, close, flush) && cmds != [] && (flush ==> close)
    ensures cmds[0] != Flush
    ensures cmds[0] == Data ==> Shape(cmds[1..], close, flush)
    ensures cmds[0] == Close ==> close && |cmds| == if flush then 2 else 1
  {
  }

  lemma FetchKeepsAck(s: State)
    requires AckInv(s) && s.select.Looping? && s.chan != [] && s.chan[0] != Flush
    ensures AckInv(StepSelect(s, true).value)
  {
    MoveHead(s.chan, [], Flush);
  }

  lemma FetchKeepsPath(s: State)
    requires Inv(s) && s.select.Looping? && s.chan != []
    ensures s.chan[0] != Flush && PathInv(StepSelect(s, true).value)
  {
    var t := StepSelect(s, true).value;
    assert Rest(s)[0] == s.chan[0];
    ShapeTail(Rest(s), Closing(s.handler), s.wantsAck);
    assert Rest(t) == Rest(s)[1..];
  }

  lemma FetchKeepsInv(s: State)
    requires Inv(s) && s.select.Looping? && s.chan != []
    ensures Inv(StepSelect(s, true).value)
  {
    FetchKeepsPath(s);
    FetchKeepsAck(s);
  }

  lemma WriteKeepsInv(s: State, ok: bool)
    requires Inv(s) && s.select.Writing?
    ensures Inv(StepSelect(s, ok).value)
  {
    assert Rest(StepSelect(s, ok).value) == Rest(s);
  }

  lemma TeardownKeepsInv(s: State, ok: bool)
    requires Inv(s) && (s.select.Ending? || s.select.Draining?)
    ensures Inv(StepSelect(s, ok).value)
  {
    if s.chan != [] {
      MoveHead(s.chan, [], Flush);
    }
  }

  lemma CallKeepsInv(s: State, a: Action)
    requires Inv(s) && Step(s, a).Some? && (a.DirectSend? || a.CallSend? || a.CallClose?)
    ensures Inv(Step(s, a).value)
  {
    var t := Step(s, a).value;
    assert s.waiter == [];
    assert Rest(t) == Rest(s) + HandlerCmds(t.handler);
  }

  lemma StepKeepsInv(s: State, a: Action)
    requires Inv(s) && Step(s, a).Some?
    ensures Inv(Step(s, a).value)
  {
    match a
    case HandlerStep => if s.handler.Pushing? { PushKeepsAck(s); PushKeepsPath(s); }
    case WaiterStep => WaiterKeepsAck(s); WaiterKeepsPath(s);
    case SelectStep(ok) =>
      if s.select.Looping? {
        FetchKeepsInv(s);
      } else if s.select.Writing? {
        WriteKeepsInv(s, ok);
      } else if s.select.Ending? || s.select.Draining? {
        TeardownKeepsInv(s, ok);
      }
    case PeerEnds =>
    case SinkBreaks =>
    case _ => CallKeepsInv(s, a);
  }

  lemma {:induction false} RunKeepsInv(bounded: bool, acts: seq<Action>)
    requires Exec(Step, Init(bounded), acts).Some?
    ensures Inv(Exec(Step, Init(bounded), acts).value)
  {
    if acts == [] {
    } else {
      var front := acts[..|acts| - 1];
      RunKeepsInv(bounded, front);
      StepKeepsInv(Exec(Step, Init(bounded), front).value, acts[|acts| - 1]);
    }
  }

  // ---- Main results ----

  /** An answered flush request means the loop is over; and unless the connection ended or the
  sink broke first, every frame the handler sent, its Close included, had been written by then.
  A frame that a broken sink swallowed is not overlooked: the Close behind it cannot be written. */
  lemma AckMeansWritten(bounded: bool, acts: seq<Action>)
    requires Exec(Step, Init(bounded), acts).Some?
    ensures var s := Exec(Step, Init(bounded), acts).value;
            s.acked ==> (s.select.Ending? || s.select.Draining? || s.select.Gone?) && (s.endedEarly || s.written == s.issued)
  {
    RunKeepsInv(bounded, acts);
  }

  /** Teardown leaves no flush request behind: once the select task is gone, an unanswered
  one is still with the handler or its waiter, who will find the channel closed. */
  lemma NoAckLost(bounded: bool, acts: seq<Action>)
    requires Exec(Step, Init(bounded), acts).Some?
    ensures var s := Exec(Step, Init(bounded), acts).value;
            && (s.select.Gone? && s.wantsAck ==> s.acked || Flush in s.waiter || Flush in HandlerCmds(s.handler))
            && (s.select.Gone? && s.wantsAck && s.waiter == [] && s.handler == Closed ==> s.acked)
  {
    RunKeepsInv(bounded, acts);
  }

  /** Steps left to the select task and the waiter; each of their steps uses some up. */
  function Work(s: State): nat {
    4 * |s.waiter| + 3 * |s.chan| + SelectLeft(s.select)
  }

  function SelectLeft(c: Select): nat {
    match c
    case NotStarted => 3
    case Looping => 2
    case Writing(_) => 4
    case Ending => 2
    case Draining => 1
    case Gone => 0
  }

  /** `t` is nearer the end than `s`, and the handler is where it was. */
  predicate Nearer(s: State, t: State) {
    Work(t) < Work(s) && t.handler == s.handler && t.wantsAck == s.wantsAck
  }

  /** Taking a command off the channel makes up for having to write it. */
  lemma TakeProgress(s: State, chan: seq<Cmd>, cmd: Cmd)
    requires |s.chan| == |chan| + 1
    ensures s.select.Looping? ==> Nearer(s, Fetch(s.(chan := chan), cmd))
    ensures Nearer(s, Discard(s.(chan := chan), cmd))
  {
  }

  lemma MoveProgress(s: State, ok: bool)
    requires StepSelect(s, ok).Some? && !s.select.Looping? && (s.select.Draining? ==> s.chan == [])
    ensures Nearer(s, StepSelect(s, ok).value)
  {
    match s.select
    case NotStarted => assert Nearer(s, StepSelect(s, ok).value);
    case Writing(_) => assert Nearer(s, StepSelect(s, ok).value);
    case Ending => assert Nearer(s, StepSelect(s, ok).value);
    case Draining => assert Nearer(s, StepSelect(s, ok).value);
  }

  /** Whatever the sink answers. */
  lemma SelectProgress(s: State, ok: bool)
    requires StepSelect(s, ok).Some?
    ensures Nearer(s, StepSelect(s, ok).value)
  {
    if s.select.Looping? || (s.select.Draining? && s.chan != []) {
      TakeProgress(s, s.chan[1..], s.chan[0]);
    } else {
      MoveProgress(s, ok);
    }
  }

  lemma WaiterProgress(s: State)
    requires StepWaiter(s).Some?
    ensures Nearer(s, StepWaiter(s).value)
  {
  }

  /** Where the select task cannot move on, the request is with the waiter, who can. */
  lemma WaiterCanMove(s: State)
    requires AckInv(s) && s.handler == Closed && FlushPending(s) && s.chan == [] && (s.chanClosed || !s.select.Gone?)
    ensures StepWaiter(s).Some?
  {
    assert Flush in s.waiter;
  }

  /** The select task or the waiter has a step to take; the sink's answer does not matter. */
  predicate CanMove(s: State) {
    StepWaiter(s).Some? || (StepSelect(s, true).Some? && StepSelect(s, false).Some?)
  }

  lemma AckAwaited(s: State)
    requires Inv(s) && s.handler == Closed && FlushPending(s)
    ensures CanMove(s)
  {
    if s.select.Gone? || (s.select.Looping? && s.chan == []) {
      WaiterCanMove(s);
    }
  }

  /** A step of the select task or of the waiter, and no one else's. */
  predicate Internal(a: Action) {
    a.SelectStep? || a.WaiterStep?
  }

  /** A handler that called `close_and_wait` is never stranded. In whatever order the select task
  and the waiter move, and whatever the sink answers, they take no more steps than `Work` says,
  and they can go on until the flush request is answered. */
  lemma {:induction false} AckArrives(s: State, acts: seq<Action>)
    requires Inv(s) && s.handler == Closed && s.wantsAck
    requires Exec(Step, s, acts).Some? && forall i :: 0 <= i < |acts| ==> Internal(acts[i])
    ensures var t := Exec(Step, s, acts).value;
            && Inv(t) && t.handler == Closed && t.wantsAck
            && |acts| + Work(t) <= Work(s)
            && (t.acked || CanMove(t))
  {
    if acts == [] {
      if !s.acked {
        AckAwaited(s);
      }
    } else {
      var front, a := acts[..|acts| - 1], acts[|acts| - 1];
      AckArrives(s, front);
      var u := Exec(Step, s, front).value;
      StepKeepsInv(u, a);
      if a.WaiterStep? {
        WaiterProgress(u);
      } else {
        SelectProgress(u, a.ok);
      }
      var t := Step(u, a).value;
      if !t.acked {
        AckAwaited(t);
      }
    }
  }
}
