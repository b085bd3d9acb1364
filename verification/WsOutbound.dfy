/** The send half of the WebSocket bridge (src/websocket.rs): a frame goes out either
directly, written by the handler under the sink lock, or through a command channel that the
per-connection select task drains, possibly by way of a waiter when the channel is full.
The `queued` counter decides which.

Each lock, channel and counter access is one step, and so is each write, so the handler,
the select task, the capacity waiter and the flush drivers interleave freely. The handler
is one task that awaits each send and sends nothing after a close, as the Python wrapper
enforces. A sink refuses every frame once it has failed or a Close went out. Flush
requests carry no bytes and are left to the shutdown model. */
module WsOutbound {
  import opened Runs

  const WS_OUT_CAP := 256

  datatype Frame = Frame(payload: string, isClose: bool)

  datatype Slot = Unpublished | Published | Taken

  datatype Lock = Free | ByHandler | BySelect | ByFlusher

  datatype Handler =
    | Idle
    | Deciding(frame: Frame)       // about to read `queued`
    | Locking(frame: Frame)        // about to `try_lock` the sink
    | Checking(frame: Frame)       // locked, about to re-read `queued`
    | Polling(frame: Frame)        // locked, nothing ahead, about to `poll_ready`
    | Committing(frame: Frame)     // locked, about to `start_send`
    | Releasing                    // about to unlock
    | Counting(frame: Frame)       // channel path: about to bump `queued`
    | Pushing(frame: Frame)        // about to `try_send`
    | Waiting                      // a waiter has the frame; awaiting its future
    | Closed                       // close() or close_and_wait() has returned

  datatype Select =
    | NotStarted
    | Looping
    | Fetched(frame: Frame)        // received a Send, about to lock the sink
    | Writing(frame: Frame)        // locked, about to send
    | Wrote(leave: bool)           // about to unlock
    | Counted(leave: bool)         // about to decrement `queued`
    | Echoing                      // peer closed: about to lock and echo
    | Ending                       // left the loop, about to close the channel
    | Draining
    | Gone

  datatype State = State(
    direct: bool,              // FASTAPI_TURBO_WS_DIRECT
    bounded: bool,             // loop mode
    issued: seq<Frame>,        // history: every frame the handler sent, in order
    written: seq<Frame>,       // history: every frame the sink accepted, in order
    broken: bool,
    slot: Slot,
    lock: Lock,
    queued: int,
    chan: seq<Frame>,
    chanClosed: bool,
    waiter: seq<Frame>,        // at most one frame
    handler: Handler,
    select: Select,
    dropped: nat)              // history: counted frames that died with the channel

  datatype WriteResult = Sent | FailedBefore | FailedAfter

  datatype Action =
    | CallSend(frame: Frame)       // send_text, send_bytes, close, close_and_wait
    | DirectStep(ready: bool)      // `ready` is what `poll_ready` answers
    | QueueStep
    | LoopStep
    | TeardownStep
    | SelectWrite(result: WriteResult)
    | PeerClose
    | StreamEnd
    | WaiterStep
    | FlusherLock
    | FlusherUnlock
    | SinkBreaks

  function Init(direct: bool, bounded: bool): State {
    State(direct, bounded, [], [], false, Unpublished, Free, 0, [], false, [], Idle, NotStarted, 0)
  }

  predicate Full(s: State) {
    s.bounded && |s.chan| >= WS_OUT_CAP
  }

  /** Where the handler is once the channel path has taken `f`. */
  function Finished(f: Frame): Handler {
    if f.isClose then Closed else Idle
  }

  /** `try_direct_send`, and the unlocked read of `queued` before it. */
  function StepDirect(s: State, ready: bool): Option<State> {
    match s.handler
    case Deciding(f) =>
      // Close always takes the channel path.
      if !f.isClose && s.direct && s.queued == 0 then Some(s.(handler := Locking(f)))
      else Some(s.(handler := Counting(f)))
    case Locking(f) =>
      if s.lock == Free then Some(s.(lock := ByHandler, handler := Checking(f)))
      else Some(s.(handler := Counting(f)))
    case Checking(f) =>
      if s.queued == 0 && s.slot == Published then Some(s.(handler := Polling(f)))
      else Some(s.(lock := Free, handler := Counting(f)))
    case Polling(f) =>
      if ready then Some(s.(handler := Committing(f)))
      else Some(s.(lock := Free, handler := Counting(f)))
    case Committing(f) =>
      if s.broken then Some(s.(handler := Releasing))
      else Some(s.(written := s.written + [f], handler := Releasing))
    case Releasing => Some(s.(lock := Free, handler := Idle))
    case _ => None
  }

  /** The channel path of `queue_send` and `queue_seq`. */
  function StepQueue(s: State): Option<State> {
    match s.handler
    case Counting(f) => Some(s.(queued := s.queued + 1, handler := Pushing(f)))
    case Pushing(f) =>
      if s.chanClosed then Some(s.(dropped := s.dropped + 1, handler := Finished(f)))
      else if Full(s) then Some(s.(waiter := s.waiter + [f], handler := if f.isClose then Closed else Waiting))
      else Some(s.(chan := s.chan + [f], handler := Finished(f)))
    case Waiting => if s.waiter == [] then Some(s.(handler := Idle)) else None
    case _ => None
  }

  /** The select task, from publishing the write half to leaving its loop. */
  function StepLoop(s: State): Option<State> {
    match s.select
    case NotStarted => if s.lock == Free then Some(s.(slot := Published, select := Looping)) else None
    case Looping => if s.chan == [] then None else Some(s.(chan := s.chan[1..], select := Fetched(s.chan[0])))
    case Fetched(f) => if s.lock == Free then Some(s.(lock := BySelect, select := Writing(f))) else None
    case Wrote(leave) => Some(s.(lock := Free, select := Counted(leave)))
    case Counted(leave) => Some(s.(queued := s.queued - 1, select := if leave then Ending else Looping))
    case Echoing => if s.lock == Free then Some(s.(broken := true, select := Ending)) else None
    case _ => None
  }

  /** Its teardown: close the channel, drop what is left in it, take the write half out. */
  function StepTeardown(s: State): Option<State> {
    match s.select
    case Ending => Some(s.(chanClosed := true, select := Draining))
    case Draining =>
      if s.chan != [] then Some(s.(chan := s.chan[1..], dropped := s.dropped + 1))
      else if s.lock == Free then Some(s.(slot := Taken, select := Gone))
      else None
    case _ => None
  }

  /** `SinkExt::send`: the frame may be accepted and the flush behind it still fail. */
  function Write(s: State, result: WriteResult): Option<State> {
    if !s.select.Writing? then None
    else
      var f := s.select.frame;
      var accepted := !s.broken && result != FailedBefore;
      var ok := accepted && result == Sent;
      Some(s.(written := if accepted then s.written + [f] else s.written,
              broken := s.broken || !ok || f.isClose,
              select := Wrote(!ok || f.isClose)))
  }

  function StepWaiter(s: State): Option<State> {
    if s.waiter == [] then None
    else if s.chanClosed then Some(s.(dropped := s.dropped + 1, waiter := s.waiter[1..]))
    else if Full(s) then None
    else Some(s.(chan := s.chan + [s.waiter[0]], waiter := s.waiter[1..]))
  }

  function Step(s: State, a: Action): Option<State> {
    match a
    case CallSend(f) =>
      if s.handler == Idle then Some(s.(issued := s.issued + [f], handler := Deciding(f))) else None
    case DirectStep(ready) => StepDirect(s, ready)
    case QueueStep => StepQueue(s)
    case LoopStep => StepLoop(s)
    case TeardownStep => StepTeardown(s)
    case SelectWrite(result) => Write(s, result)
    case PeerClose => if s.select == Looping then Some(s.(select := Echoing)) else None
    case StreamEnd => if s.select == Looping then Some(s.(select := Ending)) else None
    case WaiterStep => StepWaiter(s)
    case FlusherLock => if s.lock == Free then Some(s.(lock := ByFlusher)) else None
    case FlusherUnlock => if s.lock == ByFlusher then Some(s.(lock := Free)) else None
    case SinkBreaks => Some(s.(broken := true))
  }

  // ---- Invariant ----

  /** What the handler has issued and still holds. */
  function HandlerHand(h: Handler): seq<Frame> {
    match h
    case Idle | Releasing | Waiting | Closed => []
    case _ => [h.frame]
  }

  /** The frame the select task took from the channel and has not offered to the sink. */
  function SelectHand(c: Select): seq<Frame> {
    if c.Fetched? || c.Writing? then [c.frame] else []
  }

  /** The select task owes `queued` one decrement. */
  predicate SelectOwes(c: Select) {
    c.Fetched? || c.Writing? || c.Wrote? || c.Counted?
  }

  predicate HandlerHoldsLock(h: Handler) {
    h.Checking? || h.Polling? || h.Committing? || h.Releasing?
  }

  ghost predicate LockInv(s: State) {
    && (HandlerHoldsLock(s.handler) <==> s.lock == ByHandler)
    && (s.select.Writing? || s.select.Wrote? <==> s.lock == BySelect)
    && (s.chanClosed <==> s.select.Draining? || s.select.Gone?)
    && (s.waiter != [] ==> s.handler == Waiting || s.handler == Closed)
  }

  /** `queued` counts every frame that is committed to the channel path and not yet written,
  and every one that died there. */
  ghost predicate CountInv(s: State) {
    && s.queued == |s.chan| + |s.waiter| + s.dropped
       + (if SelectOwes(s.select) then 1 else 0)
       + (if s.handler.Pushing? then 1 else 0)
    && (s.handler.Polling? || s.handler.Committing? ==> s.queued == 0)
    && (s.dropped > 0 ==> s.chanClosed)
  }

  /** Everything issued, in the order it will reach the sink. */
  function Pipeline(s: State): seq<Frame> {
    s.written + SelectHand(s.select) + s.chan + s.waiter + HandlerHand(s.handler)
  }

  ghost predicate OrderInv(s: State) {
    && s.written <= s.issued
    && (!s.broken && s.dropped == 0 ==> Pipeline(s) == s.issued)
    && ((s.select.Wrote? || s.select.Counted?) && !s.broken ==> !s.select.leave)
  }

  ghost predicate Inv(s: State) {
    LockInv(s) && CountInv(s) && OrderInv(s)
  }

  /** With `queued` at zero under the sink lock nothing can be overtaken. */
  lemma NothingAhead(s: State)
    requires CountInv(s) && s.queued == 0
    ensures SelectHand(s.select) == [] && s.chan == [] && s.waiter == [] && s.dropped == 0
  {
  }

  /** A step that only moves the handler, and leaves its frame in its hand. */
  lemma HandKept(s: State, h: Handler, lock: Lock)
    requires OrderInv(s) && HandlerHand(h) == HandlerHand(s.handler)
    ensures OrderInv(s.(handler := h, lock := lock))
  {
    assert Pipeline(s.(handler := h, lock := lock)) == Pipeline(s);
  }

  lemma DecideKeepsInv(s: State)
    requires Inv(s) && s.handler.Deciding?
    ensures Inv(StepDirect(s, true).value)
  {
    HandKept(s, StepDirect(s, true).value.handler, s.lock);
  }

  lemma TryKeepsInv(s: State)
    requires Inv(s) && s.handler.Locking?
    ensures Inv(StepDirect(s, true).value)
  {
    HandKept(s, StepDirect(s, true).value.handler, StepDirect(s, true).value.lock);
  }

  lemma PollKeepsInv(s: State, ready: bool)
    requires Inv(s) && (s.handler.Checking? || s.handler.Polling?)
    ensures Inv(StepDirect(s, ready).value)
  {
    HandKept(s, StepDirect(s, ready).value.handler, StepDirect(s, ready).value.lock);
  }

  lemma CommitKeepsInv(s: State)
    requires Inv(s) && s.handler.Committing?
    ensures Inv(StepDirect(s, true).value)
  {
    NothingAhead(s);
  }

  lemma DirectKeepsInv(s: State, ready: bool)
    requires Inv(s) && StepDirect(s, ready).Some?
    ensures Inv(StepDirect(s, ready).value)
  {
    if s.handler.Deciding? {
      DecideKeepsInv(s);
    } else if s.handler.Locking? {
      TryKeepsInv(s);
    } else if s.handler.Checking? || s.handler.Polling? {
      PollKeepsInv(s, ready);
    } else if s.handler.Committing? {
      CommitKeepsInv(s);
    }
  }

  lemma CountKeepsInv(s: State)
    requires Inv(s) && s.handler.Counting?
    ensures Inv(StepQueue(s).value)
  {
  }

  /** A frame goes from the hand to the end of the channel, or of the waiter's. */
  lemma PushMoves(front: seq<Frame>, chan: seq<Frame>, waiter: seq<Frame>, f: Frame)
    ensures front + chan + (waiter + [f]) + [] == front + chan + waiter + [f]
    ensures waiter == [] ==> front + (chan + [f]) + waiter + [] == front + chan + waiter + [f]
  {
  }

  lemma PushKeepsOrder(s: State)
    requires Inv(s) && s.handler.Pushing?
    ensures OrderInv(StepQueue(s).value)
  {
    var front, f := s.written + SelectHand(s.select), s.handler.frame;
    if !s.chanClosed {
      PushMoves(front, s.chan, s.waiter, f);
    }
  }

  lemma PushKeepsInv(s: State)
    requires Inv(s) && s.handler.Pushing?
    ensures Inv(StepQueue(s).value)
  {
    PushKeepsOrder(s);
  }

  lemma QueueKeepsInv(s: State)
    requires Inv(s) && StepQueue(s).Some?
    ensures Inv(StepQueue(s).value)
  {
    if s.handler.Counting? {
      CountKeepsInv(s);
    } else if s.handler.Pushing? {
      PushKeepsInv(s);
    }
  }

  lemma FetchKeepsInv(s: State)
    requires Inv(s) && s.select.Looping? && s.chan != []
    ensures Inv(StepLoop(s).value)
  {
    assert [s.chan[0]] + s.chan[1..] == s.chan;
  }

  lemma CountedKeepsInv(s: State)
    requires Inv(s) && (s.select.Wrote? || s.select.Counted?)
    ensures Inv(StepLoop(s).value)
  {
  }

  lemma LoopKeepsInv(s: State)
    requires Inv(s) && StepLoop(s).Some?
    ensures Inv(StepLoop(s).value)
  {
    if s.select.Looping? {
      FetchKeepsInv(s);
    } else if s.select.Wrote? || s.select.Counted? {
      CountedKeepsInv(s);
    }
  }

  lemma EndingKeepsInv(s: State)
    requires Inv(s) && s.select.Ending?
    ensures Inv(StepTeardown(s).value)
  {
    assert Pipeline(StepTeardown(s).value) == Pipeline(s);
  }

  lemma DrainKeepsInv(s: State)
    requires Inv(s) && s.select.Draining? && s.chan != []
    ensures Inv(StepTeardown(s).value)
  {
  }

  lemma TeardownKeepsInv(s: State)
    requires Inv(s) && StepTeardown(s).Some?
    ensures Inv(StepTeardown(s).value)
  {
    if s.select.Ending? {
      EndingKeepsInv(s);
    } else if s.chan != [] {
      DrainKeepsInv(s);
    }
  }

  lemma HandToWritten(written: seq<Frame>, f: Frame, chan: seq<Frame>, waiter: seq<Frame>, hand: seq<Frame>)
    ensures written + [f] + [] + chan + waiter + hand == written + [f] + chan + waiter + hand
    ensures written + [f] <= written + [f] + chan + waiter + hand
  {
  }

  /** The frame written is the next one issued. */
  lemma WriteKeepsOrder(s: State, result: WriteResult)
    requires Inv(s) && s.select.Writing?
    ensures OrderInv(Write(s, result).value)
  {
    HandToWritten(s.written, s.select.frame, s.chan, s.waiter, HandlerHand(s.handler));
  }

  lemma WriteKeepsInv(s: State, result: WriteResult)
    requires Inv(s) && Write(s, result).Some?
    ensures Inv(Write(s, result).value)
  {
    WriteKeepsOrder(s, result);
  }

  lemma WaiterKeepsInv(s: State)
    requires Inv(s) && StepWaiter(s).Some?
    ensures Inv(StepWaiter(s).value)
  {
  }

  lemma StepKeepsInv(s: State, a: Action)
    requires Inv(s) && Step(s, a).Some?
    ensures Inv(Step(s, a).value)
  {
    match a
    case DirectStep(ready) => DirectKeepsInv(s, ready);
    case QueueStep => QueueKeepsInv(s);
    case LoopStep => LoopKeepsInv(s);
    case TeardownStep => TeardownKeepsInv(s);
    case SelectWrite(result) => WriteKeepsInv(s, result);
    case WaiterStep => WaiterKeepsInv(s);
    case _ =>
  }

  lemma {:induction false} RunKeepsInv(direct: bool, bounded: bool, acts: seq<Action>)
    requires Exec(Step, Init(direct, bounded), acts).Some?
    ensures Inv(Exec(Step, Init(direct, bounded), acts).value)
  {
    if acts == [] {
    } else {
      var front := acts[..|acts| - 1];
      RunKeepsInv(direct, bounded, front);
      StepKeepsInv(Exec(Step, Init(direct, bounded), front).value, acts[|acts| - 1]);
    }
  }

  // ---- Main results ----

  /** After any interleaving, what the sink accepted is a prefix of what the handler sent:
  no frame overtakes, repeats or follows a lost one. */
  lemma WrittenInOrder(direct: bool, bounded: bool, acts: seq<Action>)
    requires Exec(Step, Init(direct, bounded), acts).Some?
    ensures var s := Exec(Step, Init(direct, bounded), acts).value; s.written <= s.issued
  {
    RunKeepsInv(direct, bounded, acts);
  }

  /** The comment on `queued`: it never underflows, and zero seen by a direct sender that
  holds the sink lock means no frame is in the channel, with a waiter, or mid-write. */
  lemma ZeroUnderLock(direct: bool, bounded: bool, acts: seq<Action>)
    requires Exec(Step, Init(direct, bounded), acts).Some?
    ensures var s := Exec(Step, Init(direct, bounded), acts).value;
            && s.queued >= 0
            && (s.lock == ByHandler && s.queued == 0 ==>
                  s.chan == [] && s.waiter == [] && SelectHand(s.select) == [] && !s.select.Wrote? && !s.select.Counted?)
  {
    RunKeepsInv(direct, bounded, acts);
  }

  /** While the sink is sound, a handler at rest with nothing queued has had every frame
  written: nothing is skipped on the way between the two paths. */
  lemma QuietMeansAllWritten(direct: bool, bounded: bool, acts: seq<Action>)
    requires Exec(Step, Init(direct, bounded), acts).Some?
    ensures var s := Exec(Step, Init(direct, bounded), acts).value;
            !s.broken && s.queued == 0 && (s.handler == Idle || s.handler == Closed) ==> s.written == s.issued
  {
    RunKeepsInv(direct, bounded, acts);
    var s := Exec(Step, Init(direct, bounded), acts).value;
    if s.queued == 0 {
      NothingAhead(s);
    }
  }

  // ---- Every frame gets written ----

  /** None of the first `n` frames is a close. */
  predicate CloseFree(frames: seq<Frame>, n: int) {
    forall i :: 0 <= i < n && i < |frames| ==> !frames[i].isClose
  }

  /** Where the handler may be once it has sent a close. */
  predicate MayHaveClosed(h: Handler) {
    h.Deciding? || h.Counting? || h.Pushing? || h.Closed?
  }

  /** Nothing is sent after a close: only the last frame can be one, and while the handler can
  still send, or writes directly, there is none. */
  ghost predicate CloseLast(issued: seq<Frame>, h: Handler) {
    && CloseFree(issued, |issued| - 1)
    && (MayHaveClosed(h) || CloseFree(issued, |issued|))
    && (HandlerHand(h) != [] ==> issued != [] && HandlerHand(h) == [issued[|issued| - 1]])
  }

  lemma LastDecides(issued: seq<Frame>)
    requires CloseFree(issued, |issued| - 1) && (issued != [] ==> !issued[|issued| - 1].isClose)
    ensures CloseFree(issued, |issued|)
  {
  }

  lemma CallKeepsCloseLast(issued: seq<Frame>, f: Frame)
    requires CloseLast(issued, Idle)
    ensures CloseLast(issued + [f], Deciding(f))
  {
  }

  lemma DirectKeepsCloseLast(s: State, ready: bool)
    requires CloseLast(s.issued, s.handler) && StepDirect(s, ready).Some?
    ensures CloseLast(s.issued, StepDirect(s, ready).value.handler) && StepDirect(s, ready).value.issued == s.issued
  {
    if s.handler.Deciding? && !s.handler.frame.isClose {
      LastDecides(s.issued);
    }
  }

  lemma QueueKeepsCloseLast(s: State)
    requires CloseLast(s.issued, s.handler) && StepQueue(s).Some?
    ensures CloseLast(s.issued, StepQueue(s).value.handler) && StepQueue(s).value.issued == s.issued
  {
    if s.handler.Pushing? && !s.handler.frame.isClose {
      LastDecides(s.issued);
    }
  }

  lemma OthersKeepHandler(s: State, a: Action)
    requires Step(s, a).Some? && !a.CallSend? && !a.DirectStep? && !a.QueueStep?
    ensures Step(s, a).value.issued == s.issued && Step(s, a).value.handler == s.handler
  {
  }

  lemma StepKeepsCloseLast(s: State, a: Action)
    requires CloseLast(s.issued, s.handler) && Step(s, a).Some?
    ensures CloseLast(Step(s, a).value.issued, Step(s, a).value.handler)
  {
    match a
    case CallSend(f) => CallKeepsCloseLast(s.issued, f);
    case DirectStep(ready) => DirectKeepsCloseLast(s, ready);
    case QueueStep => QueueKeepsCloseLast(s);
    case _ => OthersKeepHandler(s, a);
  }

  lemma {:induction false} RunKeepsCloseLast(direct: bool, bounded: bool, acts: seq<Action>)
    requires Exec(Step, Init(direct, bounded), acts).Some?
    ensures var s := Exec(Step, Init(direct, bounded), acts).value; CloseLast(s.issued, s.handler)
  {
    if acts == [] {
    } else {
      var front := acts[..|acts| - 1];
      RunKeepsCloseLast(direct, bounded, front);
      StepKeepsCloseLast(Exec(Step, Init(direct, bounded), front).value, acts[|acts| - 1]);
    }
  }

  /** The sink is sound and the select task at work, or about to be. */
  predicate OnCourse(s: State) {
    && !s.broken && s.dropped == 0
    && !s.select.Echoing? && !s.select.Ending? && !s.select.Draining? && !s.select.Gone?
  }

  /** Steps of the send under way, the select task, the waiter and the flusher; the sink takes
  what it is given, ready at once or not. */
  predicate Internal(a: Action) {
    a.DirectStep? || a.QueueStep? || a.LoopStep? || a == SelectWrite(Sent) || a.WaiterStep? || a.FlusherUnlock?
  }

  function HandlerLeft(h: Handler): nat {
    match h
    case Idle | Closed => 0
    case Waiting | Releasing => 1
    case Committing(_) => 2
    case Pushing(_) => 8
    case Counting(_) => 9
    case Polling(_) => 10
    case Checking(_) => 11
    case Locking(_) => 12
    case Deciding(_) => 13
  }

  function SelectLeft(c: Select): nat {
    match c
    case Fetched(_) => 4
    case Writing(_) => 3
    case Wrote(_) => 2
    case Counted(_) | NotStarted | Echoing => 1
    case Looping | Ending | Draining | Gone => 0
  }

  /** An upper bound on the internal steps left. */
  function Work(s: State): nat {
    HandlerLeft(s.handler) + 6 * |s.waiter| + 5 * |s.chan| + SelectLeft(s.select) + if s.lock == ByFlusher then 1 else 0
  }

  lemma DirectFrame(s: State, ready: bool)
    requires StepDirect(s, ready).Some?
    ensures var t := StepDirect(s, ready).value; t.waiter == s.waiter && t.chan == s.chan && t.select == s.select
  {
  }

  lemma DirectLock(s: State, ready: bool)
    requires StepDirect(s, ready).Some? && (HandlerHoldsLock(s.handler) ==> s.lock == ByHandler)
    ensures s.lock != ByFlusher ==> StepDirect(s, ready).value.lock != ByFlusher
  {
  }

  lemma TryLeft(s: State, ready: bool)
    requires s.handler.Deciding? || s.handler.Locking?
    ensures HandlerLeft(StepDirect(s, ready).value.handler) < HandlerLeft(s.handler)
  {
  }

  lemma DirectLeft(s: State, ready: bool)
    requires StepDirect(s, ready).Some?
    ensures HandlerLeft(StepDirect(s, ready).value.handler) < HandlerLeft(s.handler)
  {
    if s.handler.Deciding? || s.handler.Locking? {
      TryLeft(s, ready);
    }
  }

  lemma DirectProgress(s: State, ready: bool)
    requires LockInv(s) && StepDirect(s, ready).Some?
    ensures Work(StepDirect(s, ready).value) < Work(s)
  {
    DirectFrame(s, ready);
    DirectLock(s, ready);
    DirectLeft(s, ready);
  }

  lemma PushProgress(s: State)
    requires s.handler.Pushing?
    ensures Work(StepQueue(s).value) < Work(s)
  {
    var t, f := StepQueue(s).value, s.handler.frame;
    assert t.select == s.select && t.lock == s.lock && HandlerLeft(t.handler) <= 1;
    assert |s.waiter + [f]| == |s.waiter| + 1 && |s.chan + [f]| == |s.chan| + 1;
  }

  lemma CountProgress(s: State)
    requires s.handler.Counting?
    ensures Work(StepQueue(s).value) < Work(s)
  {
  }

  lemma QueueProgress(s: State)
    requires StepQueue(s).Some?
    ensures Work(StepQueue(s).value) < Work(s)
  {
    if s.handler.Pushing? {
      PushProgress(s);
    } else if s.handler.Counting? {
      CountProgress(s);
    }
  }

  lemma FetchProgress(s: State)
    requires s.select.Looping? && s.chan != []
    ensures Work(StepLoop(s).value) < Work(s)
  {
  }

  lemma LoopProgress(s: State)
    requires LockInv(s) && StepLoop(s).Some?
    ensures Work(StepLoop(s).value) < Work(s)
  {
    if s.select.Looping? {
      FetchProgress(s);
    }
  }

  lemma StepProgress(s: State, a: Action)
    requires LockInv(s) && Internal(a) && Step(s, a).Some?
    ensures Work(Step(s, a).value) < Work(s)
  {
    match a
    case DirectStep(ready) => DirectProgress(s, ready);
    case QueueStep => QueueProgress(s);
    case LoopStep => LoopProgress(s);
    case _ =>
  }

  predicate CanMove(s: State) {
    || StepDirect(s, true).Some? || StepQueue(s).Some? || StepLoop(s).Some? || s.select.Writing?
    || StepWaiter(s).Some? || s.lock == ByFlusher
  }

  /** Whoever has the sink lock can move; so can whoever waits for a free one. */
  lemma NeverStuck(s: State)
    requires Inv(s) && OnCourse(s) && s.written != s.issued
    ensures CanMove(s)
  {
    var hand, fetched := HandlerHand(s.handler), SelectHand(s.select);
    assert hand == [] && fetched == [] && s.chan == [] && s.waiter == [] ==> Pipeline(s) == s.written;
  }

  lemma CloseIsLast(s: State)
    requires OrderInv(s) && CloseLast(s.issued, s.handler) && OnCourse(s) && s.select.Writing? && s.select.frame.isClose
    ensures s.written + [s.select.frame] == s.issued
  {
    var n := |s.written|;
    assert Pipeline(s) == s.issued;
    assert s.issued[..n + 1] == s.written + [s.select.frame] && s.issued[n].isClose;
  }

  /** Everything is written, or will be. */
  predicate Going(s: State) {
    s.written == s.issued || OnCourse(s)
  }

  /** The course is left only with the Close, the last frame, written. */
  lemma CourseKept(s: State, a: Action)
    requires Inv(s) && CloseLast(s.issued, s.handler) && OnCourse(s) && Internal(a) && Step(s, a).Some?
    ensures OnCourse(Step(s, a).value) || (a.SelectWrite? && Step(s, a).value.written == s.issued)
  {
    if a.SelectWrite? && s.select.frame.isClose {
      CloseIsLast(s);
    }
  }

  lemma IssuedKept(s: State, a: Action)
    requires Internal(a) && Step(s, a).Some?
    ensures Step(s, a).value.issued == s.issued
  {
  }

  lemma WrittenGrows(s: State, a: Action)
    requires Internal(a) && Step(s, a).Some?
    ensures s.written <= Step(s, a).value.written
  {
  }

  lemma GoesOn(s: State, a: Action)
    requires Inv(s) && CloseLast(s.issued, s.handler) && Going(s) && Internal(a) && Step(s, a).Some?
    ensures Going(Step(s, a).value) && Step(s, a).value.issued == s.issued
  {
    IssuedKept(s, a);
    WrittenGrows(s, a);
    if OnCourse(s) {
      CourseKept(s, a);
    } else {
      StepKeepsInv(s, a);
    }
  }

  /** Every frame sent is written, as long as the sink is sound and nobody ends the connection:
  in whatever order the send under way, the select task, the waiter and the flusher move, they
  take no more steps than `Work` says, and they can go on until nothing is left to write. */
  lemma {:induction false} SendsArrive(s: State, acts: seq<Action>)
    requires Inv(s) && CloseLast(s.issued, s.handler) && Going(s)
    requires Exec(Step, s, acts).Some? && forall i :: 0 <= i < |acts| ==> Internal(acts[i])
    ensures var t := Exec(Step, s, acts).value;
            && Inv(t) && CloseLast(t.issued, t.handler) && Going(t) && t.issued == s.issued
            && |acts| + Work(t) <= Work(s)
            && (t.written == s.issued || CanMove(t))
  {
    if acts == [] {
    } else {
      var front, a := acts[..|acts| - 1], acts[|acts| - 1];
      SendsArrive(s, front);
      var u := Exec(Step, s, front).value;
      StepKeepsInv(u, a);
      StepKeepsCloseLast(u, a);
      StepProgress(u, a);
      GoesOn(u, a);
    }
    var t := Exec(Step, s, acts).value;
    if t.written != t.issued {
      NeverStuck(t);
    }
  }
}
