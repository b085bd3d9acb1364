/** Write coalescing on the direct-send path (src/websocket.rs). While more inbound frames
are pending, a reply is committed to the sink's buffer without a flush, and counted in
`unflushed`. It leaves with the next flush: a send with nothing pending, a receive about to
suspend, the byte cap, or a 1 ms timer armed once per burst.

Each atomic, lock and poll is one step; the handler, any number of timers and flush
drivers, and the select task interleave freely. Time is left out: a sleeping timer may wake
at any moment. A broken or torn-down sink has no bytes left to save. */
module WsFlush {
  import opened Runs

  const WS_COALESCE_MAX_BYTES := 32 * 1024

  datatype Lock = Free | ByHandler | ByFlusher | BySelect

  datatype Handler =
    | Idle
    | Trying(deferFlush: bool, len: nat)   // about to `try_lock`
    | Locked(deferFlush: bool, len: nat)   // about to `poll_ready` and `start_send`
    | Deferred(len: nat)                   // committed, locked, about to count it
    | Arming                               // about to compare-and-swap `flush_armed`
    | Committed                            // committed, locked, about to zero the count
    | Polling                              // locked, about to `poll_flush`
    | Spawning                             // flush pending: about to spawn a driver
    | Loading                              // `flush_deferred`: about to read the count
    | Clearing                             // it was non-zero: about to zero it
    | Relocking                            // about to `try_lock`
    | Repolling                            // locked, about to `poll_flush`
    | Respawning                           // contended or pending: about to spawn a driver
    | Parked                               // suspended in receive

  datatype State = State(
    buffered: nat,        // frames committed to the sink and not yet on the wire
    broken: bool,
    lock: Lock,
    unflushed: nat,
    armed: bool,
    sleeping: nat,        // timers before their 1 ms is up
    waking: nat,          // timers that cleared `flush_armed`, about to swap the count
    wanting: nat,         // timers and drivers about to lock and flush
    handler: Handler)

  datatype Action =
    | CallSend(len: nat, more: bool)  // `more`: inbound frames are already pending
    | CallReceive                     // batch buffer and channel found empty
    | Resume
    | SendStep(ok: bool)              // `ok`: what the next poll answers
    | ReceiveStep(ok: bool)
    | TimerWake
    | TimerSwap
    | FlusherLock
    | FlusherDone
    | SelectLock
    | SelectDone
    | SinkBreaks

  const Init := State(0, false, Free, 0, false, 0, 0, 0, Idle)

  /** `try_direct_send`, then the timer arm of `queue_send`. A frame that falls back to the
  channel is the select task's to write and flush. */
  function StepSend(s: State, ok: bool): Option<State> {
    match s.handler
    case Trying(deferFlush, len) =>
      if s.lock == Free then Some(s.(lock := ByHandler, handler := Locked(deferFlush, len))) else Some(s.(handler := Idle))
    case Locked(deferFlush, len) =>
      if !ok then Some(s.(lock := Free, handler := Idle))
      else if s.broken then Some(s.(lock := Free, handler := if deferFlush then Arming else Idle))
      else Some(s.(buffered := s.buffered + 1, handler := if deferFlush then Deferred(len) else Committed))
    case Deferred(len) => Some(s.(unflushed := s.unflushed + len + 8, lock := Free, handler := Arming))
    case Arming =>
      if s.armed then Some(s.(handler := Idle)) else Some(s.(armed := true, sleeping := s.sleeping + 1, handler := Idle))
    case Committed => Some(s.(unflushed := 0, handler := Polling))
    case Polling =>
      if ok then Some(s.(buffered := 0, lock := Free, handler := Idle)) else Some(s.(lock := Free, handler := Spawning))
    case Spawning => Some(s.(wanting := s.wanting + 1, handler := Idle))
    case _ => None
  }

  /** `flush_deferred`, as a receive runs it before suspending. */
  function StepReceive(s: State, ok: bool): Option<State> {
    match s.handler
    case Loading => Some(s.(handler := if s.unflushed == 0 then Parked else Clearing))
    case Clearing => Some(s.(unflushed := 0, handler := Relocking))
    case Relocking =>
      if s.lock == Free then Some(s.(lock := ByHandler, handler := Repolling)) else Some(s.(handler := Respawning))
    case Repolling =>
      if ok then Some(s.(buffered := 0, lock := Free, handler := Parked)) else Some(s.(lock := Free, handler := Respawning))
    case Respawning => Some(s.(wanting := s.wanting + 1, handler := Parked))
    case _ => None
  }

  function Step(s: State, a: Action): Option<State> {
    match a
    case CallSend(len, more) =>
      if s.handler != Idle then None
      else Some(s.(handler := Trying(s.unflushed + len <= WS_COALESCE_MAX_BYTES && more, len)))
    case CallReceive => if s.handler == Idle then Some(s.(handler := Loading)) else None
    case Resume => if s.handler == Parked then Some(s.(handler := Idle)) else None
    case SendStep(ok) => StepSend(s, ok)
    case ReceiveStep(ok) => StepReceive(s, ok)
    case TimerWake =>
      if s.sleeping == 0 then None else Some(s.(armed := false, sleeping := s.sleeping - 1, waking := s.waking + 1))
    case TimerSwap =>
      if s.waking == 0 then None
      else Some(s.(unflushed := 0, waking := s.waking - 1, wanting := if s.unflushed > 0 then s.wanting + 1 else s.wanting))
    case FlusherLock =>
      if s.wanting == 0 || s.lock != Free then None else Some(s.(lock := ByFlusher, wanting := s.wanting - 1))
    case FlusherDone => if s.lock == ByFlusher then Some(s.(buffered := 0, lock := Free)) else None
    case SelectLock => if s.lock == Free then Some(s.(lock := BySelect)) else None
    case SelectDone => if s.lock == BySelect then Some(s.(buffered := 0, lock := Free)) else None
    case SinkBreaks => Some(s.(broken := true))
  }

  // ---- Invariant ----

  predicate HoldsLock(h: Handler) {
    h.Locked? || h.Deferred? || h.Committed? || h.Polling? || h.Repolling?
  }

  /** The call in progress ends by flushing, by counting the bytes, or by spawning a driver. */
  predicate WillCover(h: Handler) {
    h.Deferred? || h.Committed? || h.Polling? || h.Spawning? || h.Relocking? || h.Repolling? || h.Respawning?
  }

  /** `flush_deferred` has zeroed the count. */
  predicate Flushed(h: Handler) {
    h.Relocking? || h.Repolling? || h.Respawning? || h.Parked?
  }

  /** Some task other than the handler is sure to flush what is in the buffer now. */
  ghost predicate Covered(s: State) {
    || (s.unflushed > 0 && (s.sleeping > 0 || s.waking > 0))
    || s.wanting > 0
    || s.lock == ByFlusher
    || s.lock == BySelect
  }

  ghost predicate Inv(s: State) {
    && (HoldsLock(s.handler) <==> s.lock == ByHandler)
    && s.sleeping == (if s.armed then 1 else 0)
    && (s.buffered > 0 && !s.broken ==>
          Covered(s) || WillCover(s.handler) || (s.handler.Arming? && s.unflushed > 0))
    && (Flushed(s.handler) ==> s.unflushed == 0)
    && s.unflushed <= WS_COALESCE_MAX_BYTES + 8
    && ((s.handler.Trying? || s.handler.Locked?) && s.handler.deferFlush ==> s.unflushed + s.handler.len <= WS_COALESCE_MAX_BYTES)
    && (s.handler.Deferred? ==> s.unflushed + s.handler.len <= WS_COALESCE_MAX_BYTES)
  }

  lemma SendKeepsInv(s: State, ok: bool)
    requires Inv(s) && StepSend(s, ok).Some?
    ensures Inv(StepSend(s, ok).value)
  {
  }

  lemma ReceiveKeepsInv(s: State, ok: bool)
    requires Inv(s) && StepReceive(s, ok).Some?
    ensures Inv(StepReceive(s, ok).value)
  {
  }

  lemma StepKeepsInv(s: State, a: Action)
    requires Inv(s) && Step(s, a).Some?
    ensures Inv(Step(s, a).value)
  {
    match a
    case SendStep(ok) => SendKeepsInv(s, ok);
    case ReceiveStep(ok) => ReceiveKeepsInv(s, ok);
    case _ =>
  }

  lemma {:induction false} RunKeepsInv(acts: seq<Action>)
    requires Exec(Step, Init, acts).Some?
    ensures Inv(Exec(Step, Init, acts).value)
  {
    if acts == [] {
    } else {
      var front := acts[..|acts| - 1];
      RunKeepsInv(front);
      StepKeepsInv(Exec(Step, Init, front).value, acts[|acts| - 1]);
    }
  }

  // ---- Main results ----

  /** After any interleaving, a reply still in the sink's buffer is covered: by a pending
  timer that will find a non-zero count, by a task about to flush or flushing, or by the
  call the handler is in. A handler at rest leaves the first two; one parked in receive
  leaves only a flush already under way. */
  lemma NoReplyStranded(acts: seq<Action>)
    requires Exec(Step, Init, acts).Some?
    ensures var s := Exec(Step, Init, acts).value;
            && (s.buffered > 0 && !s.broken ==>
                  Covered(s) || WillCover(s.handler) || (s.handler.Arming? && s.unflushed > 0))
            && (s.buffered > 0 && !s.broken && s.handler.Idle? ==> Covered(s))
            && (s.buffered > 0 && !s.broken && s.handler.Parked? ==>
                  s.wanting > 0 || s.lock == ByFlusher || s.lock == BySelect)
  {
    RunKeepsInv(acts);
  }

  /** A handler parked in receive has nothing counted, and the count respects the cap. */
  lemma CountBounded(acts: seq<Action>)
    requires Exec(Step, Init, acts).Some?
    ensures var s := Exec(Step, Init, acts).value;
            && s.unflushed <= WS_COALESCE_MAX_BYTES + 8
            && (s.handler.Parked? ==> s.unflushed == 0)
  {
    RunKeepsInv(acts);
  }

  /** The steps that need neither the handler nor the peer. */
  predicate Background(a: Action) {
    a.TimerWake? || a.TimerSwap? || a.FlusherLock? || a.FlusherDone? || a.SelectDone?
  }

  /** Background work left; every background step uses some of it up. */
  function Work(s: State): nat {
    4 * s.sleeping + 3 * s.waking + 2 * s.wanting + (if s.lock == ByFlusher || s.lock == BySelect then 1 else 0)
  }

  /** A background step that is enabled while a covered reply waits. */
  function NextFlush(s: State): Action {
    if s.lock == ByFlusher then FlusherDone
    else if s.lock == BySelect then SelectDone
    else if s.wanting > 0 then FlusherLock
    else if s.waking > 0 then TimerSwap
    else TimerWake
  }

  function FlushSchedule(s: State): seq<Action>
    decreases Work(s)
  {
    if s.buffered == 0 then []
    else
      match Step(s, NextFlush(s))
      case None => []
      case Some(t) => if Work(t) < Work(s) then [NextFlush(s)] + FlushSchedule(t) else []
  }

  /** With the handler at rest, for as long as it likes, background steps alone put every
  buffered reply on the wire. */
  lemma {:induction false} FlushArrives(s: State)
    requires Inv(s) && !s.broken && (s.handler.Idle? || s.handler.Parked?)
    ensures var acts := FlushSchedule(s);
            && (forall i :: 0 <= i < |acts| ==> Background(acts[i]))
            && Exec(Step, s, acts).Some?
            && Exec(Step, s, acts).value.buffered == 0
            && Exec(Step, s, acts).value.handler == s.handler
    decreases Work(s)
  {
    if s.buffered == 0 {
    } else {
      var a := NextFlush(s);
      var t := Step(s, a).value;
      StepKeepsInv(s, a);
      FlushArrives(t);
      assert [a][..0] == [];
      assert Exec(Step, s, [a]) == Some(t);
      Compose(Step, s, [a], FlushSchedule(t));
    }
  }
}
