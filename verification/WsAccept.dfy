/** The accept handshake in loop mode (src/websocket.rs): `accept()` stashes a ready future
in a shared slot and then signals the route handler over a one-shot channel; the route
handler waits up to 30 seconds for the signal and owns the guard that resolves whatever is
in the slot, when the upgrade completes or when it is dropped on any other path.

The handler and the route task interleave at every slot, channel and guard access; the
timeout may fire at any moment, in particular between any two steps of a late `accept()`. */
module WsAccept {
  import opened Runs

  datatype Signal = NoSignal | AcceptSent | RejectSent

  datatype Handler =
    | Starting              // has not called accept or reject
    | Storing               // accept: took the sender, created the future
    | Sending               // accept: future is in the slot
    | Retaking              // accept: receiver gone, about to empty the slot
    | Setting               // accept: about to set the result itself
    | Awaiting              // accept returned its future
    | NoFuture              // rejected, or ended without accepting

  datatype Route =
    | Listening             // in the timeout around the one-shot
    | Upgrading             // accepted: the guard belongs to the upgrade callback
    | Publishing            // callback running, about to fire the guard
    | Leaving               // returning: about to drop the guard
    | Taking(last: bool)    // `ReadyGuard::fire`: about to take the slot
    | Resolving(last: bool) // has the future, about to resolve it
    | Serving               // callback past its explicit fire; the guard drops at its end
    | Done

  datatype State = State(
    signal: Signal,
    rxAlive: bool,
    slotFull: bool,
    resolved: bool,
    handler: Handler,
    route: Route)

  datatype Action =
    | CallAccept
    | CallReject
    | HandlerEnds            // the handler exits without accepting
    | HandlerStep
    | Timeout
    | RouteStep
    | UpgradeDropped         // the upgrade future is never polled

  const Init := State(NoSignal, true, false, false, Starting, Listening)

  function StepHandler(s: State): Option<State> {
    match s.handler
    case Storing => Some(s.(slotFull := true, handler := Sending))
    case Sending =>
      if s.rxAlive then Some(s.(signal := AcceptSent, handler := Awaiting)) else Some(s.(handler := Retaking))
    case Retaking => Some(s.(slotFull := false, handler := Setting))
    case Setting => Some(s.(resolved := true, handler := Awaiting))
    case _ => None
  }

  function StepRoute(s: State): Option<State> {
    match s.route
    case Listening =>
      if s.signal == AcceptSent then Some(s.(rxAlive := false, route := Upgrading))
      else if s.signal == RejectSent || s.handler == NoFuture then Some(s.(rxAlive := false, route := Leaving))
      else None
    case Upgrading => Some(s.(route := Publishing))
    case Publishing => Some(s.(route := Taking(false)))
    case Leaving => Some(s.(route := Taking(true)))
    case Taking(last) =>
      if s.slotFull then Some(s.(slotFull := false, route := Resolving(last)))
      else Some(s.(route := if last then Done else Serving))
    case Resolving(last) => Some(s.(resolved := true, route := if last then Done else Serving))
    case Serving => Some(s.(route := Taking(true)))
    case Done => None
  }

  function Step(s: State, a: Action): Option<State> {
    match a
    case CallAccept => if s.handler == Starting then Some(s.(handler := Storing)) else None
    case CallReject =>
      if s.handler != Starting then None
      else Some(s.(signal := if s.rxAlive then RejectSent else s.signal, handler := NoFuture))
    case HandlerEnds => if s.handler == Starting then Some(s.(handler := NoFuture)) else None
    case HandlerStep => StepHandler(s)
    case Timeout => if s.route == Listening then Some(s.(rxAlive := false, route := Leaving)) else None
    case RouteStep => StepRoute(s)
    case UpgradeDropped => if s.route == Upgrading then Some(s.(route := Leaving)) else None
  }

  /** A guard firing that is still to come will look into the slot. */
  predicate WillTake(r: Route) {
    r.Listening? || r.Upgrading? || r.Publishing? || r.Leaving? || r.Taking? || r.Serving?
  }

  ghost predicate Inv(s: State) {
    && (s.rxAlive <==> s.route.Listening?)
    && (s.handler == Awaiting && !s.resolved ==>
          (s.slotFull && WillTake(s.route)) || s.route.Resolving?)
    && (s.handler == Sending && s.route.Listening? ==> s.slotFull)
    && (s.signal == AcceptSent ==> s.handler == Awaiting)
  }

  lemma StepKeepsInv(s: State, a: Action)
    requires Inv(s) && Step(s, a).Some?
    ensures Inv(Step(s, a).value)
  {
  }

  lemma {:induction false} RunKeepsInv(acts: seq<Action>)
    requires Exec(Step, Init, acts).Some?
    ensures Inv(Exec(Step, Init, acts).value)
  {
    if acts == [] {
    } else {
      var front := acts[..|acts| - 1];
      RunKeepsInv(front);
      StepKeepsInv(Exec(Step, Init, front).value, acts[|acts| - 1]);
    }
  }

  /** On every way out of the upgrade path, under every interleaving, a future that
  `accept()` returned is resolved; before that, the guard that will do it still exists. */
  lemma AcceptResolved(acts: seq<Action>)
    requires Exec(Step, Init, acts).Some?
    ensures var s := Exec(Step, Init, acts).value;
            && (s.handler == Awaiting && s.route == Done ==> s.resolved)
            && (s.handler == Awaiting && !s.resolved ==> (s.slotFull && WillTake(s.route)) || s.route.Resolving?)
  {
    RunKeepsInv(acts);
  }
}
