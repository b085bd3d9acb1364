/** A worker's drain (src/cluster.rs): on shutdown it stops receiving, and if connections
are still open it waits, bounded by a grace period, for the last connection task to notify
it. `Notify::notify_waiters` wakes only a waiter that is already registered, so the loop
registers, re-reads the in-flight count, and only then waits.

The receive loop, the drain, any number of connection tasks and the completer interleave at
every counter, queue and notification access. The grace period may end at any moment. */
module ClusterDrain {
  import opened Runs

  datatype Drain =
    | Receiving               // the fd loop
    | Reading                 // drain begun, about to read the count
    | Creating                // about to create the `notified` future
    | Enabling                // about to register it
    | Rereading               // registered, about to re-read the count
    | Waiting                 // in the select over notification and deadline
    | Dropping                // about to drop the main `done_tx`
    | Deciding                // about to read the count for the last time
    | Joining                 // fully drained: awaiting the completer
    | Returned(full: bool)

  datatype State = State(
    received: nat,      // history: descriptors received
    inflight: int,
    serving: nat,       // tasks serving a connection
    finishing: nat,     // tasks that sent their completion, about to decrement
    notifying: nat,     // tasks whose decrement returned 1, about to notify
    ending: nat,        // tasks past notifying, still owning their `done_tx`
    mainSender: bool,   // the main task still owns its `done_tx`
    doneQueue: nat,
    bytesWritten: nat,  // history: completion bytes written
    completerDone: bool,
    socketFailed: bool, // history: the completer hit a socket error
    registered: bool,
    notified: bool,
    drain: Drain)

  datatype Action =
    | Receive
    | ReceiveBad        // `tcp_from_fd` failed
    | Shutdown          // shutdown signal, or the acceptor went away
    | DrainStep
    | Deadline
    | ServeEnds         // serve, then send the completion
    | TaskDecrement
    | TaskNotify
    | TaskEnds
    | CompleterStep
    | CompleterFails

  const Init := State(0, 0, 0, 0, 0, 0, true, 0, 0, false, false, false, false, Receiving)

  function StepDrain(s: State): Option<State> {
    match s.drain
    case Receiving => None
    case Reading => Some(s.(drain := if s.inflight > 0 then Creating else Dropping))
    case Creating => Some(s.(registered := false, notified := false, drain := Enabling))
    case Enabling => Some(s.(registered := true, drain := Rereading))
    case Rereading => Some(s.(drain := if s.inflight == 0 then Dropping else Waiting))
    case Waiting => if s.notified then Some(s.(registered := false, drain := Creating)) else None
    case Dropping => Some(s.(mainSender := false, drain := Deciding))
    case Deciding => Some(s.(drain := if s.inflight == 0 then Joining else Returned(false)))
    case Joining => if s.completerDone then Some(s.(drain := Returned(true))) else None
    case Returned(_) => None
  }

  function StepTask(s: State, a: Action): Option<State> {
    match a
    case ServeEnds =>
      if s.serving == 0 then None
      else Some(s.(serving := s.serving - 1, doneQueue := s.doneQueue + 1, finishing := s.finishing + 1))
    case TaskDecrement =>
      if s.finishing == 0 then None
      else
        var t := s.(inflight := s.inflight - 1, finishing := s.finishing - 1);
        if s.inflight == 1 then Some(t.(notifying := s.notifying + 1)) else Some(t.(ending := s.ending + 1))
    case TaskNotify =>
      if s.notifying == 0 then None
      else Some(s.(notified := s.notified || s.registered, notifying := s.notifying - 1, ending := s.ending + 1))
    case TaskEnds => if s.ending == 0 then None else Some(s.(ending := s.ending - 1))
    case _ => None
  }

  /** Someone still owns a sender of the completion queue. */
  predicate SenderAlive(s: State) {
    s.mainSender || s.serving + s.finishing + s.notifying + s.ending > 0
  }

  function StepCompleter(s: State): Option<State> {
    if s.completerDone then None
    else if s.doneQueue > 0 then Some(s.(doneQueue := s.doneQueue - 1, bytesWritten := s.bytesWritten + 1))
    else if !SenderAlive(s) then Some(s.(completerDone := true))
    else None
  }

  function Step(s: State, a: Action): Option<State> {
    match a
    case Receive =>
      if s.drain != Receiving then None
      else Some(s.(received := s.received + 1, inflight := s.inflight + 1, serving := s.serving + 1))
    case ReceiveBad =>
      if s.drain != Receiving then None else Some(s.(received := s.received + 1, doneQueue := s.doneQueue + 1))
    case Shutdown => if s.drain == Receiving then Some(s.(drain := Reading)) else None
    case DrainStep => StepDrain(s)
    case Deadline => if s.drain == Waiting then Some(s.(drain := Dropping)) else None
    case ServeEnds | TaskDecrement | TaskNotify | TaskEnds => StepTask(s, a)
    case CompleterStep => StepCompleter(s)
    case CompleterFails =>
      if s.completerDone then None else Some(s.(completerDone := true, socketFailed := true))
  }

  ghost predicate Inv(s: State) {
    && s.inflight == s.serving + s.finishing
    && s.received == s.serving + s.doneQueue + s.bytesWritten
    && (s.mainSender <==> !(s.drain.Deciding? || s.drain.Joining? || s.drain.Returned?))
    && (s.drain.Rereading? || s.drain.Waiting? ==> s.registered)
    // A registered waiter that found connections open has the last one's notification coming.
    && (s.drain.Waiting? && s.inflight == 0 ==> s.notified || s.notifying > 0)
    && (s.completerDone && !s.socketFailed ==> s.doneQueue == 0 && !SenderAlive(s))
    && (s.drain.Joining? || s.drain == Returned(true) ==> s.inflight == 0)
    && (s.drain == Returned(true) ==> s.completerDone)
  }

  lemma DrainKeepsInv(s: State)
    requires Inv(s) && StepDrain(s).Some?
    ensures Inv(StepDrain(s).value)
  {
  }

  lemma ServeEndsKeepsInv(s: State)
    requires Inv(s) && s.serving > 0
    ensures Inv(StepTask(s, ServeEnds).value)
  {
  }

  lemma DecrementKeepsInv(s: State)
    requires Inv(s) && s.finishing > 0
    ensures Inv(StepTask(s, TaskDecrement).value)
  {
  }

  lemma NotifyKeepsInv(s: State)
    requires Inv(s) && s.notifying > 0
    ensures Inv(StepTask(s, TaskNotify).value)
  {
  }

  lemma TaskKeepsInv(s: State, a: Action)
    requires Inv(s) && StepTask(s, a).Some?
    ensures Inv(StepTask(s, a).value)
  {
    match a
    case ServeEnds => ServeEndsKeepsInv(s);
    case TaskDecrement => DecrementKeepsInv(s);
    case TaskNotify => NotifyKeepsInv(s);
    case TaskEnds =>
  }

  lemma CompleterKeepsInv(s: State)
    requires Inv(s) && StepCompleter(s).Some?
    ensures Inv(StepCompleter(s).value)
  {
  }

  lemma StepKeepsInv(s: State, a: Action)
    requires Inv(s) && Step(s, a).Some?
    ensures Inv(Step(s, a).value)
  {
    match a
    case DrainStep => DrainKeepsInv(s);
    case ServeEnds | TaskDecrement | TaskNotify | TaskEnds => TaskKeepsInv(s, a);
    case CompleterStep => CompleterKeepsInv(s);
    case _ =>
  }

  lemma {:induction false} RunKeepsInv(acts: seq<Action>)
    requires Exec(Step, Init, acts).Some?
    ensures Inv(Exec(Step, Init, acts).value)
  {
    if acts == [] {
    } else {
      var front := acts[..|acts| - 1];
      RunKeepsInv(front);
      StepKeepsInv(Exec(Step, Init, front).value, acts[|acts| - 1]);
    }
  }

  /** In every interleaving, a drain that waits with no connection left has its notification
  already, or the task that took the count to zero is about to send it. */
  lemma NoMissedDrain(acts: seq<Action>)
    requires Exec(Step, Init, acts).Some?
    ensures var s := Exec(Step, Init, acts).value;
            s.drain.Waiting? && s.inflight == 0 ==> s.notified || s.notifying > 0
  {
    RunKeepsInv(acts);
  }

  /** A worker that reports a full drain, with its socket sound, has written one completion
  byte for every descriptor it received: served, failed or never opened. */
  lemma FullDrainAnswersAll(acts: seq<Action>)
    requires Exec(Step, Init, acts).Some?
    ensures var s := Exec(Step, Init, acts).value;
            s.drain == Returned(true) && !s.socketFailed ==> s.bytesWritten == s.received && s.serving == 0
  {
    RunKeepsInv(acts);
  }

  // ---- The drain comes to an end ----

  /** The drain has begun, and no deadline has cut it short. */
  predicate OnCourse(s: State) {
    && !s.drain.Receiving? && s.drain != Returned(false)
    && (s.drain.Dropping? || s.drain.Deciding? ==> s.inflight == 0)
  }

  /** Steps of the drain, the connection tasks and the completer; no deadline, no socket error. */
  predicate Internal(a: Action) {
    a.DrainStep? || a.ServeEnds? || a.TaskDecrement? || a.TaskNotify? || a.TaskEnds? || a.CompleterStep?
  }

  function DrainLeft(d: Drain, notified: bool): nat {
    match d
    case Receiving => 9
    case Reading => 8
    case Creating => 7
    case Enabling => if notified then 10 else 6
    case Rereading => if notified then 9 else 5
    case Waiting => if notified then 8 else 4
    case Dropping => 3
    case Deciding => 2
    case Joining => 1
    case Returned(_) => 0
  }

  function TasksLeft(s: State): nat {
    9 * s.serving + 7 * s.finishing + 6 * s.notifying + s.ending + s.doneQueue
  }

  /** An upper bound on the internal steps left. A notification may send the drain round its
  loop once more, which is why a task that is about to send one weighs as much as a round. */
  function Work(s: State): nat {
    DrainLeft(s.drain, s.notified) + TasksLeft(s) + if s.completerDone then 0 else 1
  }

  lemma DrainProgress(s: State)
    requires Inv(s) && OnCourse(s) && StepDrain(s).Some?
    ensures OnCourse(StepDrain(s).value) && Work(StepDrain(s).value) < Work(s)
  {
    var t := StepDrain(s).value;
    assert TasksLeft(t) == TasksLeft(s) && t.completerDone == s.completerDone;
    assert DrainLeft(t.drain, t.notified) < DrainLeft(s.drain, s.notified);
  }

  /** A notification costs the drain at most one more round. */
  lemma RoundMore(d: Drain)
    ensures DrainLeft(d, true) <= DrainLeft(d, false) + 4
  {
  }

  lemma TaskFrame(s: State, a: Action)
    requires StepTask(s, a).Some?
    ensures var t := StepTask(s, a).value; t.drain == s.drain && t.completerDone == s.completerDone
    ensures a.TaskNotify? || StepTask(s, a).value.notified == s.notified
  {
  }

  lemma TaskLeft(s: State, a: Action)
    requires StepTask(s, a).Some?
    ensures TasksLeft(StepTask(s, a).value) + (if a.TaskNotify? then 4 else 0) < TasksLeft(s)
  {
  }

  lemma TaskCourse(s: State, a: Action)
    requires Inv(s) && OnCourse(s) && StepTask(s, a).Some?
    ensures OnCourse(StepTask(s, a).value)
  {
  }

  lemma TaskProgress(s: State, a: Action)
    requires Inv(s) && OnCourse(s) && StepTask(s, a).Some?
    ensures OnCourse(StepTask(s, a).value) && Work(StepTask(s, a).value) < Work(s)
  {
    TaskFrame(s, a);
    TaskLeft(s, a);
    RoundMore(s.drain);
    TaskCourse(s, a);
  }

  lemma StepProgress(s: State, a: Action)
    requires Inv(s) && OnCourse(s) && Internal(a) && Step(s, a).Some?
    ensures OnCourse(Step(s, a).value) && Work(Step(s, a).value) < Work(s)
  {
    match a
    case DrainStep => DrainProgress(s);
    case CompleterStep =>
    case _ => TaskProgress(s, a);
  }

  /** Some internal step is possible. */
  predicate CanMove(s: State) {
    || StepDrain(s).Some? || StepCompleter(s).Some?
    || s.serving > 0 || s.finishing > 0 || s.notifying > 0 || s.ending > 0
  }

  /** A drain that waits has a task to notify it; one that joins, a completer to wait for. */
  lemma NeverStuck(s: State)
    requires Inv(s) && OnCourse(s) && s.drain != Returned(true)
    ensures CanMove(s)
  {
  }

  /** Without a deadline the drain completes: in whatever order the drain, the connection tasks
  and the completer move, they take no more steps than `Work` says, and they can go on until
  the drain reports that every connection is finished. */
  lemma {:induction false} DrainArrives(s: State, acts: seq<Action>)
    requires Inv(s) && OnCourse(s)
    requires Exec(Step, s, acts).Some? && forall i :: 0 <= i < |acts| ==> Internal(acts[i])
    ensures var t := Exec(Step, s, acts).value;
            && Inv(t) && OnCourse(t)
            && |acts| + Work(t) <= Work(s)
            && (t.drain == Returned(true) || CanMove(t))
  {
    if acts == [] {
    } else {
      var front, a := acts[..|acts| - 1], acts[|acts| - 1];
      DrainArrives(s, front);
      StepKeepsInv(Exec(Step, s, front).value, a);
      StepProgress(Exec(Step, s, front).value, a);
    }
    if Exec(Step, s, acts).value.drain != Returned(true) {
      NeverStuck(Exec(Step, s, acts).value);
    }
  }
}
