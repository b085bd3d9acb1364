/** Load accounting between the acceptor and its workers (src/cluster.rs). The acceptor
counts a connection on dispatch and passes its descriptor down a socket; the worker serves
it and queues a completion, which its completer writes back as one byte; the acceptor's
reader takes each byte off the counter, after checking that the counter is not zero.

Any number of workers come and go. Every counter, queue and socket access is one step, the
reader's check and decrement being two, so dispatches and completions interleave freely. */
module ClusterLoad {
  import opened Runs

  const READ_BUFFER := 64

  /** One worker, with everything in flight between it and the acceptor. */
  datatype Worker = Worker(
    listed: bool,        // in the acceptor's list
    up: bool,            // the socket pair is sound
    outstanding: int,
    dispatching: nat,    // picked; the descriptor is not yet in the socket
    sockFds: nat,
    serving: nat,
    doneQueue: nat,
    completing: nat,     // taken from the queue, byte not yet written
    bytes: nat,          // completion bytes in the socket
    inHand: nat,         // read into the acceptor's buffer, not yet counted off
    checked: bool,       // the reader saw a non-zero counter and is about to decrement
    swallowed: nat,      // history: bytes the reader's guard threw away
    lost: nat)           // history: connections that died with the socket

  datatype WorkerAction =
    | Pick
    | ConvertFails       // `into_std` failed
    | SendFd
    | SendFails
    | Receive
    | ReceiveBad         // `tcp_from_fd` failed
    | ServeEnds
    | TakeDone
    | WriteByte
    | ReadBytes(n: nat)
    | CheckCounter
    | Decrement
    | SocketBreaks       // worker exits, or either end fails
    | ReaderEnds

  datatype Action = Connect | At(worker: nat, step: WorkerAction)

  const Fresh := Worker(true, true, 0, 0, 0, 0, 0, 0, 0, 0, false, 0, 0)

  /** `Workers::pick` and `dispatch_one`. */
  function StepDispatch(w: Worker, a: WorkerAction): Option<Worker> {
    match a
    case Pick =>
      if !w.listed then None else Some(w.(outstanding := w.outstanding + 1, dispatching := w.dispatching + 1))
    case ConvertFails =>
      if w.dispatching == 0 then None else Some(w.(outstanding := w.outstanding - 1, dispatching := w.dispatching - 1))
    case SendFd =>
      if w.dispatching == 0 || !w.up then None else Some(w.(dispatching := w.dispatching - 1, sockFds := w.sockFds + 1))
    case SendFails =>
      if w.dispatching == 0 then None else Some(w.(outstanding := w.outstanding - 1, dispatching := w.dispatching - 1))
    case _ => None
  }

  /** The worker process: its receive loop, its connection tasks and its completer. */
  function StepWorker(w: Worker, a: WorkerAction): Option<Worker> {
    match a
    case Receive => if w.sockFds == 0 then None else Some(w.(sockFds := w.sockFds - 1, serving := w.serving + 1))
    case ReceiveBad => if w.sockFds == 0 then None else Some(w.(sockFds := w.sockFds - 1, doneQueue := w.doneQueue + 1))
    case ServeEnds => if w.serving == 0 then None else Some(w.(serving := w.serving - 1, doneQueue := w.doneQueue + 1))
    case TakeDone =>
      if w.doneQueue == 0 || w.completing > 0 then None
      else Some(w.(doneQueue := w.doneQueue - 1, completing := w.completing + 1))
    case WriteByte =>
      if w.completing == 0 || !w.up then None else Some(w.(completing := w.completing - 1, bytes := w.bytes + 1))
    case _ => None
  }

  /** The acceptor's completion reader for this worker. */
  function StepReader(w: Worker, a: WorkerAction): Option<Worker> {
    match a
    case ReadBytes(n) =>
      if w.inHand > 0 || !(0 < n <= READ_BUFFER && n <= w.bytes) then None
      else Some(w.(bytes := w.bytes - n, inHand := n))
    case CheckCounter =>
      if w.inHand == 0 || w.checked then None
      else if w.outstanding > 0 then Some(w.(checked := true))
      else Some(w.(inHand := w.inHand - 1, swallowed := w.swallowed + 1))
    case Decrement =>
      if !w.checked || w.inHand == 0 then None
      else Some(w.(outstanding := w.outstanding - 1, inHand := w.inHand - 1, checked := false))
    case ReaderEnds => if w.up || w.bytes + w.inHand > 0 then None else Some(w.(listed := false))
    case _ => None
  }

  function StepOne(w: Worker, a: WorkerAction): Option<Worker> {
    match a
    case Pick | ConvertFails | SendFd | SendFails => StepDispatch(w, a)
    case Receive | ReceiveBad | ServeEnds | TakeDone | WriteByte => StepWorker(w, a)
    case ReadBytes(_) | CheckCounter | Decrement | ReaderEnds => StepReader(w, a)
    case SocketBreaks =>
      Some(w.(up := false, sockFds := 0, serving := 0, doneQueue := 0, completing := 0,
              lost := w.lost + w.sockFds + w.serving + w.doneQueue + w.completing))
  }

  function Step(ws: seq<Worker>, a: Action): Option<seq<Worker>> {
    match a
    case Connect => Some(ws + [Fresh])
    case At(i, step) =>
      if i >= |ws| then None
      else
        match StepOne(ws[i], step)
        case None => None
        case Some(w) => Some(ws[i := w])
  }

  /** Connections dispatched to the worker whose completion has not been counted off. */
  function InFlight(w: Worker): nat {
    w.dispatching + w.sockFds + w.serving + w.doneQueue + w.completing + w.bytes + w.inHand
  }

  ghost predicate Balanced(w: Worker) {
    && w.outstanding == InFlight(w) + w.lost
    && (w.checked ==> w.inHand > 0)
    && w.swallowed == 0
    && (w.up ==> w.lost == 0)
  }

  ghost predicate Inv(ws: seq<Worker>) {
    forall i :: 0 <= i < |ws| ==> Balanced(ws[i])
  }

  lemma StepOneKeepsBalance(w: Worker, a: WorkerAction)
    requires Balanced(w) && StepOne(w, a).Some?
    ensures Balanced(StepOne(w, a).value)
  {
  }

  lemma StepKeepsInv(ws: seq<Worker>, a: Action)
    requires Inv(ws) && Step(ws, a).Some?
    ensures Inv(Step(ws, a).value)
  {
    if a.At? {
      StepOneKeepsBalance(ws[a.worker], a.step);
    }
  }

  lemma {:induction false} RunKeepsInv(acts: seq<Action>)
    requires Exec(Step, [], acts).Some?
    ensures Inv(Exec(Step, [], acts).value)
  {
    if acts == [] {
    } else {
      var front := acts[..|acts| - 1];
      RunKeepsInv(front);
      StepKeepsInv(Exec(Step, [], front).value, acts[|acts| - 1]);
    }
  }

  /** In every reachable state of the cluster, each connected worker's counter is exactly
  what is in flight to and from it. The counter never underflows, even once the socket is
  gone, and the reader's guard against zero never throws a completion away. */
  lemma LoadConserved(acts: seq<Action>)
    requires Exec(Step, [], acts).Some?
    ensures var ws := Exec(Step, [], acts).value;
            forall i :: 0 <= i < |ws| ==>
              && (ws[i].up ==> ws[i].outstanding == InFlight(ws[i]))
              && ws[i].outstanding >= InFlight(ws[i])
              && ws[i].swallowed == 0
  {
    RunKeepsInv(acts);
  }
}
