/** A streaming body from end to end (src/streaming.rs): the generator's driver fills the
channel that the coalescing receiver empties. */
module StreamBody {
  import opened Coalescer
  import opened Runs
  import opened StreamDrivers
  import opened Text

  /** What the driver has put into the channel so far. */
  function Pushes(s: State): seq<string> {
    s.delivered + s.chan
  }

  /** No sender is left, so the channel is closed. */
  predicate NoSender(s: State) {
    !s.txHeld && s.waiter.NoWaiter? && s.lingering == 0
  }

  /** What a step from `s` to `t` is to the receiver. */
  function Move(s: State, t: State): Arrival {
    Arrival(if Pushes(s) <= Pushes(t) then AsData(Pushes(t)[|Pushes(s)|..]) else [], NoSender(t))
  }

  /** A run of the driver as the producer's moves, one for each step. */
  function Moves(b: Body, acts: seq<Action>): (env: seq<Arrival>)
    requires Exec(Step, Start(b), acts).Some?
    ensures |env| == |acts|
  {
    if acts == [] then [] else
    var front := acts[..|acts| - 1];
    Moves(b, front) + [Move(Exec(Step, Start(b), front).value, Exec(Step, Start(b), acts).value)]
  }

  lemma ConcatPrefix(a: seq<string>, b: seq<string>)
    requires a <= b
    ensures Concat(a) <= Concat(b)
  {
    assert b == a + b[|a|..];
    ConcatBoth(a, b[|a|..]);
  }

  lemma BytesPrefix(a: string, b: string)
    requires a <= b
    ensures Coalescer.Bytes(a) <= Coalescer.Bytes(b)
  {
  }

  /** What the driver pushed is a prefix of what the generator yields, and all of it once the
  last sender is gone. */
  lemma PushesAreYields(b: Body, acts: seq<Action>)
    requires Exec(Step, Start(b), acts).Some? && !Exec(Step, Start(b), acts).value.dropped
    ensures var s := Exec(Step, Start(b), acts).value;
      && Pushes(s) <= Sent(b, |b.items|)
      && (!s.txHeld && s.waiter.NoWaiter? ==> Pushes(s) == Sent(b, |b.items|))
  {
    var s := Exec(Step, Start(b), acts).value;
    RunKeepsInv(b, acts);
    SentGrows(b, s.next, |b.items|);
    assert Pushes(s) + Hand(s) == Sent(b, s.next);
  }

  /** What a step may do to a channel that its consumer holds. */
  ghost predicate Advances(s: State, t: State) {
    && Pushes(s) <= Pushes(t) && |Pushes(t)| <= |Pushes(s)| + 1
    && (NoSender(s) ==> NoSender(t) && Pushes(t) == Pushes(s))
  }

  lemma SamePushes(s: State, t: State)
    requires Pushes(t) == Pushes(s) && (NoSender(s) ==> NoSender(t))
    ensures Advances(s, t)
  {
  }

  lemma OnePush(s: State, t: State, chunk: string)
    requires t.delivered == s.delivered && t.chan == s.chan + [chunk] && !NoSender(s)
    ensures Advances(s, t)
  {
    assert Pushes(t) == Pushes(s) + [chunk];
  }

  lemma DriverPushes(s: State)
    requires Inv(s) && StepDriver(s).Some?
    ensures Advances(s, StepDriver(s).value)
  {
    var t := StepDriver(s).value;
    if t.chan == s.chan {
      SamePushes(s, t);
    } else {
      OnePush(s, t, t.chan[|s.chan|]);
    }
  }

  lemma DrainPushes(s: State, cut: bool)
    requires Inv(s) && StepDrain(s, cut).Some?
    ensures Advances(s, StepDrain(s, cut).value)
  {
    var t := StepDrain(s, cut).value;
    if t.chan == s.chan {
      SamePushes(s, t);
    } else {
      OnePush(s, t, t.chan[|s.chan|]);
    }
  }

  /** Steps only add to what was pushed; what the consumer takes out is not a push, and a closed
  channel stays closed and as it is. */
  lemma StepPushes(s: State, a: Action)
    requires Inv(s) && Step(s, a).Some? && !Step(s, a).value.dropped
    ensures !s.dropped && Advances(s, Step(s, a).value)
    ensures a.Poll? ==> Pushes(Step(s, a).value) == Pushes(s)
  {
    match a
    case DrainStep(cut) => DrainPushes(s, cut);
    case DriverStep => DriverPushes(s);
    case WaiterStep =>
    case WaiterLeaves =>
    case Poll => assert s.delivered + [s.chan[0]] + s.chan[1..] == s.delivered + s.chan;
    case Drop =>
  }

  lemma {:induction false} ArrivedBefore(env: seq<Arrival>, last: Arrival, n: nat, closed: bool)
    requires n <= |env|
    ensures Pushed(env + [last], n, closed) == Pushed(env, n, closed)
    ensures ClosedBy(env + [last], n, closed) == ClosedBy(env, n, closed)
  {
    if n == 0 {
    } else {
      ArrivedBefore(env, last, n - 1, closed);
    }
  }

  lemma AsDataGrows(a: seq<string>, b: seq<string>)
    requires a <= b
    ensures AsData(b) == AsData(a) + AsData(b[|a|..])
  {
  }

  /** A receiver told the moves of a run has been pushed what the driver pushed, and its channel
  is closed exactly when no sender is left. */
  lemma {:induction false} RunArrives(b: Body, acts: seq<Action>)
    requires Exec(Step, Start(b), acts).Some? && !Exec(Step, Start(b), acts).value.dropped
    ensures var t := Exec(Step, Start(b), acts).value;
      Arrived([], false, Moves(b, acts), |acts|, AsData(Pushes(t)), NoSender(t))
  {
    if acts == [] {
    } else {
      var n := |acts| - 1;
      var front := acts[..n];
      var s, t := Exec(Step, Start(b), front).value, Exec(Step, Start(b), acts).value;
      RunKeepsInv(b, front);
      StepPushes(s, acts[n]);
      RunArrives(b, front);
      AsDataGrows(Pushes(s), Pushes(t));
      ArrivedBefore(Moves(b, front), Move(s, t), n, false);
      ArrivedStep([], false, Moves(b, acts), n, AsData(Pushes(s)), NoSender(s));
    }
  }

  lemma TakenIsPrefix(out: seq<Item>, taken: seq<Item>, rest: seq<Item>, pushes: seq<string>, all: seq<string>)
    requires taken + rest == AsData(pushes) && Flat(out) == Flat(taken) && pushes <= all
    ensures Flat(out) <= Coalescer.Bytes(Concat(all))
    ensures rest == [] && pushes == all ==> Flat(out) == Coalescer.Bytes(Concat(all))
  {
    ConcatPrefix(pushes, all);
    BytesPrefix(Concat(pushes), Concat(all));
    JoinedSaysSame(pushes);
    FlatConcat(taken, rest);
  }

  lemma GivenIsPrefix(r: Receiver, pushes: seq<string>, all: seq<string>)
    requires r.Valid() && r.pushed == AsData(pushes) && pushes <= all && (r.closed ==> pushes == all)
    ensures Flat(r.out) <= Coalescer.Bytes(Concat(all))
    ensures r.closed && r.queue == [] && r.pending.None? ==> Flat(r.out) == Coalescer.Bytes(Concat(all))
  {
    var rest := r.Held() + r.queue;
    assert r.taken + rest == r.taken + AsData([]) + r.Held() + r.queue;
    TakenIsPrefix(r.out, r.taken, rest, pushes, all);
  }

  /** At every moment of every run, whatever polls the moves fell into, the bytes the client has
  been given are a prefix of the generator's chunks put together; once the receiver answers with
  the end they are all of them. */
  lemma EndToEnd(b: Body, acts: seq<Action>, r: Receiver)
    requires Exec(Step, Start(b), acts).Some? && !Exec(Step, Start(b), acts).value.dropped
    requires r.Valid() && Arrived([], false, Moves(b, acts), |acts|, r.pushed, r.closed)
    ensures Flat(r.out) <= Coalescer.Bytes(Concat(Sent(b, |b.items|)))
    ensures r.closed && r.queue == [] && r.pending.None? ==> Flat(r.out) == Coalescer.Bytes(Concat(Sent(b, |b.items|)))
  {
    RunArrives(b, acts);
    PushesAreYields(b, acts);
    GivenIsPrefix(r, Pushes(Exec(Step, Start(b), acts).value), Sent(b, |b.items|));
  }

  /** When nothing is held back or queued, everything pushed has been answered. */
  lemma AllGiven(r: Receiver, pushes: seq<string>)
    requires r.Valid() && r.pushed == AsData(pushes) && r.queue == [] && r.pending.None?
    ensures Flat(r.out) == Coalescer.Bytes(Concat(pushes))
  {
    assert r.taken + [] == r.taken + AsData([]) + r.Held() + r.queue;
    TakenIsPrefix(r.out, r.taken, [], pushes, pushes);
  }

  /** A poll during which the producer does not move: it answers with something, if there is
  anything to answer with. */
  method PollOnce(r: Receiver) returns (p: Coalescer.Poll)
    requires r.Valid()
    modifies r
    ensures r.Valid() && r.pushed == old(r.pushed) && r.closed == old(r.closed)
    ensures p.Ready? <==> old(r.queue != [] || r.pending.Some?)
    ensures p.Ready? ==> |r.taken| > |old(r.taken)| && r.out == old(r.out) + [p.item]
    ensures !p.Ready? ==> r.queue == [] && r.pending.None? && r.out == old(r.out) && (p.End? <==> r.closed)
  {
    var answer, _, _ := r.PollNext([]);
    p := answer;
  }

  /** Polls until there is nothing to answer with. */
  method PollAll(r: Receiver) returns (last: Coalescer.Poll)
    requires r.Valid()
    modifies r
    ensures r.Valid() && r.pushed == old(r.pushed) && r.closed == old(r.closed)
    ensures r.queue == [] && r.pending.None? && !last.Ready? && (last.End? <==> r.closed)
  {
    last := PollOnce(r);
    while last.Ready?
      invariant r.Valid() && r.pushed == old(r.pushed) && r.closed == old(r.closed)
      invariant !last.Ready? ==> r.queue == [] && r.pending.None? && (last.End? <==> r.closed)
      decreases last.Ready?, |r.pushed| - |r.taken|
    {
      last := PollOnce(r);
    }
  }

  /** The producer's move number `i`, and a poll if there is one then. */
  method Turn(r: Receiver, env: seq<Arrival>, i: nat, poll: bool)
    requires r.Valid() && i < |env| && Arrived([], false, env, i, r.pushed, r.closed)
    modifies r
    ensures r.Valid() && Arrived([], false, env, i + 1, r.pushed, r.closed)
    ensures poll ==> |r.out| == |old(r.out)| + 1 || (r.queue == [] && r.pending.None?)
  {
    ArrivedStep([], false, env, i, r.pushed, r.closed);
    r.Arrive(env[i], []);
    if poll {
      var _ := PollOnce(r);
    }
  }

  method Feed(env: seq<Arrival>, polls: set<nat>) returns (r: Receiver)
    ensures fresh(r) && r.Valid() && Arrived([], false, env, |env|, r.pushed, r.closed)
  {
    r := new Receiver();
    for i := 0 to |env|
      invariant fresh(r) && r.Valid() && Arrived([], false, env, i, r.pushed, r.closed)
    {
      Turn(r, env, i, i in polls);
    }
  }

  /** A receiver serving a run from its start: it learns of the moves one by one, polled after
  those that `polls` names, and at last is polled for as long as it has an answer. By then it has
  answered with everything the driver pushed, and reports the end exactly when no sender is left. */
  method Serve(b: Body, acts: seq<Action>, polls: set<nat>) returns (r: Receiver, last: Coalescer.Poll)
    requires Exec(Step, Start(b), acts).Some? && !Exec(Step, Start(b), acts).value.dropped
    ensures r.Valid() && Arrived([], false, Moves(b, acts), |acts|, r.pushed, r.closed)
    ensures var t := Exec(Step, Start(b), acts).value;
      Flat(r.out) == Coalescer.Bytes(Concat(Pushes(t))) && !last.Ready? && (last.End? <==> NoSender(t))
    ensures last.End? ==> Flat(r.out) == Coalescer.Bytes(Concat(Sent(b, |b.items|)))
  {
    r := Feed(Moves(b, acts), polls);
    last := PollAll(r);
    RunArrives(b, acts);
    AllGiven(r, Pushes(Exec(Step, Start(b), acts).value));
    EndToEnd(b, acts, r);
  }
}
