/** Dependencies with `yield` in a request (src/router.rs): the loop that resolves
dependencies and enters generators, and the four ways they are torn down. Generators are
known by their position in the order of entry. */
module YieldDeps {
  import opened Runs

  type Error = string

  /** How a suspended generator reacts when it is advanced past its yield. */
  datatype Advance = Ends | YieldsAgain | Raises(error: Error)

  /** How it reacts to an exception thrown in. */
  datatype Reaction = Swallows | Reraises(error: Error) | YieldsOn

  datatype Gen = Gen(func: bool, onSend: Advance, onThrow: Error -> Reaction)

  /** What is done to generator `g`; handing over leaves it to the end of the stream. */
  datatype Event = Send(g: nat) | Throw(g: nat, error: Error) | Close(g: nat) | HandOver(g: nat)

  // ---- What the four teardown functions do ----

  /** `close()` on each of the first `n`, last entered first. */
  function CloseLog(n: nat): seq<Event> {
    if n == 0 then [] else [Close(n - 1)] + CloseLog(n - 1)
  }

  /** Advance, and close the rest of a generator that yields again. */
  function SendLog(gen: Gen, g: nat): seq<Event> {
    if gen.onSend.YieldsAgain? then [Send(g), Close(g)] else [Send(g)]
  }

  function FunctionLog(gens: seq<Gen>, n: nat): seq<Event>
    requires n <= |gens|
  {
    if n == 0 then []
    else if !gens[n - 1].func then FunctionLog(gens, n - 1)
    else SendLog(gens[n - 1], n - 1) + if gens[n - 1].onSend.Raises? then [] else FunctionLog(gens, n - 1)
  }

  function FunctionError(gens: seq<Gen>, n: nat): Option<Error>
    requires n <= |gens|
  {
    if n == 0 then None
    else if gens[n - 1].func && gens[n - 1].onSend.Raises? then Some(gens[n - 1].onSend.error)
    else FunctionError(gens, n - 1)
  }

  function RequestLog(gens: seq<Gen>, n: nat, errored: bool): seq<Event>
    requires n <= |gens|
  {
    if n == 0 then []
    else if gens[n - 1].func then RequestLog(gens, n - 1, errored)
    else (if errored then [Close(n - 1)] else SendLog(gens[n - 1], n - 1)) + RequestLog(gens, n - 1, errored)
  }

  /** The exceptions that request-scope generators raise after their yield. */
  function LateErrors(gens: seq<Gen>, n: nat, errored: bool): seq<Error>
    requires n <= |gens|
  {
    if n == 0 then []
    else if gens[n - 1].func then LateErrors(gens, n - 1, errored)
    else LateError(gens[n - 1], errored) + LateErrors(gens, n - 1, errored)
  }

  function LateError(gen: Gen, errored: bool): seq<Error> {
    if !errored && gen.onSend.Raises? then [gen.onSend.error] else []
  }

  /** The request-scope generators, in order of entry. */
  function HandLog(gens: seq<Gen>, n: nat): seq<Event>
    requires n <= |gens|
  {
    if n == 0 then [] else HandLog(gens, n - 1) + if gens[n - 1].func then [] else [HandOver(n - 1)]
  }

  function ThrowOne(gen: Gen, g: nat, live: Option<Error>): seq<Event> {
    match live
    case None => SendLog(gen, g)
    case Some(e) => if gen.onThrow(e).YieldsOn? then [Throw(g, e), Close(g)] else [Throw(g, e)]
  }

  /** The exception still alive after it was thrown into `gen`. */
  function Survivor(gen: Gen, live: Option<Error>): Option<Error> {
    match live
    case None => None
    case Some(e) =>
      match gen.onThrow(e)
      case Swallows => None
      case Reraises(other) => Some(other)
      case YieldsOn => live
  }

  function ThrowLog(gens: seq<Gen>, n: nat, live: Option<Error>): seq<Event>
    requires n <= |gens|
  {
    if n == 0 then [] else ThrowOne(gens[n - 1], n - 1, live) + ThrowLog(gens, n - 1, Survivor(gens[n - 1], live))
  }

  /** The exception alive once the generators from `n - 1` down to `k` have seen it. */
  function LiveAt(gens: seq<Gen>, n: nat, k: nat, live: Option<Error>): Option<Error>
    requires k <= n <= |gens|
  {
    if n == k then live else LiveAt(gens, n - 1, k, Survivor(gens[n - 1], live))
  }

  // ---- The request ----

  datatype Entry = Enters(gen: Gen) | EndsAtOnce | FailsToEnter(error: Error)

  datatype Call = NoCallable | Plain(failure: Option<Error>) | Yielding(entry: Entry)

  datatype Extraction = Good | Invalid | Abort

  datatype Param =
    | Input(name: string, extraction: Extraction)
    | Dependency(name: string, id: Option<nat>, inputs: seq<string>, call: Call)

  datatype Resolution = Resolved | Aborted | DependencyFailed(error: Error)

  datatype Entered = Entered(id: Option<nat>, gen: Gen)

  function Gens(entered: seq<Entered>): (gens: seq<Gen>)
    ensures |gens| == |entered|
  {
    seq(|entered|, i requires 0 <= i < |entered| => entered[i].gen)
  }

  predicate HasRequestScope(entered: seq<Entered>) {
    exists i :: 0 <= i < |entered| && !entered[i].gen.func
  }

  predicate IsInvalid(p: Param) {
    p.Input? && p.extraction.Invalid?
  }

  function Failure(call: Call): Option<Error> {
    match call
    case Plain(f) => f
    case Yielding(FailsToEnter(e)) => Some(e)
    case _ => None
  }

  function NewEntry(id: Option<nat>, call: Call): seq<Entered> {
    if call.Yielding? && call.entry.Enters? then [Entered(id, call.entry.gen)] else []
  }

  // ---- Which generators a request enters ----

  /** An input of parameter `i` failed its extraction. */
  predicate Skipped(params: seq<Param>, i: nat)
    requires i < |params| && params[i].Dependency?
  {
    exists j, k :: 0 <= j < i && 0 <= k < |params[i].inputs| && IsInvalid(params[j]) && params[j].name == params[i].inputs[k]
  }

  ghost predicate FailedBefore(params: seq<Param>, k: nat, name: string)
    requires k <= |params|
  {
    exists j :: 0 <= j < k && IsInvalid(params[j]) && params[j].name == name
  }

  lemma SkippedIff(params: seq<Param>, i: nat, failed: set<string>)
    requires i < |params| && params[i].Dependency? && forall name :: name in failed <==> FailedBefore(params, i, name)
    ensures Skipped(params, i) <==> exists k :: 0 <= k < |params[i].inputs| && params[i].inputs[k] in failed
  {
  }

  /** Parameter `i` is a dependency that is called: its inputs did not fail, it has a callable,
  and no earlier parameter has a value for the same callable. */
  predicate Called(params: seq<Param>, i: nat)
    requires i < |params|
    decreases i, 1
  {
    && params[i].Dependency? && !params[i].call.NoCallable? && !Skipped(params, i)
    && (params[i].id.Some? ==> !HasValue(params, i, params[i].id.value))
  }

  /** One of the first `k` parameters called the callable `id`, with success. */
  predicate HasValue(params: seq<Param>, k: nat, id: nat)
    requires k <= |params|
    decreases k, 0
  {
    k > 0 && (HasValue(params, k - 1, id) || Supplies(params, k - 1, id))
  }

  predicate Supplies(params: seq<Param>, i: nat, id: nat)
    requires i < |params|
    decreases i, 2
  {
    params[i].Dependency? && params[i].id == Some(id) && Called(params, i) && Failure(params[i].call).None?
  }

  /** The generators entered by the first `k` parameters, in order. */
  function EnteredBy(params: seq<Param>, k: nat): seq<Entered>
    requires k <= |params|
  {
    if k == 0 then [] else
    EnteredBy(params, k - 1) + if Called(params, k - 1) then NewEntry(params[k - 1].id, params[k - 1].call) else []
  }

  /** Parameter `i` ends the loop. */
  function StopAt(params: seq<Param>, i: nat): Option<Resolution>
    requires i < |params|
  {
    match params[i]
    case Input(_, extraction) => if extraction.Abort? then Some(Aborted) else None
    case Dependency(_, _, _, call) =>
      if Called(params, i) && Failure(call).Some? then Some(DependencyFailed(Failure(call).value)) else None
  }

  lemma InputTurn(params: seq<Param>, i: nat)
    requires i < |params| && params[i].Input?
    ensures EnteredBy(params, i + 1) == EnteredBy(params, i)
    ensures forall id :: HasValue(params, i + 1, id) <==> HasValue(params, i, id)
    ensures SomeInvalid(params, i + 1) <==> SomeInvalid(params, i) || IsInvalid(params[i])
    ensures forall name :: FailedBefore(params, i + 1, name) <==>
      FailedBefore(params, i, name) || (IsInvalid(params[i]) && name == params[i].name)
  {
    assert !Called(params, i);
  }

  lemma DependencyTurn(params: seq<Param>, i: nat)
    requires i < |params| && params[i].Dependency?
    ensures EnteredBy(params, i + 1) ==
      EnteredBy(params, i) + if Called(params, i) then NewEntry(params[i].id, params[i].call) else []
    ensures forall id :: HasValue(params, i + 1, id) <==> HasValue(params, i, id) || Supplies(params, i, id)
    ensures SomeInvalid(params, i + 1) <==> SomeInvalid(params, i)
    ensures forall name :: FailedBefore(params, i + 1, name) <==> FailedBefore(params, i, name)
  {
  }

  lemma CalledIff(params: seq<Param>, i: nat)
    requires i < |params| && params[i].Dependency?
    ensures Called(params, i) <==>
      && !params[i].call.NoCallable? && !Skipped(params, i)
      && (params[i].id.Some? ==> !HasValue(params, i, params[i].id.value))
    ensures forall id: nat :: Supplies(params, i, id) <==>
      params[i].id == Some(id) && Called(params, i) && Failure(params[i].call).None?
  {
  }

  /** The loop gets through `k` parameters: to the first that ends it, or to the end. */
  ghost predicate Processed(params: seq<Param>, k: nat) {
    && k <= |params|
    && (NoStop(params, k) || (k > 0 && NoStop(params, k - 1) && StopAt(params, k - 1).Some?))
    && (k < |params| ==> !NoStop(params, k))
  }

  ghost predicate NoStop(params: seq<Param>, k: nat)
    requires k <= |params|
  {
    forall i {:trigger StopAt(params, i)} :: 0 <= i < k ==> StopAt(params, i).None?
  }

  ghost predicate SomeInvalid(params: seq<Param>, k: nat)
    requires k <= |params|
  {
    exists i :: 0 <= i < k && IsInvalid(params[i])
  }

  /** Some parameter keeps the handler from being called. */
  ghost predicate Refused(params: seq<Param>) {
    exists i :: 0 <= i < |params| && (StopAt(params, i).Some? || IsInvalid(params[i]))
  }

  datatype Handler = Returns(streaming: bool) | Fails(error: Error)

  datatype Reply =
    | Rejected                       // before the handler was called
    | HandlerFailed(error: Error)
    | FastApiError                   // a dependency swallowed the handler's exception
    | FunctionRaised(error: Error)   // a function-scope dependency raised after its yield
    | Answered(deferred: bool)

  /** What is done to the generators when the handler returned. */
  function SuccessLog(gens: seq<Gen>, reply: Reply): seq<Event> {
    FunctionLog(gens, |gens|) +
    if reply == Answered(true) then HandLog(gens, |gens|) else RequestLog(gens, |gens|, reply.FunctionRaised?)
  }

  class Request {
    var resolved: set<string>
    var cache: map<nat, string>
    var failed: set<string>
    var invalid: bool
    var entered: seq<Entered>
    var log: seq<Event>
    var captured: seq<Error>

    /** Whoever is in the cache has a value, and no callable has been entered twice. */
    ghost predicate Valid()
      reads this
    {
      && (forall id :: id in cache ==> cache[id] in resolved)
      && (forall i :: 0 <= i < |entered| && entered[i].id.Some? ==> entered[i].id.value in cache)
      && (forall i, j :: 0 <= i < j < |entered| && entered[i].id.Some? ==> entered[i].id != entered[j].id)
    }

    /** Nothing has happened yet. */
    ghost predicate Fresh()
      reads this
    {
      && resolved == {} && cache == map[] && failed == {} && !invalid
      && entered == [] && log == [] && captured == []
    }

    constructor ()
      ensures Valid() && Fresh()
    {
      resolved, cache, failed, invalid := {}, map[], {}, false;
      entered, log, captured := [], [], [];
    }

    /** `teardown_generator_deps` with `errored`. */
    method CloseAll()
      modifies this`log
      ensures log == old(log) + CloseLog(|entered|)
    {
      for n := |entered| downto 0
        invariant log + CloseLog(n) == old(log) + CloseLog(|entered|)
      {
        log := log + [Close(n)];
      }
    }

    /** `teardown_function_scope_gens`. */
    method ExitFunctionScope() returns (error: Option<Error>)
      modifies this`log
      ensures log == old(log) + FunctionLog(Gens(entered), |entered|)
      ensures error == FunctionError(Gens(entered), |entered|)
    {
      ghost var gens := Gens(entered);
      for n := |entered| downto 0
        invariant log + FunctionLog(gens, n) == old(log) + FunctionLog(gens, |gens|)
        invariant FunctionError(gens, n) == FunctionError(gens, |gens|)
      {
        var gen := entered[n].gen;
        if gen.func {
          log := log + [Send(n)];
          match gen.onSend {
            case YieldsAgain => log := log + [Close(n)];
            case Ends =>
            case Raises(e) => return Some(e);
          }
        }
      }
      return None;
    }

    method ExitOne(n: nat, errored: bool)
      requires n < |entered|
      modifies this`log, this`captured
      ensures log == old(log) + if errored then [Close(n)] else SendLog(entered[n].gen, n)
      ensures captured == old(captured) + LateError(entered[n].gen, errored)
    {
      if errored {
        log := log + [Close(n)];
        return;
      }
      log := log + [Send(n)];
      match entered[n].gen.onSend {
        case YieldsAgain => log := log + [Close(n)];
        case Ends =>
        case Raises(e) => captured := captured + [e];
      }
    }

    /** `teardown_request_scope_gens`; an exception after the yield is captured. */
    method ExitRequestScope(errored: bool)
      modifies this`log, this`captured
      ensures log == old(log) + RequestLog(Gens(entered), |entered|, errored)
      ensures captured == old(captured) + LateErrors(Gens(entered), |entered|, errored)
    {
      ghost var gens := Gens(entered);
      for n := |entered| downto 0
        invariant log + RequestLog(gens, n, errored) == old(log) + RequestLog(gens, |gens|, errored)
        invariant captured + LateErrors(gens, n, errored) == old(captured) + LateErrors(gens, |gens|, errored)
      {
        if !entered[n].gen.func {
          ghost var before, seen := log, captured;
          ExitOne(n, errored);
          Assoc(before, if errored then [Close(n)] else SendLog(gens[n], n), RequestLog(gens, n, errored));
          Assoc(seen, LateError(gens[n], errored), LateErrors(gens, n, errored));
        }
      }
    }

    /** The part of `maybe_defer_request_scope_to_stream` that hands the generators over. */
    method HandOverRequestScope()
      modifies this`log
      ensures log == old(log) + HandLog(Gens(entered), |entered|)
    {
      ghost var gens := Gens(entered);
      for n := 0 to |entered|
        invariant log == old(log) + HandLog(gens, n)
      {
        if !entered[n].gen.func {
          log := log + [HandOver(n)];
        }
      }
    }

    method ThrowInto(n: nat, live: Option<Error>) returns (after: Option<Error>)
      requires n < |entered|
      modifies this`log
      ensures log == old(log) + ThrowOne(entered[n].gen, n, live)
      ensures after == Survivor(entered[n].gen, live)
    {
      var gen := entered[n].gen;
      after := live;
      match live {
        case Some(e) =>
          log := log + [Throw(n, e)];
          match gen.onThrow(e) {
            case Swallows => after := None;
            case Reraises(other) => after := Some(other);
            case YieldsOn => log := log + [Close(n)];
          }
        case None =>
          log := log + [Send(n)];
          if gen.onSend.YieldsAgain? {
            log := log + [Close(n)];
          }
      }
    }

    /** `teardown_generator_deps_error`: `None` means the exception was swallowed. */
    method ThrowAll(error: Error) returns (live: Option<Error>)
      modifies this`log
      ensures log == old(log) + ThrowLog(Gens(entered), |entered|, Some(error))
      ensures live == LiveAt(Gens(entered), |entered|, 0, Some(error))
    {
      ghost var gens := Gens(entered);
      live := Some(error);
      for n := |entered| downto 0
        invariant log + ThrowLog(gens, n, live) == old(log) + ThrowLog(gens, |gens|, Some(error))
        invariant LiveAt(gens, n, 0, live) == LiveAt(gens, |gens|, 0, Some(error))
      {
        ghost var before, was := log, live;
        live := ThrowInto(n, live);
        Assoc(before, ThrowOne(gens[n], n, was), ThrowLog(gens, n, live));
      }
    }

    /** `enter_sync_generator_dep` and the calls beside it. */
    method CallDependency(id: Option<nat>, call: Call) returns (failure: Option<Error>)
      requires !call.NoCallable?
      modifies this`entered
      ensures entered == old(entered) + NewEntry(id, call) && failure == Failure(call)
    {
      failure := None;
      match call {
        case Plain(f) => failure := f;
        case Yielding(entry) =>
          match entry {
            case Enters(gen) => entered := entered + [Entered(id, gen)];
            case EndsAtOnce =>
            case FailsToEnter(e) => failure := Some(e);
          }
      }
    }

    /** One turn of the dependency loop: skip a dependency with a failed input, reuse the value
    of a callable that has one, call the others once. */
    method Resolve(p: Param) returns (failure: Option<Error>)
      requires Valid() && p.Dependency?
      modifies this`resolved, this`cache, this`entered
      ensures Valid()
      ensures var skip := exists k :: 0 <= k < |p.inputs| && p.inputs[k] in failed;
        var reuse := p.id.Some? && p.id.value in old(cache);
        if skip || (!reuse && p.call.NoCallable?) then
          resolved == old(resolved) && cache == old(cache) && entered == old(entered) && failure.None?
        else if reuse then
          resolved == old(resolved) + {p.name} && cache == old(cache) && entered == old(entered) && failure.None?
        else
          && failure == Failure(p.call)
          && entered == old(entered) + NewEntry(p.id, p.call)
          && resolved == old(resolved) + (if failure.None? then {p.name} else {})
          && cache == if failure.None? && p.id.Some? then old(cache)[p.id.value := p.name] else old(cache)
    {
      if exists k :: 0 <= k < |p.inputs| && p.inputs[k] in failed {
        return None;
      }
      if p.id.Some? && p.id.value in cache && cache[p.id.value] in resolved {
        resolved := resolved + {p.name};
        return None;
      }
      if p.call.NoCallable? {
        return None;
      }
      failure := CallDependency(p.id, p.call);
      if failure.None? {
        resolved := resolved + {p.name};
        if p.id.Some? {
          cache := cache[p.id.value := p.name];
        }
      }
    }

    /** The state is that after the first `k` parameters. */
    ghost predicate After(params: seq<Param>, k: nat)
      requires k <= |params|
      reads this
    {
      && entered == EnteredBy(params, k)
      && (invalid <==> SomeInvalid(params, k))
      && (forall name :: name in failed <==> FailedBefore(params, k, name))
      && (forall id :: id in cache <==> HasValue(params, k, id))
    }

    /** One turn of the loop for an input. */
    method TakeInput(params: seq<Param>, i: nat) returns (abort: bool)
      requires Valid() && i < |params| && params[i].Input? && After(params, i)
      modifies this`resolved, this`failed, this`invalid
      ensures Valid() && (abort <==> StopAt(params, i) == Some(Aborted)) && (!abort ==> StopAt(params, i).None?)
      ensures entered == EnteredBy(params, i + 1) && (!abort ==> After(params, i + 1))
    {
      InputTurn(params, i);
      match params[i].extraction {
        case Abort => abort := true;
        case Invalid => abort, failed, invalid := false, failed + {params[i].name}, true;
        case Good => abort, resolved := false, resolved + {params[i].name};
      }
    }

    /** One turn of the loop for a dependency. */
    method TakeDependency(params: seq<Param>, i: nat) returns (failure: Option<Error>)
      requires Valid() && i < |params| && params[i].Dependency? && After(params, i)
      modifies this`resolved, this`cache, this`entered
      ensures Valid() && entered == EnteredBy(params, i + 1)
      ensures StopAt(params, i) == if failure.Some? then Some(DependencyFailed(failure.value)) else None
      ensures failure.None? ==> After(params, i + 1)
    {
      DependencyTurn(params, i);
      SkippedIff(params, i, failed);
      CalledIff(params, i);
      failure := Resolve(params[i]);
    }

    method TakeParam(params: seq<Param>, i: nat) returns (stop: Option<Resolution>)
      requires Valid() && i < |params| && After(params, i)
      modifies this`resolved, this`cache, this`failed, this`invalid, this`entered
      ensures Valid() && stop == StopAt(params, i)
      ensures entered == EnteredBy(params, i + 1) && (stop.None? ==> After(params, i + 1))
    {
      if params[i].Input? {
        var abort := TakeInput(params, i);
        stop := if abort then Some(Aborted) else None;
      } else {
        var failure := TakeDependency(params, i);
        stop := if failure.Some? then Some(DependencyFailed(failure.value)) else None;
      }
    }

    /** The dependency loop: it enters the generators of the dependencies that are called, up to
    the parameter that ends it. */
    method ResolveAll(params: seq<Param>) returns (r: Resolution, ghost k: nat)
      requires Valid() && Fresh()
      modifies this`resolved, this`cache, this`failed, this`invalid, this`entered
      ensures Valid() && Processed(params, k) && entered == EnteredBy(params, k)
      ensures r.Resolved? ==> k == |params| && NoStop(params, k) && (invalid <==> SomeInvalid(params, k))
      ensures !r.Resolved? ==> k > 0 && StopAt(params, k - 1) == Some(r)
    {
      for i := 0 to |params|
        invariant Valid() && After(params, i) && NoStop(params, i)
      {
        var stop := TakeParam(params, i);
        if stop.Some? {
          return stop.value, i + 1;
        }
      }
      return Resolved, |params|;
    }

    /** The handler returned: function scope first, then request scope or the hand-over. */
    method Succeed(streaming: bool, wraps: bool) returns (reply: Reply)
      requires log == [] && captured == []
      modifies this`log, this`captured
      ensures reply.FunctionRaised? || reply.Answered?
      ensures log == SuccessLog(Gens(entered), reply)
      ensures FunctionError(Gens(entered), |entered|) == if reply.FunctionRaised? then Some(reply.error) else None
      ensures reply.Answered? ==> (reply.deferred <==> streaming && wraps && HasRequestScope(entered))
      ensures captured == if reply == Answered(false) then LateErrors(Gens(entered), |entered|, false) else []
    {
      var error := ExitFunctionScope();
      assert log == FunctionLog(Gens(entered), |entered|);
      if error.Some? {
        ExitRequestScope(true);
        NoLateErrors(Gens(entered), |entered|);
        return FunctionRaised(error.value);
      }
      var deferred := streaming && wraps && HasRequestScope(entered);
      if deferred {
        HandOverRequestScope();
      } else {
        ExitRequestScope(false);
      }
      return Answered(deferred);
    }

    /** The request from the dependency loop on. `prepared` says whether the arguments of the
    handler could be built, `wraps` whether the stream wrapper accepted the generators. The
    generators entered are those of the dependencies called among the first `k` parameters, and
    each meets the fate that the reply calls for. */
    method Handle(params: seq<Param>, prepared: bool, handler: Handler, wraps: bool) returns (reply: Reply, ghost k: nat)
      requires Valid() && Fresh()
      modifies this
      ensures Valid() && Processed(params, k) && entered == EnteredBy(params, k)
      ensures reply.Rejected? <==> !prepared || Refused(params)
      ensures !reply.Rejected? ==> k == |params| && (handler.Fails? <==> reply.HandlerFailed? || reply.FastApiError?)
      ensures reply.HandlerFailed? || reply.FastApiError? ==>
        LiveAt(Gens(entered), |entered|, 0, Some(handler.error)) == if reply.FastApiError? then None else Some(reply.error)
      ensures reply.FunctionRaised? || reply.Answered? ==>
        FunctionError(Gens(entered), |entered|) == if reply.FunctionRaised? then Some(reply.error) else None
      ensures reply.Answered? ==> (reply.deferred <==> handler.streaming && wraps && HasRequestScope(entered))
      ensures log == match reply
        case Rejected => CloseLog(|entered|)
        case HandlerFailed(_) => if handler.Fails? then ThrowLog(Gens(entered), |entered|, Some(handler.error)) else []
        case FastApiError => if handler.Fails? then ThrowLog(Gens(entered), |entered|, Some(handler.error)) else []
        case _ => SuccessLog(Gens(entered), reply)
      ensures captured == if reply == Answered(false) then LateErrors(Gens(entered), |entered|, false) else []
      ensures forall g :: 0 <= g < |entered| ==> Fate(Suspended, entered[g].gen, g, log) == Due(reply, Gens(entered), g)
    {
      var r;
      r, k := ResolveAll(params);
      if !r.Resolved? || invalid || !prepared {
        CloseAll();
        RejectedFates(Gens(entered));
        return Rejected, k;
      }
      match handler {
        case Fails(e) =>
          var live := ThrowAll(e);
          reply := if live.Some? then HandlerFailed(live.value) else FastApiError;
          ThrownFates(Gens(entered), e, reply);
        case Returns(streaming) =>
          reply := Succeed(streaming, wraps);
          SucceededFates(Gens(entered), reply);
      }
    }
  }

  lemma {:induction false} NoLateErrors(gens: seq<Gen>, n: nat)
    requires n <= |gens|
    ensures LateErrors(gens, n, true) == []
  {
    if n == 0 {
    } else {
      NoLateErrors(gens, n - 1);
      assert LateErrors(gens, n, true) == LateErrors(gens, n - 1, true);
    }
  }

  lemma Assoc<T>(a: seq<T>, b: seq<T>, c: seq<T>)
    ensures a + b + c == a + (b + c)
  {
  }

  // ---- What becomes of each generator ----

  datatype Status = Suspended | Finished | Handed | Misused

  /** Only a suspended generator may be touched. */
  function Touch(st: Status, gen: Gen, g: nat, e: Event): Status {
    if e.g != g then st
    else if !st.Suspended? then Misused
    else
      match e
      case Send(_) => if gen.onSend.YieldsAgain? then Suspended else Finished
      case Throw(_, error) => if gen.onThrow(error).YieldsOn? then Suspended else Finished
      case Close(_) => Finished
      case HandOver(_) => Handed
  }

  function Fate(st: Status, gen: Gen, g: nat, log: seq<Event>): Status
    decreases log
  {
    if log == [] then st else Fate(Touch(st, gen, g, log[0]), gen, g, log[1..])
  }

  lemma {:induction false} FateAppend(st: Status, gen: Gen, g: nat, a: seq<Event>, b: seq<Event>)
    ensures Fate(st, gen, g, a + b) == Fate(Fate(st, gen, g, a), gen, g, b)
    decreases a
  {
    if a == [] {
      assert a + b == b;
    } else {
      assert (a + b)[1..] == a[1..] + b;
      FateAppend(Touch(st, gen, g, a[0]), gen, g, a[1..], b);
    }
  }

  lemma FateOne(st: Status, gen: Gen, g: nat, e: Event)
    ensures Fate(st, gen, g, [e]) == Touch(st, gen, g, e)
  {
    assert [e][1..] == [];
  }

  lemma FateTwo(st: Status, gen: Gen, g: nat, e: Event, f: Event)
    ensures Fate(st, gen, g, [e, f]) == Touch(Touch(st, gen, g, e), gen, g, f)
  {
    FateOne(st, gen, g, e);
    FateOne(Touch(st, gen, g, e), gen, g, f);
    FateAppend(st, gen, g, [e], [f]);
    assert [e] + [f] == [e, f];
  }

  /** The end of a generator that was suspended; the others are not concerned. */
  function Ended(st: Status, concerned: bool): Status {
    if !concerned then st else if st.Suspended? then Finished else Misused
  }

  /** Two ends in a row: a generator is concerned by one of them at most. */
  lemma EndsInTurn(st: Status, gen: Gen, g: nat, a: seq<Event>, b: seq<Event>, first: bool, second: bool)
    requires !(first && second)
    requires Fate(st, gen, g, a) == Ended(st, first) && Fate(Ended(st, first), gen, g, b) == Ended(Ended(st, first), second)
    ensures Fate(st, gen, g, a + b) == Ended(st, first || second)
  {
    FateAppend(st, gen, g, a, b);
  }

  lemma SendEnds(st: Status, gens: seq<Gen>, g: nat, h: nat)
    requires g < |gens| && h < |gens|
    ensures Fate(st, gens[g], g, SendLog(gens[h], h)) == Ended(st, g == h)
  {
    FateOne(st, gens[g], g, Send(h));
    FateTwo(st, gens[g], g, Send(h), Close(h));
  }

  lemma ThrowEnds(st: Status, gens: seq<Gen>, g: nat, h: nat, live: Option<Error>)
    requires g < |gens| && h < |gens|
    ensures Fate(st, gens[g], g, ThrowOne(gens[h], h, live)) == Ended(st, g == h)
  {
    match live
    case None => SendEnds(st, gens, g, h);
    case Some(e) =>
      FateOne(st, gens[g], g, Throw(h, e));
      FateTwo(st, gens[g], g, Throw(h, e), Close(h));
  }

  /** Closing all ends each of them, once. */
  lemma {:induction false} CloseEndsAll(gens: seq<Gen>, n: nat, g: nat, st: Status)
    requires n <= |gens| && g < |gens|
    ensures Fate(st, gens[g], g, CloseLog(n)) == Ended(st, g < n)
  {
    if n == 0 {
    } else {
      FateOne(st, gens[g], g, Close(n - 1));
      CloseEndsAll(gens, n - 1, g, Ended(st, g == n - 1));
      EndsInTurn(st, gens[g], g, [Close(n - 1)], CloseLog(n - 1), g == n - 1, g < n - 1);
    }
  }

  /** After a handler error every generator is ended once, whoever swallows what. */
  lemma {:induction false} ThrowEndsAll(gens: seq<Gen>, n: nat, live: Option<Error>, g: nat, st: Status)
    requires n <= |gens| && g < |gens|
    ensures Fate(st, gens[g], g, ThrowLog(gens, n, live)) == Ended(st, g < n)
  {
    if n == 0 {
    } else {
      var h := n - 1;
      var one, next := ThrowOne(gens[h], h, live), Survivor(gens[h], live);
      ThrowEnds(st, gens, g, h, live);
      ThrowEndsAll(gens, h, next, g, Ended(st, g == h));
      EndsInTurn(st, gens[g], g, one, ThrowLog(gens, h, next), g == h, g < h);
      assert ThrowLog(gens, n, live) == one + ThrowLog(gens, h, next);
    }
  }

  /** A function-scope generator entered later raises after its yield. */
  ghost predicate Forgotten(gens: seq<Gen>, n: nat, g: nat)
    requires n <= |gens|
  {
    exists k :: g < k < n && gens[k].func && gens[k].onSend.Raises?
  }

  lemma {:induction false} FunctionEnds(gens: seq<Gen>, n: nat, g: nat, st: Status)
    requires n <= |gens| && g < |gens|
    ensures Fate(st, gens[g], g, FunctionLog(gens, n)) == Ended(st, g < n && gens[g].func && !Forgotten(gens, n, g))
  {
    if n == 0 {
    } else {
      var h := n - 1;
      if !gens[h].func {
        FunctionEnds(gens, h, g, st);
        assert Forgotten(gens, n, g) <==> Forgotten(gens, h, g);
      } else {
        SendEnds(st, gens, g, h);
        if !gens[h].onSend.Raises? {
          FateAppend(st, gens[g], g, SendLog(gens[h], h), FunctionLog(gens, h));
          FunctionEnds(gens, h, g, Ended(st, g == h));
          assert Forgotten(gens, n, g) <==> Forgotten(gens, h, g);
        } else {
          assert SendLog(gens[h], h) + [] == SendLog(gens[h], h);
          assert g < h ==> Forgotten(gens, n, g);
        }
      }
    }
  }

  lemma {:induction false} RequestEnds(gens: seq<Gen>, n: nat, errored: bool, g: nat, st: Status)
    requires n <= |gens| && g < |gens|
    ensures Fate(st, gens[g], g, RequestLog(gens, n, errored)) == Ended(st, g < n && !gens[g].func)
  {
    if n == 0 {
    } else {
      var h := n - 1;
      if gens[h].func {
        RequestEnds(gens, h, errored, g, st);
      } else {
        var block := if errored then [Close(h)] else SendLog(gens[h], h);
        SendEnds(st, gens, g, h);
        FateOne(st, gens[g], g, Close(h));
        FateAppend(st, gens[g], g, block, RequestLog(gens, h, errored));
        RequestEnds(gens, h, errored, g, Ended(st, g == h));
      }
    }
  }

  lemma {:induction false} HandOvers(gens: seq<Gen>, n: nat, g: nat, st: Status)
    requires n <= |gens| && g < |gens|
    ensures Fate(st, gens[g], g, HandLog(gens, n)) ==
      if g < n && !gens[g].func then (if st.Suspended? then Handed else Misused) else st
  {
    if n == 0 {
    } else {
      var h, block := n - 1, if gens[n - 1].func then [] else [HandOver(n - 1)];
      HandOvers(gens, h, g, st);
      var now := Fate(st, gens[g], g, HandLog(gens, h));
      FateAppend(st, gens[g], g, HandLog(gens, h), block);
      FateOne(now, gens[g], g, HandOver(h));
    }
  }

  /** On success each generator ends once or is handed over, except exactly those
  function-scope ones entered before a function-scope one that raises after its yield:
  these stay suspended. */
  lemma SuccessFates(gens: seq<Gen>, g: nat, errored: bool)
    requires g < |gens|
    ensures var n, func := |gens|, FunctionLog(gens, |gens|);
      && Fate(Suspended, gens[g], g, func + RequestLog(gens, n, errored)) ==
           (if gens[g].func && Forgotten(gens, n, g) then Suspended else Finished)
      && Fate(Suspended, gens[g], g, func + HandLog(gens, n)) ==
           (if !gens[g].func then Handed else if Forgotten(gens, n, g) then Suspended else Finished)
  {
    var n, func := |gens|, FunctionLog(gens, |gens|);
    FunctionEnds(gens, n, g, Suspended);
    var st := Fate(Suspended, gens[g], g, func);
    FateAppend(Suspended, gens[g], g, func, RequestLog(gens, n, errored));
    FateAppend(Suspended, gens[g], g, func, HandLog(gens, n));
    RequestEnds(gens, n, errored, g, st);
    HandOvers(gens, n, g, st);
  }

  /** What a reply calls for: every generator ended, or handed to the stream; but where a
  function-scope generator raised, those of its scope entered before it are forgotten. */
  ghost function Due(reply: Reply, gens: seq<Gen>, g: nat): Status
    requires g < |gens|
  {
    match reply
    case FunctionRaised(_) => if gens[g].func && Forgotten(gens, |gens|, g) then Suspended else Finished
    case Answered(deferred) => if deferred && !gens[g].func then Handed else Finished
    case _ => Finished
  }

  ghost predicate AllDue(gens: seq<Gen>, reply: Reply, log: seq<Event>) {
    forall g :: 0 <= g < |gens| ==> Fate(Suspended, gens[g], g, log) == Due(reply, gens, g)
  }

  lemma RejectedFates(gens: seq<Gen>)
    ensures AllDue(gens, Rejected, CloseLog(|gens|))
  {
    forall g | 0 <= g < |gens| ensures Fate(Suspended, gens[g], g, CloseLog(|gens|)) == Finished {
      CloseEndsAll(gens, |gens|, g, Suspended);
    }
  }

  lemma ThrownFates(gens: seq<Gen>, e: Error, reply: Reply)
    requires reply.HandlerFailed? || reply.FastApiError?
    ensures AllDue(gens, reply, ThrowLog(gens, |gens|, Some(e)))
  {
    forall g | 0 <= g < |gens| ensures Fate(Suspended, gens[g], g, ThrowLog(gens, |gens|, Some(e))) == Finished {
      ThrowEndsAll(gens, |gens|, Some(e), g, Suspended);
    }
  }

  lemma {:induction false} NoneForgotten(gens: seq<Gen>, n: nat, g: nat)
    requires n <= |gens| && FunctionError(gens, n).None?
    ensures !Forgotten(gens, n, g)
  {
    if n == 0 {
    } else {
      NoneForgotten(gens, n - 1, g);
    }
  }

  lemma SucceededFates(gens: seq<Gen>, reply: Reply)
    requires reply.FunctionRaised? || (reply.Answered? && FunctionError(gens, |gens|).None?)
    ensures AllDue(gens, reply, SuccessLog(gens, reply))
  {
    forall g | 0 <= g < |gens| ensures Fate(Suspended, gens[g], g, SuccessLog(gens, reply)) == Due(reply, gens, g) {
      if FunctionError(gens, |gens|).None? {
        NoneForgotten(gens, |gens|, g);
      }
      SuccessFates(gens, g, reply.FunctionRaised?);
    }
  }

  /** Two function-scope generators, the second raising: the first is never left. */
  lemma ForgottenExample(e: Error)
    ensures var gens := [Gen(true, Ends, x => Swallows), Gen(true, Raises(e), x => Swallows)];
      Fate(Suspended, gens[0], 0, FunctionLog(gens, 2) + RequestLog(gens, 2, true)) == Suspended
  {
    var gens := [Gen(true, Ends, x => Swallows), Gen(true, Raises(e), x => Swallows)];
    assert gens[1].func && gens[1].onSend.Raises?;
    SuccessFates(gens, 0, true);
  }

  // ---- Order ----

  /** Later events concern generators entered no later. */
  ghost predicate Descending(log: seq<Event>, n: nat) {
    && (forall i :: 0 <= i < |log| ==> log[i].g < n)
    && forall i, j :: 0 <= i < j < |log| ==> log[i].g >= log[j].g
  }

  lemma DescendingCons(block: seq<Event>, rest: seq<Event>, n: nat)
    requires n > 0 && (forall i :: 0 <= i < |block| ==> block[i].g == n - 1) && Descending(rest, n - 1)
    ensures Descending(block + rest, n)
  {
  }

  lemma {:induction false} CloseDescends(n: nat)
    ensures Descending(CloseLog(n), n)
  {
    if n == 0 {
    } else {
      CloseDescends(n - 1);
      DescendingCons([Close(n - 1)], CloseLog(n - 1), n);
    }
  }

  lemma {:induction false} ThrowDescends(gens: seq<Gen>, n: nat, live: Option<Error>)
    requires n <= |gens|
    ensures Descending(ThrowLog(gens, n, live), n)
  {
    if n == 0 {
    } else {
      ThrowDescends(gens, n - 1, Survivor(gens[n - 1], live));
      DescendingCons(ThrowOne(gens[n - 1], n - 1, live), ThrowLog(gens, n - 1, Survivor(gens[n - 1], live)), n);
    }
  }

  ghost predicate AllOfScope(gens: seq<Gen>, log: seq<Event>, func: bool) {
    forall i :: 0 <= i < |log| ==> log[i].g < |gens| && gens[log[i].g].func == func
  }

  lemma {:induction false} FunctionScopeOnly(gens: seq<Gen>, n: nat)
    requires n <= |gens|
    ensures AllOfScope(gens, FunctionLog(gens, n), true)
  {
    if n == 0 {
    } else {
      FunctionScopeOnly(gens, n - 1);
    }
  }

  lemma {:induction false} FunctionDescends(gens: seq<Gen>, n: nat)
    requires n <= |gens|
    ensures Descending(FunctionLog(gens, n), n)
  {
    if n == 0 {
    } else {
      FunctionDescends(gens, n - 1);
      if gens[n - 1].func {
        var rest := if gens[n - 1].onSend.Raises? then [] else FunctionLog(gens, n - 1);
        DescendingCons(SendLog(gens[n - 1], n - 1), rest, n);
      }
    }
  }

  lemma {:induction false} RequestScopeOnly(gens: seq<Gen>, n: nat, errored: bool)
    requires n <= |gens|
    ensures AllOfScope(gens, RequestLog(gens, n, errored), false)
  {
    if n == 0 {
    } else {
      RequestScopeOnly(gens, n - 1, errored);
    }
  }

  lemma {:induction false} RequestDescends(gens: seq<Gen>, n: nat, errored: bool)
    requires n <= |gens|
    ensures Descending(RequestLog(gens, n, errored), n)
  {
    if n == 0 {
    } else {
      RequestDescends(gens, n - 1, errored);
      if !gens[n - 1].func {
        DescendingCons(if errored then [Close(n - 1)] else SendLog(gens[n - 1], n - 1), RequestLog(gens, n - 1, errored), n);
      }
    }
  }

  /** Each scope in reverse order of entry, and function scope before request scope. */
  lemma SuccessOrder(gens: seq<Gen>, errored: bool, i: nat, j: nat)
    requires var log := FunctionLog(gens, |gens|) + RequestLog(gens, |gens|, errored); i < j < |log|
    ensures var log := FunctionLog(gens, |gens|) + RequestLog(gens, |gens|, errored);
      && log[i].g < |gens| && log[j].g < |gens|
      && (gens[log[i].g].func == gens[log[j].g].func ==> log[i].g >= log[j].g)
      && (gens[log[j].g].func ==> gens[log[i].g].func)
  {
    FunctionScopeOnly(gens, |gens|);
    FunctionDescends(gens, |gens|);
    RequestScopeOnly(gens, |gens|, errored);
    RequestDescends(gens, |gens|, errored);
  }

  // ---- Swallowed exceptions ----

  /** The exception reaches generator `k`, which swallows it. */
  ghost predicate SwallowedBy(gens: seq<Gen>, n: nat, k: nat, live: Option<Error>)
    requires k < n <= |gens|
  {
    LiveAt(gens, n, k + 1, live).Some? && gens[k].onThrow(LiveAt(gens, n, k + 1, live).value).Swallows?
  }

  lemma {:induction false} LiveNone(gens: seq<Gen>, n: nat, k: nat)
    requires k <= n <= |gens|
    ensures LiveAt(gens, n, k, None) == None
  {
    if n == k {
    } else {
      LiveNone(gens, n - 1, k);
    }
  }

  /** The handler's exception ends as `FastAPIError` exactly when some generator swallowed it. */
  lemma {:induction false} SwallowedIff(gens: seq<Gen>, n: nat, live: Option<Error>)
    requires n <= |gens| && live.Some?
    ensures LiveAt(gens, n, 0, live).None? <==> exists k :: 0 <= k < n && SwallowedBy(gens, n, k, live)
  {
    if n == 0 {
    } else {
      var m, after := n - 1, Survivor(gens[n - 1], live);
      assert LiveAt(gens, n, n, live) == live;
      if after.None? {
        assert SwallowedBy(gens, n, n - 1, live);
        LiveNone(gens, n - 1, 0);
      } else {
        SwallowedIff(gens, n - 1, after);
        assert !SwallowedBy(gens, n, n - 1, live);
        forall k | 0 <= k < n - 1 ensures SwallowedBy(gens, n, k, live) <==> SwallowedBy(gens, n - 1, k, after) {
          assert LiveAt(gens, n, k + 1, live) == LiveAt(gens, n - 1, k + 1, after);
        }
        if exists k :: 0 <= k < m && SwallowedBy(gens, m, k, after) {
          var k :| 0 <= k < m && SwallowedBy(gens, m, k, after);
          assert SwallowedBy(gens, n, k, live);
        }
        if exists k :: 0 <= k < n && SwallowedBy(gens, n, k, live) {
          var k :| 0 <= k < n && SwallowedBy(gens, n, k, live);
          assert SwallowedBy(gens, n - 1, k, after);
        }
      }
    }
  }
}
