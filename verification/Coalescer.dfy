/** The consumer end of a streaming body (`CoalescingReceiver`, src/streaming.rs): chunks that
are already queued are joined into one, and nothing is lost, reordered or moved past an error. */
module Coalescer {
  import opened Runs
  import opened Text

  const COALESCE_MAX: nat := 16384

  datatype Item = Data(bytes: string) | Fail(error: string)

  // ---- What items say, however they are cut ----

  /** One symbol of the body: a byte, or an error at its place. */
  datatype Symbol = Byte(c: char) | Broken(error: string)

  function Bytes(s: string): seq<Symbol> {
    seq(|s|, i requires 0 <= i < |s| => Byte(s[i]))
  }

  function Symbols(item: Item): seq<Symbol> {
    match item
    case Data(bytes) => Bytes(bytes)
    case Fail(error) => [Broken(error)]
  }

  function Flat(items: seq<Item>): seq<Symbol> {
    if items == [] then [] else Symbols(items[0]) + Flat(items[1..])
  }

  lemma {:induction false} FlatConcat(a: seq<Item>, b: seq<Item>)
    ensures Flat(a + b) == Flat(a) + Flat(b)
  {
    if a == [] {
      assert a + b == b;
    } else {
      assert (a + b)[1..] == a[1..] + b;
      FlatConcat(a[1..], b);
    }
  }

  lemma FlatOne(item: Item)
    ensures Flat([item]) == Symbols(item)
  {
    assert [item][1..] == [];
  }

  function AsData(chunks: seq<string>): seq<Item> {
    seq(|chunks|, i requires 0 <= i < |chunks| => Data(chunks[i]))
  }

  lemma BytesJoin(a: string, b: string)
    ensures Bytes(a + b) == Bytes(a) + Bytes(b)
  {
  }

  /** Chunks joined into one say what they said apart. */
  lemma {:induction false} JoinedSaysSame(chunks: seq<string>)
    ensures Flat(AsData(chunks)) == Bytes(Concat(chunks))
  {
    if chunks == [] {
    } else {
      var n := |chunks| - 1;
      JoinedSaysSame(chunks[..n]);
      BytesJoin(Concat(chunks[..n]), chunks[n]);
      FlatConcat(AsData(chunks[..n]), [Data(chunks[n])]);
      FlatOne(Data(chunks[n]));
      assert AsData(chunks) == AsData(chunks[..n]) + [Data(chunks[n])];
    }
  }

  // ---- The producer ----

  /** What the producer does between two looks at the channel. */
  datatype Arrival = Arrival(items: seq<Item>, close: bool)

  /** The channel is closed after the first `n` moves. */
  predicate ClosedBy(env: seq<Arrival>, n: nat, closed: bool)
    requires n <= |env|
  {
    if n == 0 then closed else ClosedBy(env, n - 1, closed) || env[n - 1].close
  }

  /** What the first `n` moves push; a closed channel takes nothing more. */
  function Pushed(env: seq<Arrival>, n: nat, closed: bool): seq<Item>
    requires n <= |env|
  {
    if n == 0 then [] else
    Pushed(env, n - 1, closed) + if ClosedBy(env, n - 1, closed) then [] else env[n - 1].items
  }

  /** The channel's history and state after the first `n` moves. */
  ghost predicate Arrived(before: seq<Item>, closed: bool, env: seq<Arrival>, n: nat, pushed: seq<Item>, nowClosed: bool) {
    n <= |env| && pushed == before + Pushed(env, n, closed) && nowClosed == ClosedBy(env, n, closed)
  }

  lemma ArrivedStep(before: seq<Item>, closed: bool, env: seq<Arrival>, n: nat, pushed: seq<Item>, nowClosed: bool)
    requires Arrived(before, closed, env, n, pushed, nowClosed) && n < |env|
    ensures Arrived(before, closed, env, n + 1, pushed + (if nowClosed then [] else env[n].items), nowClosed || env[n].close)
  {
    var items := if nowClosed then [] else env[n].items;
    assert before + Pushed(env, n, closed) + items == before + (Pushed(env, n, closed) + items);
  }

  // ---- The receiver ----

  datatype Poll = Waiting | Ready(item: Item) | End

  /** The items of the channel that an answer stands for. */
  function Answered(p: Poll, chunks: seq<string>): seq<Item> {
    match p
    case Ready(Data(_)) => AsData(chunks)
    case Ready(Fail(_)) => [p.item]
    case _ => []
  }

  /** A batch is `chunks` in order, and under the limit plus the last of them. */
  ghost predicate IsBatch(bytes: string, chunks: seq<string>) {
    chunks != [] && bytes == Concat(chunks) && |bytes| < COALESCE_MAX + |chunks[|chunks| - 1]|
  }

  lemma OneIsBatch(bytes: string)
    ensures IsBatch(bytes, [bytes])
  {
    ConcatSnoc([], bytes);
    assert [] + [bytes] == [bytes];
  }

  lemma GrownIsBatch(bytes: string, chunks: seq<string>, next: string)
    requires IsBatch(bytes, chunks) && |bytes| < COALESCE_MAX
    ensures IsBatch(bytes + next, chunks + [next])
  {
    ConcatSnoc(chunks, next);
  }

  /** Answered, batched, held back and still queued make up what was pushed, in that order. */
  ghost predicate Accounted(taken: seq<Item>, chunks: seq<string>, held: seq<Item>, queue: seq<Item>, pushed: seq<Item>) {
    taken + AsData(chunks) + held + queue == pushed
  }

  lemma PushAccounted(taken: seq<Item>, chunks: seq<string>, held: seq<Item>, queue: seq<Item>, pushed: seq<Item>, items: seq<Item>)
    requires Accounted(taken, chunks, held, queue, pushed)
    ensures Accounted(taken, chunks, held, queue + items, pushed + items)
  {
    var front := taken + AsData(chunks) + held;
    assert front + (queue + items) == front + queue + items;
  }

  lemma TakeAccounted(taken: seq<Item>, chunks: seq<string>, queue: seq<Item>, pushed: seq<Item>)
    requires Accounted(taken, chunks, [], queue, pushed) && queue != []
    ensures queue[0].Data? ==> Accounted(taken, chunks + [queue[0].bytes], [], queue[1..], pushed)
    ensures Accounted(taken, chunks, [queue[0]], queue[1..], pushed)
  {
    var front, head := taken + AsData(chunks), queue[0];
    assert queue == [head] + queue[1..];
    assert front + [] + queue == front + [head] + queue[1..];
    if head.Data? {
      assert AsData(chunks + [head.bytes]) == AsData(chunks) + [head];
      assert taken + (AsData(chunks) + [head]) + [] == front + [head];
    }
  }

  lemma AnswerData(taken: seq<Item>, chunks: seq<string>, held: seq<Item>, queue: seq<Item>, pushed: seq<Item>, out: seq<Item>, bytes: string)
    requires Accounted(taken, chunks, held, queue, pushed) && Flat(out) == Flat(taken) && bytes == Concat(chunks)
    ensures Accounted(taken + AsData(chunks), [], held, queue, pushed)
    ensures Flat(out + [Data(bytes)]) == Flat(taken + AsData(chunks))
  {
    assert taken + AsData(chunks) + AsData([]) == taken + AsData(chunks);
    FlatConcat(taken, AsData(chunks));
    JoinedSaysSame(chunks);
    FlatConcat(out, [Data(bytes)]);
    FlatOne(Data(bytes));
  }

  lemma AnswerError(taken: seq<Item>, error: Item, queue: seq<Item>, pushed: seq<Item>, out: seq<Item>)
    requires Accounted(taken, [], [error], queue, pushed) && Flat(out) == Flat(taken)
    ensures Accounted(taken + [error], [], [], queue, pushed)
    ensures Flat(out + [error]) == Flat(taken + [error])
  {
    assert taken + AsData([]) + [error] == taken + [error] + AsData([]) + [];
    FlatConcat(taken, [error]);
    FlatConcat(out, [error]);
  }

  class Receiver {
    var queue: seq<Item>
    var closed: bool
    var pending: Option<Item>
    var done: bool
    ghost var pushed: seq<Item>   // history: what the producer put into the channel
    ghost var taken: seq<Item>    // history: what came out of it and was answered
    ghost var out: seq<Item>      // history: the answers

    ghost function Held(): seq<Item>
      reads this
    {
      if pending.Some? then [pending.value] else []
    }

    /** Nothing is lost or reordered, and the answers say what was taken. */
    ghost predicate Valid()
      reads this
    {
      Sound([]) && Flat(out) == Flat(taken)
    }

    /** With `chunks` in a batch that is not answered yet. */
    ghost predicate Sound(chunks: seq<string>)
      reads this
    {
      && Accounted(taken, chunks, Held(), queue, pushed)
      && (pending.Some? ==> pending.value.Fail?)
      && (done ==> closed && queue == [])
    }

    constructor ()
      ensures Valid() && queue == [] && !closed && pending.None? && pushed == [] && out == []
    {
      queue, closed, pending, done := [], false, None, false;
      pushed, taken, out := [], [], [];
    }

    /** The producer's next move. */
    method Arrive(a: Arrival, ghost chunks: seq<string>)
      requires Sound(chunks)
      modifies this`queue, this`closed, this`pushed
      ensures Sound(chunks) && closed == (old(closed) || a.close)
      ensures queue == old(queue) + if old(closed) then [] else a.items
      ensures pushed == old(pushed) + if old(closed) then [] else a.items
    {
      if !closed {
        PushAccounted(taken, chunks, Held(), queue, pushed, a.items);
        queue, pushed, closed := queue + a.items, pushed + a.items, a.close;
      }
    }

    /** One `try_recv`: a chunk joins the batch, an error is kept for the next poll, and a
    closed empty channel is remembered. */
    method TryRecv(ghost chunks: seq<string>) returns (next: Option<string>)
      requires Sound(chunks) && pending.None? && !done
      modifies this`queue, this`pending, this`done
      ensures Sound(if next.Some? then chunks + [next.value] else chunks)
      ensures next.Some? ==> pending.None? && !done && |queue| < |old(queue)|
      ensures next.None? ==> queue == [] || pending.Some?
      ensures old(queue) != [] ==> queue == old(queue)[1..] && (next.Some? <==> old(queue)[0].Data?)
    {
      if queue == [] {
        done := closed;
        return None;
      }
      TakeAccounted(taken, chunks, queue, pushed);
      var head := queue[0];
      queue := queue[1..];
      match head {
        case Data(bytes) => next := Some(bytes);
        case Fail(_) => next, pending := None, Some(head);
      }
    }

    /** The producer's move number `i`, if it makes one more, and the `try_recv` after it. */
    method Look(env: seq<Arrival>, i: nat, ghost chunks: seq<string>, ghost before: seq<Item>, ghost wasClosed: bool)
        returns (next: Option<string>, j: nat)
      requires Sound(chunks) && pending.None? && !done && Arrived(before, wasClosed, env, i, pushed, closed)
      modifies this`queue, this`closed, this`pending, this`done, this`pushed
      ensures Arrived(before, wasClosed, env, j, pushed, closed)
      ensures Sound(if next.Some? then chunks + [next.value] else chunks)
      ensures next.Some? ==> pending.None? && !done && (i < j || (i == j && |queue| < |old(queue)|))
      ensures next.None? ==> queue == [] || pending.Some?
    {
      j := i;
      if i < |env| {
        ArrivedStep(before, wasClosed, env, i, pushed, closed);
        Arrive(env[i], chunks);
        j := i + 1;
      }
      next := TryRecv(chunks);
    }

    /** The batching loop of `poll_next`. The producer moves before each `try_recv`, `n` times in
    all; `first` has left the queue, and `chunks` begins with it. */
    method Batch(first: string, env: seq<Arrival>) returns (buf: string, ghost chunks: seq<string>, ghost n: nat)
      requires Sound([first]) && pending.None? && !done && |first| < COALESCE_MAX
      modifies this`queue, this`closed, this`pending, this`done, this`pushed
      ensures Arrived(old(pushed), old(closed), env, n, pushed, closed)
      ensures Sound(chunks) && IsBatch(buf, chunks)
      ensures queue == [] || pending.Some? || |buf| >= COALESCE_MAX
    {
      buf, chunks, n := first, [first], 0;
      OneIsBatch(first);
      var i := 0;
      while |buf| < COALESCE_MAX
        invariant n == i && Arrived(old(pushed), old(closed), env, n, pushed, closed)
        invariant Sound(chunks) && pending.None? && !done && IsBatch(buf, chunks)
        decreases |env| - i, |queue|
      {
        var next;
        next, i := Look(env, i, chunks, old(pushed), old(closed));
        n := i;
        if next.None? {
          return;
        }
        GrownIsBatch(buf, chunks, next.value);
        buf, chunks := buf + next.value, chunks + [next.value];
      }
    }

    method AnswerPending() returns (p: Poll)
      requires Valid() && pending.Some?
      modifies this`pending, this`taken, this`out
      ensures Valid() && pending.None? && p == Ready(old(pending).value)
      ensures taken == old(taken) + [p.item] && out == old(out) + [p.item]
    {
      p := Ready(pending.value);
      AnswerError(taken, p.item, queue, pushed, out);
      pending, taken, out := None, taken + [p.item], out + [p.item];
    }

    method AnswerHead() returns (p: Poll)
      requires Valid() && pending.None? && queue != [] && queue[0].Fail?
      modifies this`queue, this`taken, this`out
      ensures Valid() && p == Ready(old(queue)[0]) && queue == old(queue)[1..]
      ensures taken == old(taken) + [p.item] && out == old(out) + [p.item]
    {
      TakeAccounted(taken, [], queue, pushed);
      var head := queue[0];
      queue, p := queue[1..], Ready(head);
      AnswerError(taken, head, queue, pushed, out);
      taken, out := taken + [head], out + [head];
    }

    method AnswerBatch(env: seq<Arrival>) returns (buf: string, ghost chunks: seq<string>, ghost n: nat)
      requires Valid() && pending.None? && queue != [] && queue[0].Data?
      modifies this
      ensures Valid() && Arrived(old(pushed), old(closed), env, n, pushed, closed)
      ensures taken == old(taken) + AsData(chunks) && out == old(out) + [Data(buf)]
      ensures IsBatch(buf, chunks) && (queue == [] || pending.Some? || |buf| >= COALESCE_MAX)
    {
      TakeAccounted(taken, [], queue, pushed);
      buf, n := queue[0].bytes, 0;
      chunks := [buf];
      assert [] + [buf] == chunks;
      queue := queue[1..];
      OneIsBatch(buf);
      if |buf| < COALESCE_MAX {
        buf, chunks, n := Batch(buf, env);
      }
      AnswerData(taken, chunks, Held(), queue, pushed, out, buf);
      taken, out := taken + AsData(chunks), out + [Data(buf)];
    }

    /** `poll_next`. The producer's first `n` moves in `env` fall before the successive
    `try_recv`s; `chunks` are the chunks that make up a data answer. */
    method PollNext(env: seq<Arrival>) returns (p: Poll, ghost chunks: seq<string>, ghost n: nat)
      requires Valid()
      modifies this
      ensures Valid() && Arrived(old(pushed), old(closed), env, n, pushed, closed)
      ensures taken == old(taken) + Answered(p, chunks) && out == old(out) + if p.Ready? then [p.item] else []
      ensures p.Ready? && p.item.Data? ==> IsBatch(p.item.bytes, chunks)
      ensures p.Ready? && p.item.Data? ==> queue == [] || pending.Some? || |p.item.bytes| >= COALESCE_MAX
      ensures p.Waiting? <==> old(pending).None? && old(queue) == [] && !old(closed)
      ensures p.End? <==> old(pending).None? && old(queue) == [] && old(closed)
      ensures !p.Ready? ==> n == 0 && pending.None? && queue == []
    {
      chunks, n := [], 0;
      if pending.Some? {
        p := AnswerPending();
      } else if queue == [] {
        p := if done || closed then End else Waiting;
      } else if queue[0].Fail? {
        p := AnswerHead();
      } else {
        var buf;
        buf, chunks, n := AnswerBatch(env);
        p := Ready(Data(buf));
      }
    }
  }
}
