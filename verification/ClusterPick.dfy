/** Choosing a worker (`Workers::pick`, src/cluster.rs): among the least-loaded, the first
one at or after a rotating cursor. The cursor is a 64-bit counter that wraps around. */
module ClusterPick {
  import opened Runs

  const CURSOR_LIMIT := 0x1_0000_0000_0000_0000

  // ---- Going round a ring of `n` workers ----

  /** `p % n`, by repeated subtraction. */
  function At(p: nat, n: nat): (i: nat)
    requires 0 < n
    ensures i < n
    ensures p < n ==> i == p
  {
    if p < n then p else At(p - n, n)
  }

  lemma {:induction false} MulApart(q: nat, q': nat, n: nat)
    requires q < q'
    ensures q' * n >= q * n + n
  {
    if q' == q + 1 {
    } else {
      MulApart(q, q' - 1, n);
      assert q' * n == (q' - 1) * n + n;
    }
  }

  lemma DivMod(p: nat, n: nat)
    requires 0 < n
    ensures p == (p / n) * n + p % n && p % n < n
  {
  }

  /** Quotient and remainder are unique. */
  lemma ModUnique(p: nat, q: nat, r: nat, n: nat)
    requires p == q * n + r && r < n
    ensures p % n == r
  {
    var q' := p / n;
    DivMod(p, n);
    if q' < q {
      MulApart(q', q, n);
    } else if q' > q {
      MulApart(q, q', n);
    }
  }

  lemma {:induction false} AtIsMod(p: nat, n: nat)
    requires 0 < n
    ensures At(p, n) == p % n
  {
    if p < n {
      ModUnique(p, 0, p, n);
    } else {
      AtIsMod(p - n, n);
      DivMod(p - n, n);
      var q := (p - n) / n;
      assert (q + 1) * n == q * n + n;
      ModUnique(p, q + 1, (p - n) % n, n);
    }
  }

  lemma {:induction false} AtShift(p: nat, k: nat, n: nat)
    requires 0 < n && k <= n
    ensures At(p + k, n) == if At(p, n) + k < n then At(p, n) + k else At(p, n) + k - n
  {
    if p < n {
    } else {
      AtShift(p - n, k, n);
    }
  }

  /** The position from `w` on, within one turn, at which worker `i` comes up. */
  function TurnOf(w: nat, i: nat, n: nat): (p: nat)
    requires i < n
    ensures w <= p < w + n && At(p, n) == i
  {
    var c := At(w, n);
    var k := if i >= c then i - c else i + n - c;
    AtShift(w, k, n);
    w + k
  }

  /** Two positions less than a turn apart are different workers. */
  lemma TurnDistinct(p: nat, p': nat, n: nat)
    requires p < p' < p + n
    ensures At(p, n) != At(p', n)
  {
    AtShift(p, p' - p, n);
  }

  // ---- The choice ----

  function Min(loads: seq<nat>): (m: nat)
    requires loads != []
    ensures m in loads
    ensures forall i :: 0 <= i < |loads| ==> m <= loads[i]
  {
    if |loads| == 1 then loads[0]
    else
      var rest := Min(loads[1..]);
      if loads[0] <= rest then loads[0] else rest
  }

  /** The first worker whose load is `load`, going round once from `start + k`. */
  function FirstFrom(loads: seq<nat>, start: nat, load: nat, k: nat): (r: Option<nat>)
    requires loads != []
    ensures r.Some? ==> r.value < |loads| && loads[r.value] == load
    ensures k < |loads| && loads[At(start + k, |loads|)] == load ==> r == Some(At(start + k, |loads|))
    decreases |loads| - k
  {
    if k >= |loads| then None
    else if loads[At(start + k, |loads|)] == load then Some(At(start + k, |loads|))
    else FirstFrom(loads, start, load, k + 1)
  }

  /** The scan misses no worker: `None` means nobody has that load. */
  lemma {:induction false} ScanComplete(loads: seq<nat>, start: nat, load: nat, k: nat)
    requires loads != [] && FirstFrom(loads, start, load, k).None?
    ensures forall p :: start + k <= p < start + |loads| ==> loads[At(p, |loads|)] != load
    decreases |loads| - k
  {
    if k >= |loads| {
    } else {
      ScanComplete(loads, start, load, k + 1);
    }
  }

  lemma ScanNone(loads: seq<nat>, start: nat, load: nat)
    requires loads != []
    ensures FirstFrom(loads, start, load, 0).None? <==> load !in loads
  {
    if FirstFrom(loads, start, load, 0).None? {
      ScanComplete(loads, start, load, 0);
      forall i | 0 <= i < |loads| ensures loads[i] != load {
        var p := TurnOf(start, i, |loads|);
      }
    }
  }

  method LeastLoad(loads: seq<nat>) returns (min: nat)
    requires loads != []
    ensures min == Min(loads)
  {
    min := loads[0];
    for i := 1 to |loads|
      invariant min in loads
      invariant forall j :: 0 <= j < i ==> min <= loads[j]
    {
      if loads[i] < min {
        min := loads[i];
      }
    }
  }

  method FindFrom(loads: seq<nat>, start: nat, load: nat) returns (r: Option<nat>)
    requires loads != []
    ensures r == FirstFrom(loads, start, load, 0)
  {
    var n := |loads|;
    for k := 0 to n
      invariant FirstFrom(loads, start, load, 0) == FirstFrom(loads, start, load, k)
    {
      var idx := (start + k) % n;
      AtIsMod(start + k, n);
      if loads[idx] == load {
        return Some(idx);
      }
    }
    return None;
  }

  /** The two passes of `pick`. It reads every counter to find the minimum, then reads them
  again from the cursor on, looking for one that equals it. Completions are counted off
  outside the list lock, so the second pass may see other values than the first. */
  method Scan(first: seq<nat>, second: seq<nat>, next: nat) returns (r: Option<nat>)
    requires |first| == |second|
    ensures first == [] ==> r.None?
    ensures first != [] ==> r == FirstFrom(second, At(next, |first|), Min(first), 0)
    ensures first != [] ==> (r.None? <==> Min(first) !in second)
  {
    if first == [] {
      return None;
    }
    var min := LeastLoad(first);
    AtIsMod(next, |first|);
    r := FindFrom(second, next % |first|, min);
    ScanNone(second, At(next, |first|), min);
  }

  /** The acceptor's view of its connected workers. */
  class Workers {
    var loads: seq<nat>   // `outstanding`, in list order
    var next: nat         // the cursor

    ghost predicate Valid()
      reads this
    {
      next < CURSOR_LIMIT
    }

    constructor ()
      ensures Valid() && loads == [] && next == 0
    {
      loads, next := [], 0;
    }

    method Add()
      requires Valid()
      modifies this
      ensures Valid() && loads == old(loads) + [0] && next == old(next)
    {
      loads := loads + [0];
    }

    /** With no completion counted off during the call, the least-loaded worker at or after
    the cursor, now one busier; `None` exactly when nobody is connected. */
    method Pick() returns (r: Option<nat>)
      requires Valid()
      modifies this
      ensures Valid()
      ensures r.None? <==> old(loads) == []
      ensures r.None? ==> loads == old(loads) && next == old(next)
      ensures r.Some? ==> r.value == Choice(old(loads), old(next)) && loads == Picked(old(loads), old(next))
      ensures r.Some? ==> next == NextCursor(old(next))
    {
      r := Scan(loads, loads, next);
      if loads != [] {
        ScanRebased(loads, next);
        loads := loads[r.value := loads[r.value] + 1];
        next := NextCursor(next);
      }
    }
  }

  function NextCursor(next: nat): nat {
    if next + 1 == CURSOR_LIMIT then 0 else next + 1
  }

  /** The worker picked: least-loaded, and the first such from the cursor on. */
  function Choice(loads: seq<nat>, next: nat): (i: nat)
    requires loads != []
    ensures i < |loads| && loads[i] == Min(loads)
    ensures loads[At(next, |loads|)] == Min(loads) ==> i == At(next, |loads|)
  {
    ScanNone(loads, next, Min(loads));
    FirstFrom(loads, next, Min(loads), 0).value
  }

  function Picked(loads: seq<nat>, next: nat): (r: seq<nat>)
    requires loads != []
    ensures |r| == |loads|
  {
    var i := Choice(loads, next);
    loads[i := loads[i] + 1]
  }

  /** Reducing the cursor modulo the number of workers first changes nothing. */
  lemma ScanRebased(loads: seq<nat>, next: nat)
    requires loads != []
    ensures FirstFrom(loads, At(next, |loads|), Min(loads), 0) == Some(Choice(loads, next))
  {
    var m := Min(loads);
    RebasedFrom(loads, next, m, 0);
    ScanNone(loads, next, m);
  }

  lemma {:induction false} RebasedFrom(loads: seq<nat>, next: nat, load: nat, k: nat)
    requires loads != [] && k <= |loads|
    ensures FirstFrom(loads, At(next, |loads|), load, k) == FirstFrom(loads, next, load, k)
    decreases |loads| - k
  {
    if k == |loads| {
    } else {
      var n := |loads|;
      AtShift(next, k, n);
      AtShift(At(next, n), k, n);
      RebasedFrom(loads, next, load, k + 1);
    }
  }

  // ---- A completion between the two passes ----

  /** Counters only go down while `pick` holds the list lock. The call then comes back
  empty-handed, and the acceptor drops the connection, exactly when every worker that stood
  at the minimum finished a connection before its second reading and no busier worker came
  down to that very minimum. With no completion in between there is always a choice. */
  lemma EmptyHandedIff(first: seq<nat>, second: seq<nat>, next: nat)
    requires first != [] && |first| == |second|
    requires forall i :: 0 <= i < |first| ==> second[i] <= first[i]
    ensures FirstFrom(second, At(next, |first|), Min(first), 0).None? <==>
              && (forall i :: 0 <= i < |first| && first[i] == Min(first) ==> second[i] < first[i])
              && (forall i :: 0 <= i < |first| && first[i] > Min(first) ==> second[i] != Min(first))
    ensures FirstFrom(first, At(next, |first|), Min(first), 0).Some?
  {
    ScanNone(second, At(next, |first|), Min(first));
    ScanNone(first, At(next, |first|), Min(first));
    assert Min(first) !in second <==> forall i :: 0 <= i < |first| ==> second[i] != Min(first);
  }

  /** One worker, one connection, which ends between the two passes: nobody is picked. */
  lemma EmptyHandedExample()
    ensures FirstFrom([0], At(7, 1), Min([1]), 0).None?
  {
    EmptyHandedIff([1], [0], 7);
  }

  // ---- Runs of picks with no completion ----

  /** The cursor after `k` picks. */
  function Cursor(next: nat, k: nat): nat {
    if k == 0 then next else NextCursor(Cursor(next, k - 1))
  }

  /** `states[k]` are the loads before pick number `k` and `picks[k]` the worker it took. */
  ghost predicate PickRun(states: seq<seq<nat>>, picks: seq<nat>, next: nat) {
    && |states| == |picks| + 1
    && states[0] != []
    && forall k: nat {:trigger Cursor(next, k)} :: k < |picks| ==> TakesStep(states[k], picks[k], states[k + 1], Cursor(next, k))
  }

  ghost predicate TakesStep(loads: seq<nat>, i: nat, after: seq<nat>, cursor: nat) {
    loads != [] && i == Choice(loads, cursor) && after == Picked(loads, cursor)
  }

  /** What balancing needs to know of a pick: it takes a least-loaded worker one up. */
  ghost predicate TakesLeast(loads: seq<nat>, i: nat, after: seq<nat>) {
    && i < |loads|
    && (forall j :: 0 <= j < |loads| ==> loads[i] <= loads[j])
    && after == loads[i := loads[i] + 1]
  }

  /** No two loads differ by more than `d`. */
  ghost predicate Within(loads: seq<nat>, d: nat) {
    forall i, j :: 0 <= i < |loads| && 0 <= j < |loads| ==> loads[i] <= loads[j] + d
  }

  /** A run of picks never widens a spread of one or more: from equal loads, or any loads at
  most one apart, the busiest worker stays within one connection of the idlest. */
  lemma {:induction false} SpreadKept(states: seq<seq<nat>>, picks: seq<nat>, next: nat, k: nat, d: nat)
    requires PickRun(states, picks, next) && k < |states|
    requires d >= 1 && Within(states[0], d)
    ensures Within(states[k], d) && |states[k]| == |states[0]|
  {
    if k == 0 {
    } else {
      SpreadKept(states, picks, next, k - 1, d);
      assert TakesStep(states[k - 1], picks[k - 1], states[k - 1 + 1], Cursor(next, k - 1));
      assert TakesLeast(states[k - 1], picks[k - 1], states[k]);
    }
  }

  ghost predicate AllAt(loads: seq<nat>, level: nat) {
    forall i :: 0 <= i < |loads| ==> loads[i] == level
  }

  /** Every load is `level` or one more. */
  ghost predicate Level(loads: seq<nat>, level: nat) {
    forall i :: 0 <= i < |loads| ==> loads[i] == level || loads[i] == level + 1
  }

  /** The workers still at load `level`. */
  function Behind(loads: seq<nat>, level: nat): set<nat> {
    set i | 0 <= i < |loads| && loads[i] == level
  }

  lemma {:induction false} BehindAll(loads: seq<nat>, level: nat)
    requires AllAt(loads, level)
    ensures |Behind(loads, level)| == |loads|
  {
    if loads == [] {
    } else {
      var n := |loads| - 1;
      BehindAll(loads[..n], level);
      assert Behind(loads, level) == Behind(loads[..n], level) + {n};
    }
  }

  /** While somebody is behind, a pick takes one of those, and brings it level. */
  lemma CatchUp(loads: seq<nat>, i: nat, after: seq<nat>, level: nat)
    requires TakesLeast(loads, i, after) && Level(loads, level) && Behind(loads, level) != {}
    ensures i in Behind(loads, level)
    ensures Behind(after, level) == Behind(loads, level) - {i}
    ensures Level(after, level) && |Behind(after, level)| == |Behind(loads, level)| - 1
  {
    var b :| b in Behind(loads, level);
    assert loads[i] <= loads[b];
    assert Behind(after, level) == Behind(loads, level) - {i};
  }

  /** From equal loads, the first `m` picks have each taken a different worker one up; the
  others are where they were. The cursor may stand anywhere and may wrap. */
  lemma {:induction false} FirstRound(states: seq<seq<nat>>, picks: seq<nat>, next: nat, m: nat, level: nat)
    requires PickRun(states, picks, next) && AllAt(states[0], level) && m <= |states[0]| && m < |states|
    ensures |states[m]| == |states[0]|
    ensures Level(states[m], level) && |Behind(states[m], level)| == |states[0]| - m
    ensures forall k :: 0 <= k < m ==> picks[k] < |states[0]| && picks[k] !in Behind(states[m], level)
    ensures forall k :: 0 <= k < m ==> picks[k] !in picks[..k]
  {
    if m == 0 {
      BehindAll(states[0], level);
    } else {
      FirstRound(states, picks, next, m - 1, level);
      assert TakesStep(states[m - 1], picks[m - 1], states[m - 1 + 1], Cursor(next, m - 1));
      assert TakesLeast(states[m - 1], picks[m - 1], states[m]);
      CatchUp(states[m - 1], picks[m - 1], states[m], level);
    }
  }

  /** From equal loads, as many picks as there are workers hit each worker exactly once. */
  lemma EachWorkerOnce(states: seq<seq<nat>>, picks: seq<nat>, next: nat, level: nat)
    requires PickRun(states, picks, next) && AllAt(states[0], level) && |picks| == |states[0]|
    ensures AllAt(states[|picks|], level + 1)
    ensures forall k, k' :: 0 <= k < k' < |picks| ==> picks[k] != picks[k']
  {
    var n := |picks|;
    FirstRound(states, picks, next, n, level);
    forall i | 0 <= i < |states[n]| ensures states[n][i] == level + 1 {
      assert i !in Behind(states[n], level);
    }
    forall k, k' | 0 <= k < k' < n ensures picks[k] != picks[k'] {
      assert picks[k'] !in picks[..k'];
      assert picks[..k'][k] == picks[k];
    }
  }

  // ---- Strict rotation ----

  /** Counting positions from the cursor at `w`: workers up to position `end` are at `base`,
  the rest of the turn, already served in this round, one above. */
  ghost predicate MidRound(loads: seq<nat>, w: nat, end: nat, base: nat) {
    && loads != []
    && w < end <= w + |loads|
    && (forall p: nat :: w <= p < end ==> loads[At(p, |loads|)] == base)
    && (forall p: nat :: end <= p < w + |loads| ==> loads[At(p, |loads|)] == base + 1)
  }

  lemma MidRoundChoice(loads: seq<nat>, w: nat, end: nat, base: nat)
    requires MidRound(loads, w, end, base)
    ensures Choice(loads, w) == At(w, |loads|) && loads[At(w, |loads|)] == base
  {
    forall i | 0 <= i < |loads| ensures loads[i] >= base {
      var p := TurnOf(w, i, |loads|);
    }
  }

  /** The pick serves position `w`, which is position `w + n` of the next turn. */
  lemma ServedOnce(loads: seq<nat>, w: nat, p: nat, served: seq<nat>)
    requires loads != [] && w < p <= w + |loads|
    requires served == loads[At(w, |loads|) := loads[At(w, |loads|)] + 1]
    ensures served[At(p, |loads|)] == if p < w + |loads| then loads[At(p, |loads|)] else loads[At(w, |loads|)] + 1
  {
    if p < w + |loads| {
      TurnDistinct(w, p, |loads|);
    } else {
      AtShift(w, |loads|, |loads|);
    }
  }

  lemma MidRoundPick(loads: seq<nat>, w: nat, end: nat, base: nat)
    requires MidRound(loads, w, end, base)
    ensures Choice(loads, w) == At(w, |loads|)
    ensures end > w + 1 ==> MidRound(Picked(loads, w), w + 1, end, base)
    ensures end == w + 1 ==> MidRound(Picked(loads, w), w + 1, end + |loads|, base + 1)
  {
    var n, served := |loads|, Picked(loads, w);
    MidRoundChoice(loads, w, end, base);
    forall p: nat | w < p <= w + n
      ensures served[At(p, n)] == if p < end then base else base + 1
    {
      ServedOnce(loads, w, p, served);
    }
  }

  lemma FreshRound(loads: seq<nat>, w: nat, level: nat)
    requires loads != [] && AllAt(loads, level)
    ensures MidRound(loads, w, w + |loads|, level)
  {
  }

  lemma {:induction false} CursorAdds(next: nat, k: nat)
    requires next + k < CURSOR_LIMIT
    ensures Cursor(next, k) == next + k
  {
    if k == 0 {
    } else {
      CursorAdds(next, k - 1);
    }
  }

  lemma RunStep(states: seq<seq<nat>>, picks: seq<nat>, next: nat, k: nat)
    requires PickRun(states, picks, next) && k < |picks| && next + k < CURSOR_LIMIT
    ensures TakesStep(states[k], picks[k], states[k + 1], next + k)
  {
    CursorAdds(next, k);
  }

  lemma MidRoundStep(states: seq<seq<nat>>, picks: seq<nat>, next: nat, k: nat, end: nat, base: nat)
      returns (end': nat, base': nat)
    requires PickRun(states, picks, next) && k < |picks| && next + k < CURSOR_LIMIT
    requires MidRound(states[k], next + k, end, base)
    ensures |states[k + 1]| == |states[k]| && MidRound(states[k + 1], next + k + 1, end', base')
    ensures picks[k] == At(next + k, |states[k]|)
  {
    RunStep(states, picks, next, k);
    MidRoundPick(states[k], next + k, end, base);
    if end == next + k + 1 {
      end', base' := end + |states[k]|, base + 1;
    } else {
      end', base' := end, base;
    }
  }

  lemma {:induction false} StaysMidRound(states: seq<seq<nat>>, picks: seq<nat>, next: nat, k: nat, level: nat)
      returns (end: nat, base: nat)
    requires PickRun(states, picks, next) && AllAt(states[0], level) && k < |states| && next + k < CURSOR_LIMIT
    ensures |states[k]| == |states[0]| && MidRound(states[k], next + k, end, base)
  {
    if k == 0 {
      FreshRound(states[0], next, level);
      end, base := next + |states[0]|, level;
    } else {
      end, base := StaysMidRound(states, picks, next, k - 1, level);
      end, base := MidRoundStep(states, picks, next, k - 1, end, base);
    }
  }

  /** From equal loads, and while the cursor does not wrap, picks go strictly round: pick
  number `k` takes the worker `k` places after the cursor. */
  lemma Rotation(states: seq<seq<nat>>, picks: seq<nat>, next: nat, k: nat, level: nat)
    requires PickRun(states, picks, next) && AllAt(states[0], level) && k < |picks| && next + k < CURSOR_LIMIT
    ensures picks[k] == At(next + k, |states[0]|)
  {
    var end, base := StaysMidRound(states, picks, next, k, level);
    end, base := MidRoundStep(states, picks, next, k, end, base);
  }

  /** So any stretch of as many consecutive picks as there are workers hits each of them
  exactly once, wherever in the run it starts. */
  lemma RoundRobin(states: seq<seq<nat>>, picks: seq<nat>, next: nat, level: nat, k: nat, k': nat)
    requires PickRun(states, picks, next) && AllAt(states[0], level)
    requires k < k' < |picks| && k' < k + |states[0]| && next + k' < CURSOR_LIMIT
    ensures picks[k] != picks[k']
  {
    Rotation(states, picks, next, k, level);
    Rotation(states, picks, next, k', level);
    TurnDistinct(next + k, next + k', |states[0]|);
  }
}
