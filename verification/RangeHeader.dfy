/** From a `Range` header to the byte ranges to send (`parse_byte_ranges`, src/responses.rs). */
module RangeHeader {
  import opened Decimal
  import opened Ranges
  import opened Runs
  import opened Text

  /** Both ends included, as `Content-Range` writes them. */
  datatype Inclusive = Inclusive(first: nat, last: nat)

  datatype Outcome =
    | Unsatisfiable
    | Malformed(reason: string)
    | Single(range: Inclusive)
    | Multi(ranges: seq<Inclusive>)

  /** A sub-range as read: half-open, and the start may lie before the file. */
  datatype Raw = Raw(start: int, end: nat)

  // ---- Reading ----

  /** The texts on both sides of the dash. */
  function ReadPair(a: string, b: string, total: nat): (r: Option<Raw>)
    ensures r.Some? && total > 0 ==> 1 <= r.value.end <= total
  {
    if a == "" then
      match ParseU64(b)
      case None => None
      case Some(n) => Some(Raw(total - n, total))
    else
      match ParseU64(a)
      case None => None
      case Some(s) =>
        if b == "" then Some(Raw(s, total)) else
        match ParseU64(b)
        case None => None
        case Some(e) => Some(Raw(s, if e < total then e + 1 else total))
  }

  /** One comma-separated piece; `None` when it is skipped. */
  function SubRange(piece: string, total: nat): (r: Option<Raw>)
    ensures r.Some? && total > 0 ==> 1 <= r.value.end <= total
  {
    var part := Trim(piece);
    if part == "" || part == "-" then None else
    match SplitOnce(part, '-')
    case None => None
    case Some((x, y)) => ReadPair(Trim(x), Trim(y), total)
  }

  function RawRanges(pieces: seq<string>, total: nat): (raw: seq<Raw>)
    ensures total > 0 ==> EndsWithin(raw, total)
  {
    if pieces == [] then [] else
    RawRanges(pieces[..|pieces| - 1], total) +
    match SubRange(pieces[|pieces| - 1], total)
    case None => []
    case Some(r) => [r]
  }

  predicate EndsWithin(raw: seq<Raw>, total: nat) {
    forall i :: 0 <= i < |raw| ==> 1 <= raw[i].end <= total
  }

  // ---- Deciding ----

  predicate StartsWithin(raw: seq<Raw>, total: nat) {
    forall i :: 0 <= i < |raw| ==> 0 <= raw[i].start < total
  }

  predicate InOrder(raw: seq<Raw>) {
    forall i :: 0 <= i < |raw| ==> raw[i].start <= raw[i].end
  }

  function AsRanges(raw: seq<Raw>): seq<Range>
    requires forall i :: 0 <= i < |raw| ==> 0 <= raw[i].start
  {
    seq(|raw|, i requires 0 <= i < |raw| => Range(raw[i].start, raw[i].end))
  }

  function AsInclusive(rs: seq<Range>): seq<Inclusive>
    requires forall i :: 0 <= i < |rs| ==> 1 <= rs[i].end
  {
    seq(|rs|, i requires 0 <= i < |rs| => Inclusive(rs[i].start, rs[i].end - 1))
  }

  function Deliver(ranges: seq<Inclusive>): Outcome {
    if |ranges| == 1 then Single(ranges[0]) else Multi(ranges)
  }

  /** Coalescing neither grows nor shrinks the bounds on where ranges end. */
  lemma {:induction false} MergeEnds(rs: seq<Range>, total: nat)
    requires forall i :: 0 <= i < |rs| ==> 1 <= rs[i].end <= total
    ensures forall i :: 0 <= i < |Merge(rs)| ==> 1 <= Merge(rs)[i].end <= total
  {
    if rs == [] {
    } else {
      MergeEnds(rs[..|rs| - 1], total);
    }
  }

  lemma SortMembers(rs: seq<Range>)
    ensures forall r :: r in Sort(rs) <==> r in rs
  {
    SortSorted(rs);
    forall r ensures r in Sort(rs) <==> r in rs {
      assert r in Sort(rs) <==> r in multiset(Sort(rs));
      assert r in rs <==> r in multiset(rs);
    }
  }

  lemma SortKeepsEnds(rs: seq<Range>, total: nat)
    requires forall i :: 0 <= i < |rs| ==> rs[i].start <= rs[i].end && 1 <= rs[i].end <= total
    ensures forall i :: 0 <= i < |Sort(rs)| ==> Sort(rs)[i].start <= Sort(rs)[i].end && 1 <= Sort(rs)[i].end <= total
  {
    SortMembers(rs);
    var sorted := Sort(rs);
    forall i | 0 <= i < |sorted| ensures sorted[i].start <= sorted[i].end && 1 <= sorted[i].end <= total {
      assert sorted[i] in rs;
    }
  }

  function Normal(raw: seq<Raw>, total: nat): (out: seq<Range>)
    requires StartsWithin(raw, total) && InOrder(raw) && EndsWithin(raw, total)
    ensures forall i :: 0 <= i < |out| ==> 1 <= out[i].end <= total
    ensures Coalesced(out, Sort(AsRanges(raw)))
    ensures raw != [] ==> out != []
  {
    SortKeepsEnds(AsRanges(raw), total);
    SortSorted(AsRanges(raw));
    MergeEnds(Sort(AsRanges(raw)), total);
    MergeCoalesced(Sort(AsRanges(raw)));
    Merge(Sort(AsRanges(raw)))
  }

  /** The checks in their order, then the ranges. */
  function Decide(raw: seq<Raw>, total: nat): Outcome
    requires EndsWithin(raw, total)
  {
    if raw == [] then Malformed("Range header: range must be requested")
    else if !StartsWithin(raw, total) then Unsatisfiable
    else if !InOrder(raw) then Malformed("Range header: start must be less than end")
    else Deliver(AsInclusive(Normal(raw, total)))
  }

  function Parse(header: string, total: nat): Outcome {
    match SplitOnce(Trim(header), '=')
    case None => Malformed("Malformed range header.")
    case Some((unit, rest)) =>
      if !SameIgnoringCase(Trim(unit), "bytes") then Malformed("Only support bytes range")
      else if total == 0 then Unsatisfiable
      else Decide(RawRanges(Split(Trim(rest), ','), total), total)
  }

  method ReadPieces(pieces: seq<string>, total: nat) returns (raw: seq<Raw>)
    ensures raw == RawRanges(pieces, total)
  {
    raw := [];
    for k := 0 to |pieces|
      invariant raw == RawRanges(pieces[..k], total)
    {
      assert pieces[..k + 1][..k] == pieces[..k];
      var r := SubRange(pieces[k], total);
      if r.Some? {
        raw := raw + [r.value];
      }
    }
    assert pieces[..|pieces|] == pieces;
  }

  method DecideRanges(raw: seq<Raw>, total: nat) returns (outcome: Outcome)
    requires EndsWithin(raw, total)
    ensures outcome == Decide(raw, total)
  {
    if raw == [] {
      return Malformed("Range header: range must be requested");
    }
    if exists i :: 0 <= i < |raw| && (raw[i].start < 0 || raw[i].start >= total) {
      return Unsatisfiable;
    }
    if exists i :: 0 <= i < |raw| && raw[i].start > raw[i].end {
      return Malformed("Range header: start must be less than end");
    }
    SortKeepsEnds(AsRanges(raw), total);
    SortSorted(AsRanges(raw));
    var coalesced := Coalesce(Sort(AsRanges(raw)));
    assert coalesced == Normal(raw, total);
    var inclusive := AsInclusive(coalesced);
    if |inclusive| == 1 {
      return Single(inclusive[0]);
    }
    return Multi(inclusive);
  }

  /** `parse_byte_ranges`. */
  method ParseByteRanges(header: string, total: nat) returns (outcome: Outcome)
    ensures outcome == Parse(header, total)
  {
    var pair := SplitOnce(Trim(header), '=');
    if pair.None? {
      return Malformed("Malformed range header.");
    }
    if !SameIgnoringCase(Trim(pair.value.0), "bytes") {
      return Malformed("Only support bytes range");
    }
    if total == 0 {
      return Unsatisfiable;
    }
    var raw := ReadPieces(Split(Trim(pair.value.1), ','), total);
    outcome := DecideRanges(raw, total);
  }

  // ---- What the answer means ----

  function Parts(o: Outcome): seq<Inclusive> {
    match o
    case Single(r) => [r]
    case Multi(rs) => rs
    case _ => []
  }

  ghost predicate Sent(parts: seq<Inclusive>, p: int) {
    exists i :: 0 <= i < |parts| && parts[i].first <= p <= parts[i].last
  }

  ghost predicate Asked(raw: seq<Raw>, p: int) {
    exists i :: 0 <= i < |raw| && raw[i].start <= p < raw[i].end
  }

  /** In file order, within the file, and a gap of a byte or more between neighbours. */
  ghost predicate Apart(parts: seq<Inclusive>, total: nat) {
    && (forall i :: 0 <= i < |parts| ==> parts[i].last < total)
    && forall i, j :: 0 <= i < j < |parts| ==> parts[i].last + 1 < parts[j].first
  }

  lemma SentIsCovered(rs: seq<Range>, p: int)
    requires forall i :: 0 <= i < |rs| ==> 1 <= rs[i].end
    ensures Sent(AsInclusive(rs), p) <==> Covers(rs, p)
  {
    var parts := AsInclusive(rs);
    if Sent(parts, p) {
      var i :| 0 <= i < |parts| && parts[i].first <= p <= parts[i].last;
      assert Has(rs[i], p);
    }
    if Covers(rs, p) {
      var i :| 0 <= i < |rs| && Has(rs[i], p);
      assert parts[i].first <= p <= parts[i].last;
    }
  }

  lemma AskedIsCovered(raw: seq<Raw>, p: int)
    requires forall i :: 0 <= i < |raw| ==> 0 <= raw[i].start
    ensures Asked(raw, p) <==> Covers(Sort(AsRanges(raw)), p)
  {
    var rs := AsRanges(raw);
    SortMembers(rs);
    if Asked(raw, p) {
      var i :| 0 <= i < |raw| && raw[i].start <= p < raw[i].end;
      assert rs[i] in Sort(rs);
      var j :| 0 <= j < |Sort(rs)| && Sort(rs)[j] == rs[i];
      assert Has(Sort(rs)[j], p);
    }
    if Covers(Sort(rs), p) {
      var j :| 0 <= j < |Sort(rs)| && Has(Sort(rs)[j], p);
      assert Sort(rs)[j] in rs;
      var i :| 0 <= i < |rs| && rs[i] == Sort(rs)[j];
      assert raw[i].start <= p < raw[i].end;
    }
  }

  /** Exactly the bytes asked for are sent, in separated parts. */
  lemma DecisionSends(raw: seq<Raw>, total: nat)
    requires raw != [] && StartsWithin(raw, total) && InOrder(raw) && EndsWithin(raw, total)
    ensures var parts := Parts(Decide(raw, total));
      && parts != [] && Apart(parts, total)
      && forall p :: Sent(parts, p) <==> Asked(raw, p)
  {
    var out := Normal(raw, total);
    forall p ensures Sent(AsInclusive(out), p) <==> Asked(raw, p) {
      SentIsCovered(out, p);
      AskedIsCovered(raw, p);
    }
    assert Parts(Decide(raw, total)) == AsInclusive(out);
  }

  function SentLength(parts: seq<Inclusive>): int {
    if parts == [] then 0
    else SentLength(parts[..|parts| - 1]) + parts[|parts| - 1].last - parts[|parts| - 1].first + 1
  }

  /** Separated parts are never more bytes than the file has. */
  lemma {:induction false} SentLengthBounded(parts: seq<Inclusive>, total: nat)
    requires Apart(parts, total) && forall i :: 0 <= i < |parts| ==> parts[i].first <= parts[i].last + 1
    ensures SentLength(parts) <= if parts == [] then 0 else parts[|parts| - 1].last + 1
  {
    if parts == [] {
    } else {
      SentLengthBounded(parts[..|parts| - 1], total);
    }
  }

  lemma DecisionBounded(raw: seq<Raw>, total: nat)
    requires EndsWithin(raw, total)
    ensures SentLength(Parts(Decide(raw, total))) <= total
  {
    if raw != [] && StartsWithin(raw, total) && InOrder(raw) {
      var out := Normal(raw, total);
      DecisionSends(raw, total);
      assert Parts(Decide(raw, total)) == AsInclusive(out);
      SentLengthBounded(AsInclusive(out), total);
    }
  }

  // ---- Empty parts ----

  predicate Touches(q: Raw, r: Raw) {
    q.start < q.end && q.start <= r.start <= q.end
  }

  ghost predicate Touched(r: Raw, raw: seq<Raw>) {
    exists k :: 0 <= k < |raw| && Touches(raw[k], r)
  }

  /** Every empty range asked for touches a non-empty one that was asked for too. */
  ghost predicate EmptiesTouched(raw: seq<Raw>) {
    forall i :: 0 <= i < |raw| && raw[i].start == raw[i].end ==> Touched(raw[i], raw)
  }

  lemma RawInside(raw: seq<Raw>, total: nat, i: nat) returns (j: nat)
    requires StartsWithin(raw, total) && InOrder(raw) && EndsWithin(raw, total) && i < |raw|
    ensures j < |Normal(raw, total)|
    ensures Normal(raw, total)[j].start <= raw[i].start && raw[i].end <= Normal(raw, total)[j].end
  {
    var rs, out := AsRanges(raw), Normal(raw, total);
    SortMembers(rs);
    assert rs[i] in Sort(rs);
    var k :| 0 <= k < |Sort(rs)| && Sort(rs)[k] == rs[i];
    assert InOne(Sort(rs)[k], out);
    j :| 0 <= j < |out| && Within(Sort(rs)[k], out[j]);
  }

  lemma StartAsked(raw: seq<Raw>, total: nat, j: nat) returns (i: nat)
    requires StartsWithin(raw, total) && InOrder(raw) && EndsWithin(raw, total) && j < |Normal(raw, total)|
    ensures i < |raw| && raw[i].start == Normal(raw, total)[j].start
  {
    var rs, out := AsRanges(raw), Normal(raw, total);
    SortMembers(rs);
    assert StartOfOne(out[j].start, Sort(rs));
    var k :| 0 <= k < |Sort(rs)| && Sort(rs)[k].start == out[j].start;
    assert Sort(rs)[k] in rs;
    i :| 0 <= i < |rs| && rs[i] == Sort(rs)[k];
  }

  lemma CoveredWasAsked(raw: seq<Raw>, total: nat, j: nat, p: int)
    requires StartsWithin(raw, total) && InOrder(raw) && EndsWithin(raw, total) && j < |Normal(raw, total)|
    requires Has(Normal(raw, total)[j], p)
    ensures Asked(raw, p)
  {
    assert Covers(Normal(raw, total), p);
    AskedIsCovered(raw, p);
  }

  lemma EmptyIsTouched(raw: seq<Raw>, total: nat, i: nat)
    requires StartsWithin(raw, total) && InOrder(raw) && EndsWithin(raw, total)
    requires NonEmpty(Normal(raw, total)) && i < |raw| && raw[i].start == raw[i].end
    ensures Touched(raw[i], raw)
  {
    var out, s := Normal(raw, total), raw[i].start;
    var j := RawInside(raw, total, i);
    var p := if s < out[j].end then s else s - 1;
    CoveredWasAsked(raw, total, j, p);
    var k :| 0 <= k < |raw| && raw[k].start <= p < raw[k].end;
    assert Touches(raw[k], raw[i]);
  }

  lemma OneRangeAt(out: seq<Range>, j: nat, k: nat, p: int)
    requires Separated(out) && j < |out| && k < |out|
    requires out[j].start <= p <= out[j].end && out[k].start <= p <= out[k].end
    ensures j == k
  {
  }

  lemma TouchedIsNonEmpty(raw: seq<Raw>, total: nat, j: nat)
    requires StartsWithin(raw, total) && InOrder(raw) && EndsWithin(raw, total)
    requires EmptiesTouched(raw) && j < |Normal(raw, total)|
    ensures Normal(raw, total)[j].start < Normal(raw, total)[j].end
  {
    var out := Normal(raw, total);
    var i := StartAsked(raw, total, j);
    var home := RawInside(raw, total, i);
    OneRangeAt(out, j, home, raw[i].start);
    if raw[i].start == raw[i].end {
      assert Touched(raw[i], raw);
      var k :| 0 <= k < |raw| && Touches(raw[k], raw[i]);
      var other := RawInside(raw, total, k);
      OneRangeAt(out, j, other, raw[i].start);
    }
  }

  /** Every part delivered has a byte in it exactly when no empty range stands alone. */
  lemma DecisionNonEmptyIff(raw: seq<Raw>, total: nat)
    requires raw != [] && StartsWithin(raw, total) && InOrder(raw) && EndsWithin(raw, total)
    ensures var parts := Parts(Decide(raw, total));
      (forall i :: 0 <= i < |parts| ==> parts[i].first <= parts[i].last) <==> EmptiesTouched(raw)
  {
    var out := Normal(raw, total);
    var parts := Parts(Decide(raw, total));
    assert parts == AsInclusive(out);
    if forall i :: 0 <= i < |parts| ==> parts[i].first <= parts[i].last {
      assert NonEmpty(out) by {
        forall j | 0 <= j < |out| ensures out[j].start < out[j].end {
          assert parts[j].first <= parts[j].last;
        }
      }
      forall i | 0 <= i < |raw| && raw[i].start == raw[i].end ensures Touched(raw[i], raw) {
        EmptyIsTouched(raw, total, i);
      }
    }
    if EmptiesTouched(raw) {
      forall j | 0 <= j < |parts| ensures parts[j].first <= parts[j].last {
        TouchedIsNonEmpty(raw, total, j);
      }
    }
  }

  // ---- Which requests get the same answer ----

  /** An empty range asked for at `m`, with no byte asked for on either side. */
  ghost predicate Lone(raw: seq<Raw>, m: int) {
    !Asked(raw, m) && !Asked(raw, m - 1) && exists i :: 0 <= i < |raw| && raw[i].start == m == raw[i].end
  }

  lemma AskedReaches(raw: seq<Raw>, total: nat, i: nat, m: int)
    requires StartsWithin(raw, total) && InOrder(raw) && EndsWithin(raw, total)
    requires i < |raw| && raw[i].start <= m <= raw[i].end
    ensures Reached(Normal(raw, total), m)
  {
    var j := RawInside(raw, total, i);
    assert Reaches(Normal(raw, total)[j], m);
  }

  lemma ReachedWasAsked(raw: seq<Raw>, total: nat, m: int)
    requires StartsWithin(raw, total) && InOrder(raw) && EndsWithin(raw, total) && Reached(Normal(raw, total), m)
    ensures Asked(raw, m) || Asked(raw, m - 1) || Lone(raw, m)
  {
    var out := Normal(raw, total);
    var j :| 0 <= j < |out| && Reaches(out[j], m);
    if m < out[j].end {
      CoveredWasAsked(raw, total, j, m);
    } else if out[j].start < m {
      CoveredWasAsked(raw, total, j, m - 1);
    } else {
      var i := StartAsked(raw, total, j);
      assert raw[i].start == m;
      assert raw[i].start < raw[i].end ==> Asked(raw, m);
    }
  }

  /** What is delivered reaches the bytes asked for, right behind them, and the lone empty ranges. */
  lemma ReachedIff(raw: seq<Raw>, total: nat, m: int)
    requires StartsWithin(raw, total) && InOrder(raw) && EndsWithin(raw, total)
    ensures Reached(Normal(raw, total), m) <==> Asked(raw, m) || Asked(raw, m - 1) || Lone(raw, m)
  {
    if Asked(raw, m) || Asked(raw, m - 1) || Lone(raw, m) {
      var i :| 0 <= i < |raw| && raw[i].start <= m <= raw[i].end;
      AskedReaches(raw, total, i, m);
    }
    if Reached(Normal(raw, total), m) {
      ReachedWasAsked(raw, total, m);
    }
  }

  ghost predicate SameRequest(a: seq<Raw>, b: seq<Raw>) {
    && (forall p :: Asked(a, p) <==> Asked(b, p))
    && (forall m :: Lone(a, m) <==> Lone(b, m))
  }

  lemma SameRequestSameForm(a: seq<Raw>, b: seq<Raw>, total: nat)
    requires StartsWithin(a, total) && InOrder(a) && EndsWithin(a, total)
    requires StartsWithin(b, total) && InOrder(b) && EndsWithin(b, total) && SameRequest(a, b)
    ensures Normal(a, total) == Normal(b, total)
  {
    var x, y := Normal(a, total), Normal(b, total);
    forall p ensures Covers(x, p) <==> Covers(y, p) {
      AskedIsCovered(a, p);
      AskedIsCovered(b, p);
    }
    forall m ensures Reached(x, m) <==> Reached(y, m) {
      ReachedIff(a, total, m);
      ReachedIff(b, total, m);
    }
    SeparatedFormUnique(x, y);
  }

  lemma SameFormSameRequest(a: seq<Raw>, b: seq<Raw>, total: nat)
    requires StartsWithin(a, total) && InOrder(a) && EndsWithin(a, total)
    requires StartsWithin(b, total) && InOrder(b) && EndsWithin(b, total) && Normal(a, total) == Normal(b, total)
    ensures SameRequest(a, b)
  {
    forall p ensures Asked(a, p) <==> Asked(b, p) {
      AskedIsCovered(a, p);
      AskedIsCovered(b, p);
    }
    forall m ensures Lone(a, m) <==> Lone(b, m) {
      ReachedIff(a, total, m);
      ReachedIff(b, total, m);
    }
  }

  lemma InclusiveInjective(x: seq<Range>, y: seq<Range>)
    requires forall i :: 0 <= i < |x| ==> 1 <= x[i].end
    requires forall i :: 0 <= i < |y| ==> 1 <= y[i].end
    requires Deliver(AsInclusive(x)) == Deliver(AsInclusive(y))
    ensures x == y
  {
    assert AsInclusive(x) == AsInclusive(y);
    assert |x| == |AsInclusive(x)| == |y|;
    forall i | 0 <= i < |x| ensures x[i] == y[i] {
      assert AsInclusive(x)[i] == AsInclusive(y)[i];
    }
  }

  lemma DecisionSameIff(a: seq<Raw>, b: seq<Raw>, total: nat)
    requires a != [] && StartsWithin(a, total) && InOrder(a) && EndsWithin(a, total)
    requires b != [] && StartsWithin(b, total) && InOrder(b) && EndsWithin(b, total)
    ensures Decide(a, total) == Decide(b, total) <==> SameRequest(a, b)
  {
    if Decide(a, total) == Decide(b, total) {
      InclusiveInjective(Normal(a, total), Normal(b, total));
      SameFormSameRequest(a, b, total);
    }
    if SameRequest(a, b) {
      SameRequestSameForm(a, b, total);
    }
  }

  // ---- Headers, however they are written ----

  /** The sub-ranges a header asks for, as far as they can be read. */
  function Requested(header: string, total: nat): (raw: seq<Raw>)
    ensures EndsWithin(raw, total)
  {
    match SplitOnce(Trim(header), '=')
    case None => []
    case Some((_, rest)) => if total == 0 then [] else RawRanges(Split(Trim(rest), ','), total)
  }

  predicate Answered(o: Outcome) {
    o.Single? || o.Multi?
  }

  lemma AnswerIsDecided(header: string, total: nat)
    requires Answered(Parse(header, total))
    ensures var raw := Requested(header, total);
      raw != [] && StartsWithin(raw, total) && InOrder(raw) && Parse(header, total) == Decide(raw, total)
  {
  }

  /** Whatever the header, if it is answered then with exactly the bytes it asks for, in
  separated parts. */
  lemma SendsWhatWasAsked(header: string, total: nat)
    requires Answered(Parse(header, total))
    ensures var parts := Parts(Parse(header, total));
      && parts != [] && Apart(parts, total)
      && forall p :: Sent(parts, p) <==> Asked(Requested(header, total), p)
  {
    AnswerIsDecided(header, total);
    DecisionSends(Requested(header, total), total);
  }

  /** No header makes a response carry more bytes than the file has. */
  lemma NeverMoreThanTheFile(header: string, total: nat)
    ensures SentLength(Parts(Parse(header, total))) <= total
  {
    if Answered(Parse(header, total)) {
      AnswerIsDecided(header, total);
      DecisionBounded(Requested(header, total), total);
    }
  }

  /** Every part delivered has a byte in it exactly when no empty range stands alone. */
  lemma PartsNonEmptyIff(header: string, total: nat)
    requires Answered(Parse(header, total))
    ensures var parts := Parts(Parse(header, total));
      (forall i :: 0 <= i < |parts| ==> parts[i].first <= parts[i].last) <==> EmptiesTouched(Requested(header, total))
  {
    AnswerIsDecided(header, total);
    DecisionNonEmptyIff(Requested(header, total), total);
  }

  /** Two headers get the same answer exactly when they ask for the same bytes and have their
  lone empty ranges in the same places. */
  lemma SameAnswerIff(a: string, b: string, total: nat)
    requires Answered(Parse(a, total)) && Answered(Parse(b, total))
    ensures Parse(a, total) == Parse(b, total) <==> SameRequest(Requested(a, total), Requested(b, total))
  {
    AnswerIsDecided(a, total);
    AnswerIsDecided(b, total);
    DecisionSameIff(Requested(a, total), Requested(b, total), total);
  }

  // ---- The grammar of RFC 7233, section 2.1 ----

  datatype Spec = FromTo(first: nat, last: nat) | From(first: nat) | Suffix(length: nat)

  function Left(spec: Spec): string {
    if spec.Suffix? then "" else Dec(spec.first)
  }

  function Right(spec: Spec): string {
    match spec
    case FromTo(_, last) => Dec(last)
    case From(_) => ""
    case Suffix(length) => Dec(length)
  }

  function PrintSpec(spec: Spec): string {
    Left(spec) + ['-'] + Right(spec)
  }

  function PrintSpecs(specs: seq<Spec>): seq<string> {
    seq(|specs|, i requires 0 <= i < |specs| => PrintSpec(specs[i]))
  }

  function Print(specs: seq<Spec>): string
    requires specs != []
  {
    "bytes" + ['='] + Join(PrintSpecs(specs), ',')
  }

  /** The bytes a specifier names in a file of `total` bytes; numbers of 2^64 or more drop it. */
  function Meaning(spec: Spec, total: nat): Option<Raw> {
    match spec
    case FromTo(first, last) =>
      if first < U64_LIMIT && last < U64_LIMIT then Some(Raw(first, if last < total then last + 1 else total)) else None
    case From(first) => if first < U64_LIMIT then Some(Raw(first, total)) else None
    case Suffix(length) => if length < U64_LIMIT then Some(Raw(total - length, total)) else None
  }

  function Meanings(specs: seq<Spec>, total: nat): seq<Raw> {
    if specs == [] then [] else
    Meanings(specs[..|specs| - 1], total) +
    match Meaning(specs[|specs| - 1], total)
    case None => []
    case Some(r) => [r]
  }

  predicate Plain(s: string) {
    forall i :: 0 <= i < |s| ==> '0' <= s[i] <= '9' || s[i] == '-'
  }

  lemma SpecIsPlain(spec: Spec)
    ensures Plain(PrintSpec(spec)) && PrintSpec(spec) != ""
  {
  }

  lemma PlainUntouched(s: string)
    requires Plain(s)
    ensures Trim(s) == s && ',' !in s
  {
    assert Spaceless(s);
    TrimSpaceless(s);
  }

  lemma SubRangeOfPair(a: string, b: string, total: nat)
    requires Plain(a) && Plain(b) && '-' !in a && |a| + |b| > 0
    ensures SubRange(a + ['-'] + b, total) == ReadPair(a, b, total)
  {
    var piece := a + ['-'] + b;
    PlainUntouched(piece);
    SplitOnceAt(a, '-', b);
    PlainUntouched(a);
    PlainUntouched(b);
    assert |piece| > 1;
  }

  lemma PairOfSpec(spec: Spec, total: nat)
    ensures ReadPair(Left(spec), Right(spec), total) == Meaning(spec, total)
  {
    match spec
    case FromTo(first, last) =>
      ParseOfDec(first);
      ParseOfDec(last);
    case From(first) => ParseOfDec(first);
    case Suffix(length) => ParseOfDec(length);
  }

  lemma SubRangeOfSpec(spec: Spec, total: nat)
    ensures SubRange(PrintSpec(spec), total) == Meaning(spec, total)
  {
    SubRangeOfPair(Left(spec), Right(spec), total);
    PairOfSpec(spec, total);
  }

  lemma {:induction false} RawOfPrinted(specs: seq<Spec>, total: nat)
    ensures RawRanges(PrintSpecs(specs), total) == Meanings(specs, total)
  {
    if specs == [] {
    } else {
      var n := |specs| - 1;
      RawOfPrinted(specs[..n], total);
      SubRangeOfSpec(specs[n], total);
      assert PrintSpecs(specs)[..n] == PrintSpecs(specs[..n]);
    }
  }

  lemma {:induction false} JoinSpaceless(parts: seq<string>)
    requires parts != [] && forall i :: 0 <= i < |parts| ==> Spaceless(parts[i])
    ensures Spaceless(Join(parts, ','))
  {
    if |parts| == 1 {
    } else {
      JoinSpaceless(parts[1..]);
    }
  }

  lemma PrintedParts(specs: seq<Spec>)
    ensures forall i :: 0 <= i < |specs| ==> Spaceless(PrintSpecs(specs)[i]) && ',' !in PrintSpecs(specs)[i]
  {
    forall i | 0 <= i < |specs| ensures Spaceless(PrintSpecs(specs)[i]) && ',' !in PrintSpecs(specs)[i] {
      SpecIsPlain(specs[i]);
    }
  }

  lemma ParseBytes(rest: string, total: nat)
    requires Spaceless(rest) && total > 0
    ensures Parse("bytes" + ['='] + rest, total) == Decide(RawRanges(Split(rest, ','), total), total)
  {
    var header := "bytes" + ['='] + rest;
    assert Spaceless(header);
    TrimSpaceless(header);
    TrimSpaceless(rest);
    SplitOnceAt("bytes", '=', rest);
    TrimSpaceless("bytes");
  }

  /** A header written to the grammar is read back as the ranges it means. */
  lemma ParsesTheGrammar(specs: seq<Spec>, total: nat)
    requires specs != [] && total > 0
    ensures EndsWithin(Meanings(specs, total), total)
    ensures Parse(Print(specs), total) == Decide(Meanings(specs, total), total)
  {
    var parts := PrintSpecs(specs);
    PrintedParts(specs);
    JoinSpaceless(parts);
    ParseBytes(Join(parts, ','), total);
    SplitOfJoin(parts, ',');
    RawOfPrinted(specs, total);
  }

  lemma DecideOneEmpty(m: nat, total: nat)
    requires 0 < m < total
    ensures Decide([Raw(m, m)], total) == Single(Inclusive(m, m - 1))
  {
    var rs := AsRanges([Raw(m, m)]);
    assert rs == [Range(m, m)];
    assert rs[1..] == [] && Sort(rs) == rs;
    assert rs[..0] == [] && Merge(rs) == rs;
    assert AsInclusive(rs) == [Inclusive(m, m - 1)];
  }

  lemma OneMeant(first: nat, last: nat, total: nat)
    requires last < total && first < U64_LIMIT && last < U64_LIMIT
    ensures Meanings([FromTo(first, last)], total) == [Raw(first, last + 1)]
  {
    assert [FromTo(first, last)][..0] == [];
  }

  /** A range that ends one byte before it starts, such as `5-4`, is not rejected: it is
  delivered, with nothing in it. */
  lemma EmptyPartDelivered(m: nat, total: nat)
    requires 0 < m < total && m < U64_LIMIT
    ensures Parse(Print([FromTo(m, m - 1)]), total) == Single(Inclusive(m, m - 1))
  {
    var specs := [FromTo(m, m - 1)];
    ParsesTheGrammar(specs, total);
    OneMeant(m, m - 1, total);
    DecideOneEmpty(m, total);
  }

  lemma OneMore(specs: seq<Spec>, m: nat, total: nat)
    requires 0 < m < total && m < U64_LIMIT
    ensures Meanings(specs + [FromTo(m, m - 1)], total) == Meanings(specs, total) + [Raw(m, m)]
  {
    assert (specs + [FromTo(m, m - 1)])[..|specs|] == specs;
  }

  ghost predicate SameAsked(a: seq<Raw>, b: seq<Raw>) {
    forall p :: Asked(a, p) <==> Asked(b, p)
  }

  lemma LoneTells(a: seq<Raw>, b: seq<Raw>, k: nat, m: nat)
    requires a == [Raw(0, k + 1), Raw(m, m)] && b == [Raw(0, k + 1)] && k + 1 < m
    ensures SameAsked(a, b) && !SameRequest(a, b)
  {
    forall p ensures Asked(a, p) <==> Asked(b, p) {
      assert b[0] == a[0];
    }
    assert a[1].start == m == a[1].end;
    assert Lone(a, m) && !Lone(b, m);
  }

  lemma LoneDecides(a: seq<Raw>, b: seq<Raw>, k: nat, m: nat, total: nat)
    requires a == [Raw(0, k + 1), Raw(m, m)] && b == [Raw(0, k + 1)] && k + 1 < m < total
    ensures SameAsked(a, b) && Decide(a, total) != Decide(b, total)
  {
    LoneTells(a, b, k, m);
    DecisionSameIff(a, b, total);
  }

  /** So the bytes alone do not decide: `0-k` and `0-k` with a lone empty range beside it ask for
  the same bytes and get different answers. */
  lemma SameBytesOtherAnswer(k: nat, m: nat, total: nat)
    requires k + 1 < m < total && m < U64_LIMIT
    ensures var a, b := [FromTo(0, k), FromTo(m, m - 1)], [FromTo(0, k)];
      && SameAsked(Meanings(a, total), Meanings(b, total))
      && Parse(Print(a), total) != Parse(Print(b), total)
  {
    var a, b := [FromTo(0, k), FromTo(m, m - 1)], [FromTo(0, k)];
    OneMeant(0, k, total);
    OneMore(b, m, total);
    assert b + [FromTo(m, m - 1)] == a;
    LoneDecides(Meanings(a, total), Meanings(b, total), k, m, total);
    ParsesTheGrammar(a, total);
    ParsesTheGrammar(b, total);
  }

  // ---- Verdicts on headers written to the grammar ----

  /** Numbers that fit 64 bits. */
  predicate Fitting(spec: Spec) {
    match spec
    case FromTo(first, last) => first < U64_LIMIT && last < U64_LIMIT
    case From(first) => first < U64_LIMIT
    case Suffix(length) => length < U64_LIMIT
  }

  /** The specifier starts at or past the end of the file, or before its beginning. */
  predicate OutOfFile(spec: Spec, total: nat) {
    match spec
    case FromTo(first, _) => first >= total
    case From(first) => first >= total
    case Suffix(length) => length == 0 || length > total
  }

  predicate Reversed(spec: Spec) {
    spec.FromTo? && spec.first > spec.last + 1
  }

  lemma {:induction false} MeaningsAt(specs: seq<Spec>, total: nat)
    requires forall k :: 0 <= k < |specs| ==> Fitting(specs[k])
    ensures |Meanings(specs, total)| == |specs|
    ensures forall k :: 0 <= k < |specs| ==> Meaning(specs[k], total) == Some(Meanings(specs, total)[k])
  {
    if specs == [] {
    } else {
      MeaningsAt(specs[..|specs| - 1], total);
    }
  }

  ghost predicate SomeOutOfFile(specs: seq<Spec>, total: nat) {
    exists k :: 0 <= k < |specs| && OutOfFile(specs[k], total)
  }

  ghost predicate SomeReversed(specs: seq<Spec>) {
    exists k :: 0 <= k < |specs| && Reversed(specs[k])
  }

  lemma SpecVerdict(spec: Spec, total: nat)
    requires Fitting(spec) && total > 0
    ensures var raw := Meaning(spec, total).value;
      && (0 <= raw.start < total <==> !OutOfFile(spec, total))
      && (!OutOfFile(spec, total) ==> (raw.start > raw.end <==> Reversed(spec)))
  {
  }

  lemma MeaningsVerdict(specs: seq<Spec>, total: nat)
    requires total > 0 && forall k :: 0 <= k < |specs| ==> Fitting(specs[k])
    ensures var raw := Meanings(specs, total);
      && (StartsWithin(raw, total) <==> !SomeOutOfFile(specs, total))
      && (StartsWithin(raw, total) ==> (InOrder(raw) <==> !SomeReversed(specs)))
  {
    var raw := Meanings(specs, total);
    MeaningsAt(specs, total);
    forall k | 0 <= k < |specs|
      ensures 0 <= raw[k].start < total <==> !OutOfFile(specs[k], total)
      ensures !OutOfFile(specs[k], total) ==> (raw[k].start > raw[k].end <==> Reversed(specs[k]))
    {
      assert Meaning(specs[k], total) == Some(raw[k]);
      SpecVerdict(specs[k], total);
    }
  }

  lemma DecideVerdict(raw: seq<Raw>, total: nat)
    requires raw != [] && EndsWithin(raw, total)
    ensures Decide(raw, total).Unsatisfiable? <==> !StartsWithin(raw, total)
    ensures Decide(raw, total).Malformed? <==> StartsWithin(raw, total) && !InOrder(raw)
  {
  }

  /** 416 exactly when some specifier starts outside the file, 400 exactly when none does and
  one ends more than a byte before it starts. */
  lemma GrammarVerdict(specs: seq<Spec>, total: nat)
    requires specs != [] && total > 0 && forall k :: 0 <= k < |specs| ==> Fitting(specs[k])
    ensures Parse(Print(specs), total).Unsatisfiable? <==> SomeOutOfFile(specs, total)
    ensures Parse(Print(specs), total).Malformed? <==> !SomeOutOfFile(specs, total) && SomeReversed(specs)
  {
    ParsesTheGrammar(specs, total);
    MeaningsAt(specs, total);
    MeaningsVerdict(specs, total);
    DecideVerdict(Meanings(specs, total), total);
  }
}
