/** Byte ranges of a `Range` header (`parse_byte_ranges`, src/responses.rs): half-open
`[start, end)` ranges are sorted and coalesced, then handed on as inclusive ones. */
module Ranges {

  datatype Range = Range(start: nat, end: nat)

  // ---- Sets of byte positions ----

  predicate Has(r: Range, p: int) {
    r.start <= p < r.end
  }

  ghost predicate Covers(rs: seq<Range>, p: int) {
    exists i :: 0 <= i < |rs| && Has(rs[i], p)
  }

  ghost predicate SameBytes(a: seq<Range>, b: seq<Range>) {
    forall p :: Covers(a, p) <==> Covers(b, p)
  }

  /** Start and end of each range are in order; empty ranges are allowed. */
  ghost predicate Forward(rs: seq<Range>) {
    forall i :: 0 <= i < |rs| ==> rs[i].start <= rs[i].end
  }

  /** Sorted, and no range touches or overlaps the next. */
  ghost predicate Separated(rs: seq<Range>) {
    && Forward(rs)
    && forall i, j :: 0 <= i < j < |rs| ==> rs[i].end < rs[j].start
  }

  ghost predicate NonEmpty(rs: seq<Range>) {
    forall i :: 0 <= i < |rs| ==> rs[i].start < rs[i].end
  }

  // ---- Sorting ----

  /** The order `sort_unstable` puts pairs in. */
  predicate Leq(a: Range, b: Range) {
    a.start < b.start || (a.start == b.start && a.end <= b.end)
  }

  ghost predicate Sorted(rs: seq<Range>) {
    forall i, j :: 0 <= i < j < |rs| ==> Leq(rs[i], rs[j])
  }

  function Insert(r: Range, rs: seq<Range>): seq<Range> {
    if rs == [] then [r] else if Leq(r, rs[0]) then [r] + rs else [rs[0]] + Insert(r, rs[1..])
  }

  function Sort(rs: seq<Range>): seq<Range> {
    if rs == [] then [] else Insert(rs[0], Sort(rs[1..]))
  }

  lemma {:induction false} InsertPermutes(r: Range, rs: seq<Range>)
    ensures multiset(Insert(r, rs)) == multiset(rs) + multiset{r}
  {
    if rs == [] || Leq(r, rs[0]) {
    } else {
      InsertPermutes(r, rs[1..]);
      assert rs == [rs[0]] + rs[1..];
    }
  }

  lemma {:induction false} InsertSorted(r: Range, rs: seq<Range>)
    requires Sorted(rs)
    ensures Sorted(Insert(r, rs))
  {
    if rs == [] || Leq(r, rs[0]) {
    } else {
      var t := Insert(r, rs[1..]);
      InsertSorted(r, rs[1..]);
      InsertPermutes(r, rs[1..]);
      forall i | 0 <= i < |t| ensures Leq(rs[0], t[i]) {
        assert t[i] in multiset(t);
      }
    }
  }

  lemma {:induction false} SortSorted(rs: seq<Range>)
    ensures Sorted(Sort(rs)) && multiset(Sort(rs)) == multiset(rs)
  {
    if rs == [] {
    } else {
      SortSorted(rs[1..]);
      InsertSorted(rs[0], Sort(rs[1..]));
      InsertPermutes(rs[0], Sort(rs[1..]));
      assert rs == [rs[0]] + rs[1..];
    }
  }

  // ---- Coalescing ----

  predicate Within(r: Range, o: Range) {
    o.start <= r.start && r.end <= o.end
  }

  ghost predicate InOne(r: Range, out: seq<Range>) {
    exists j :: 0 <= j < |out| && Within(r, out[j])
  }

  /** Every range of `rs` lies inside one of `out`. */
  ghost predicate Inside(rs: seq<Range>, out: seq<Range>) {
    forall i {:trigger InOne(rs[i], out)} :: 0 <= i < |rs| ==> InOne(rs[i], out)
  }

  ghost predicate StartOfOne(start: nat, rs: seq<Range>) {
    exists i :: 0 <= i < |rs| && rs[i].start == start
  }

  /** Every range of `out` starts where one of `rs` does. */
  ghost predicate StartsFrom(out: seq<Range>, rs: seq<Range>) {
    forall j {:trigger StartOfOne(out[j].start, rs)} :: 0 <= j < |out| ==> StartOfOne(out[j].start, rs)
  }

  /** One turn of the loop: extend the last range, or start a new one. */
  function Absorb(out: seq<Range>, r: Range): seq<Range> {
    if out != [] && r.start <= out[|out| - 1].end then
      var last := out[|out| - 1];
      out[|out| - 1 := Range(last.start, if r.end > last.end then r.end else last.end)]
    else out + [r]
  }

  ghost predicate Coalesced(out: seq<Range>, rs: seq<Range>) {
    && Separated(out)
    && SameBytes(out, rs)
    && Inside(rs, out)
    && StartsFrom(out, rs)
  }

  lemma AbsorbSeparated(out: seq<Range>, r: Range)
    requires Separated(out) && r.start <= r.end
    requires out != [] ==> out[|out| - 1].start <= r.start
    ensures Separated(Absorb(out, r))
    ensures Absorb(out, r) != [] && Absorb(out, r)[|Absorb(out, r)| - 1].start <= r.start
  {
  }

  lemma AbsorbCovers(out: seq<Range>, r: Range, p: int)
    requires r.start <= r.end && (out != [] ==> out[|out| - 1].start <= r.start && out[|out| - 1].start <= out[|out| - 1].end)
    ensures Covers(Absorb(out, r), p) <==> Covers(out, p) || Has(r, p)
  {
    var after, n := Absorb(out, r), |out|;
    if Covers(out, p) {
      var i :| 0 <= i < n && Has(out[i], p);
      assert Has(after[i], p);
    }
    if Has(r, p) {
      assert Has(after[|after| - 1], p);
    }
    if Covers(after, p) {
      var i :| 0 <= i < |after| && Has(after[i], p);
      if i < n {
        assert Has(out[i], p) || Has(r, p);
      }
    }
  }

  lemma CoversSnoc(rs: seq<Range>, r: Range, p: int)
    ensures Covers(rs + [r], p) <==> Covers(rs, p) || Has(r, p)
  {
    var all := rs + [r];
    if Covers(rs, p) {
      var i :| 0 <= i < |rs| && Has(rs[i], p);
      assert Has(all[i], p);
    }
    if Has(r, p) {
      assert Has(all[|rs|], p);
    }
    if Covers(all, p) {
      var i :| 0 <= i < |all| && Has(all[i], p);
      assert i < |rs| ==> Has(rs[i], p);
    }
  }

  lemma AbsorbInside(out: seq<Range>, rs: seq<Range>, r: Range)
    requires Inside(rs, out) && Forward(out) && (out != [] ==> out[|out| - 1].start <= r.start)
    ensures Inside(rs + [r], Absorb(out, r))
  {
    var after, all := Absorb(out, r), rs + [r];
    forall i | 0 <= i < |all| ensures InOne(all[i], after) {
      if i < |rs| {
        assert InOne(rs[i], out);
        var j :| 0 <= j < |out| && Within(rs[i], out[j]);
        assert Within(all[i], after[j]);
      } else {
        assert Within(all[i], after[|after| - 1]);
      }
    }
  }

  lemma AbsorbStarts(out: seq<Range>, rs: seq<Range>, r: Range)
    requires StartsFrom(out, rs)
    ensures StartsFrom(Absorb(out, r), rs + [r])
  {
    var after, all := Absorb(out, r), rs + [r];
    forall j | 0 <= j < |after| ensures StartOfOne(after[j].start, all) {
      if j < |out| {
        assert StartOfOne(out[j].start, rs);
        var i :| 0 <= i < |rs| && rs[i].start == out[j].start;
        assert all[i].start == after[j].start;
      } else {
        assert all[|rs|].start == after[j].start;
      }
    }
  }

  lemma AbsorbSameBytes(out: seq<Range>, rs: seq<Range>, r: Range)
    requires SameBytes(out, rs) && Forward(out) && r.start <= r.end && (out != [] ==> out[|out| - 1].start <= r.start)
    ensures SameBytes(Absorb(out, r), rs + [r])
  {
    forall p ensures Covers(Absorb(out, r), p) <==> Covers(rs + [r], p) {
      AbsorbCovers(out, r, p);
      CoversSnoc(rs, r, p);
    }
  }

  lemma AbsorbCoalesced(out: seq<Range>, rs: seq<Range>, r: Range)
    requires Coalesced(out, rs) && r.start <= r.end && (out != [] ==> out[|out| - 1].start <= r.start)
    ensures Coalesced(Absorb(out, r), rs + [r])
    ensures Absorb(out, r)[|Absorb(out, r)| - 1].start <= r.start
  {
    AbsorbSeparated(out, r);
    AbsorbInside(out, rs, r);
    AbsorbStarts(out, rs, r);
    AbsorbSameBytes(out, rs, r);
  }

  function Merge(rs: seq<Range>): seq<Range> {
    if rs == [] then [] else Absorb(Merge(rs[..|rs| - 1]), rs[|rs| - 1])
  }

  /** The last range of `out` starts no later than the last of `rs`. */
  predicate LastStarts(out: seq<Range>, rs: seq<Range>) {
    rs != [] ==> out != [] && out[|out| - 1].start <= rs[|rs| - 1].start
  }

  lemma MergeStep(front: seq<Range>, r: Range)
    requires Sorted(front + [r]) && r.start <= r.end && Coalesced(Merge(front), front) && LastStarts(Merge(front), front)
    ensures Coalesced(Merge(front + [r]), front + [r]) && LastStarts(Merge(front + [r]), front + [r])
  {
    var rs := front + [r];
    assert rs[..|rs| - 1] == front;
    if front == [] {
      assert Merge(front) == [];
    } else {
      assert Leq(rs[|front| - 1], rs[|front|]);
    }
    AbsorbCoalesced(Merge(front), front, r);
  }

  /** Coalescing sorted ranges gives strictly separated ranges over the same byte positions. */
  lemma {:induction false} MergeCoalesced(rs: seq<Range>)
    requires Sorted(rs) && Forward(rs)
    ensures Coalesced(Merge(rs), rs) && LastStarts(Merge(rs), rs)
  {
    if rs == [] {
    } else {
      var front, r := rs[..|rs| - 1], rs[|rs| - 1];
      MergeCoalesced(front);
      assert rs == front + [r];
      MergeStep(front, r);
    }
  }

  /** The coalescing loop. */
  method Coalesce(rs: seq<Range>) returns (out: seq<Range>)
    requires Sorted(rs) && Forward(rs)
    ensures out == Merge(rs) && Coalesced(out, rs)
  {
    out := [];
    for k := 0 to |rs|
      invariant out == Merge(rs[..k])
    {
      assert rs[..k + 1][..k] == rs[..k];
      var r := rs[k];
      if out != [] && r.start <= out[|out| - 1].end {
        var last := out[|out| - 1];
        if r.end > last.end {
          out := out[|out| - 1 := Range(last.start, r.end)];
        }
      } else {
        out := out + [r];
      }
    }
    assert rs[..|rs|] == rs;
    MergeCoalesced(rs);
  }

  // ---- What the normal form is worth ----

  lemma CoversCons(rs: seq<Range>, p: int)
    requires rs != []
    ensures Covers(rs, p) <==> Has(rs[0], p) || Covers(rs[1..], p)
  {
    if Covers(rs, p) {
      var i :| 0 <= i < |rs| && Has(rs[i], p);
      assert i > 0 ==> Has(rs[1..][i - 1], p);
    }
    if Covers(rs[1..], p) {
      var i :| 0 <= i < |rs[1..]| && Has(rs[1..][i], p);
      assert Has(rs[i + 1], p);
    }
  }

  lemma GapAfterFirst(rs: seq<Range>)
    requires Separated(rs) && rs != []
    ensures !Covers(rs, rs[0].end)
  {
  }

  lemma FirstRangeDetermined(a: seq<Range>, b: seq<Range>)
    requires Separated(a) && NonEmpty(a) && Separated(b) && NonEmpty(b) && SameBytes(a, b) && a != [] && b != []
    ensures a[0] == b[0]
  {
    assert Has(a[0], a[0].start) && Has(b[0], b[0].start);
    assert Covers(b, a[0].start) && Covers(a, b[0].start);
    if a[0].end < b[0].end {
      assert Has(b[0], a[0].end);
      GapAfterFirst(a);
    } else if b[0].end < a[0].end {
      assert Has(a[0], b[0].end);
      GapAfterFirst(b);
    }
  }

  /** A set of bytes has one separated form without empty ranges: the result depends on
  which bytes were asked for, not on how the header said so. */
  lemma {:induction false} NormalFormUnique(a: seq<Range>, b: seq<Range>)
    requires Separated(a) && NonEmpty(a) && Separated(b) && NonEmpty(b) && SameBytes(a, b)
    ensures a == b
  {
    if a == [] || b == [] {
      if a != [] {
        assert Has(a[0], a[0].start);
        assert Covers(a, a[0].start);
      }
      if b != [] {
        assert Has(b[0], b[0].start);
        assert Covers(b, b[0].start);
      }
    } else {
      FirstRangeDetermined(a, b);
      forall p ensures Covers(a[1..], p) <==> Covers(b[1..], p) {
        CoversCons(a, p);
        CoversCons(b, p);
      }
      NormalFormUnique(a[1..], b[1..]);
      assert a == [a[0]] + a[1..] && b == [b[0]] + b[1..];
    }
  }

  /** `p` is in the range, or right behind it; an empty range reaches where it stands. */
  predicate Reaches(r: Range, p: int) {
    r.start <= p <= r.end
  }

  ghost predicate Reached(rs: seq<Range>, p: int) {
    exists i :: 0 <= i < |rs| && Reaches(rs[i], p)
  }

  /** At twice the scale, with room for an end of its own, no range is empty. */
  function Doubled(rs: seq<Range>): seq<Range> {
    seq(|rs|, i requires 0 <= i < |rs| => Range(2 * rs[i].start, 2 * rs[i].end + 1))
  }

  lemma DoubledCovers(rs: seq<Range>, p: int)
    ensures Covers(Doubled(rs), 2 * p) <==> Reached(rs, p)
    ensures Covers(Doubled(rs), 2 * p + 1) <==> Covers(rs, p)
  {
    forall i | 0 <= i < |rs| ensures Has(Doubled(rs)[i], 2 * p) <==> Reaches(rs[i], p) {}
    forall i | 0 <= i < |rs| ensures Has(Doubled(rs)[i], 2 * p + 1) <==> Has(rs[i], p) {}
  }

  lemma DoubledSame(a: seq<Range>, b: seq<Range>)
    requires SameBytes(a, b) && forall p :: Reached(a, p) <==> Reached(b, p)
    ensures SameBytes(Doubled(a), Doubled(b))
  {
    forall q ensures Covers(Doubled(a), q) <==> Covers(Doubled(b), q) {
      DoubledCovers(a, q / 2);
      DoubledCovers(b, q / 2);
      assert q == 2 * (q / 2) || q == 2 * (q / 2) + 1;
    }
  }

  lemma DoubledInjective(a: seq<Range>, b: seq<Range>)
    requires Doubled(a) == Doubled(b)
    ensures a == b
  {
    assert |a| == |Doubled(a)| == |b|;
    forall i | 0 <= i < |a| ensures a[i] == b[i] {
      assert Doubled(a)[i] == Doubled(b)[i];
    }
  }

  /** A separated form, empty ranges included, is determined by its bytes and by where it
  reaches. */
  lemma SeparatedFormUnique(a: seq<Range>, b: seq<Range>)
    requires Separated(a) && Separated(b) && SameBytes(a, b) && forall p :: Reached(a, p) <==> Reached(b, p)
    ensures a == b
  {
    DoubledSame(a, b);
    NormalFormUnique(Doubled(a), Doubled(b));
    DoubledInjective(a, b);
  }
}
