/** The `multipart/byteranges` body of a multi-range response (`file_response_with_range`,
src/responses.rs): the length announced up front, the producer loop that reads the file in
64 KiB pieces, and a reader that takes the parts back out. Bytes are modelled as characters. */
module ByteRangesBody {
  import opened Decimal
  import opened RangeHeader
  import opened Runs
  import opened Text

  const CHUNK: nat := 65536

  // ---- The body, for any preambles and closing line ----

  /** The range lies within the file; one that ends just before its start is empty. */
  predicate Within(r: Inclusive, file: string) {
    r.first == r.last + 1 || r.first <= r.last < |file|
  }

  predicate Fits(rs: seq<Inclusive>, file: string) {
    forall i :: 0 <= i < |rs| ==> Within(rs[i], file)
  }

  function Slice(file: string, r: Inclusive): (s: string)
    requires Within(r, file)
    ensures |s| == r.last + 1 - r.first
  {
    if r.first > r.last then "" else file[r.first..r.last + 1]
  }

  /** The body from part `k` on. */
  function From(preambles: seq<string>, closing: string, rs: seq<Inclusive>, file: string, k: nat): string
    requires |preambles| == |rs| && Fits(rs, file) && k <= |rs|
    decreases |rs| - k
  {
    if k == |rs| then closing
    else preambles[k] + (Slice(file, rs[k]) + From(preambles, closing, rs, file, k + 1))
  }

  function Sizes(preambles: seq<string>, rs: seq<Inclusive>): int
    requires |preambles| == |rs|
  {
    if rs == [] then 0 else
    var k := |rs| - 1;
    Sizes(preambles[..k], rs[..k]) + |preambles[k]| + (rs[k].last - rs[k].first + 1)
  }

  lemma SizesSnoc(preambles: seq<string>, pre: string, rs: seq<Inclusive>, k: nat)
    requires |preambles| == k < |rs|
    ensures Sizes(preambles + [pre], rs[..k + 1]) == Sizes(preambles, rs[..k]) + |pre| + (rs[k].last - rs[k].first + 1)
  {
    assert (preambles + [pre])[..k] == preambles && rs[..k + 1][..k] == rs[..k];
  }

  lemma {:induction false} SizesMatch(preambles: seq<string>, closing: string, rs: seq<Inclusive>, file: string, k: nat)
    requires |preambles| == |rs| && Fits(rs, file) && k <= |rs|
    ensures Sizes(preambles[..k], rs[..k]) + |From(preambles, closing, rs, file, k)| == |From(preambles, closing, rs, file, 0)|
  {
    if k == 0 {
    } else {
      SizesMatch(preambles, closing, rs, file, k - 1);
      assert preambles[..k][..k - 1] == preambles[..k - 1] && rs[..k][..k - 1] == rs[..k - 1];
    }
  }

  // ---- The wire format ----

  /** What every part of one response shares. */
  datatype Context = Context(boundary: string, contentType: string, total: nat)

  function Lead(c: Context): string {
    "--" + c.boundary + "\r\nContent-Type: " + c.contentType + "\r\nContent-Range: bytes "
  }

  function RangeLine(r: Inclusive, total: nat): string {
    Dec(r.first) + "-" + Dec(r.last) + "/" + Dec(total) + "\r\n\r\n"
  }

  function Head(c: Context, r: Inclusive): string {
    Lead(c) + RangeLine(r, c.total)
  }

  /** The text before part `k`: all but the first follow a CRLF. */
  function Preamble(c: Context): (nat, Inclusive) -> string {
    (k: nat, r: Inclusive) => (if k == 0 then "" else "\r\n") + Head(c, r)
  }

  function Preambles(preamble: (nat, Inclusive) -> string, rs: seq<Inclusive>): (pre: seq<string>)
    ensures |pre| == |rs|
  {
    if rs == [] then [] else
    var k := |rs| - 1;
    Preambles(preamble, rs[..k]) + [preamble(k, rs[k])]
  }

  function Closing(c: Context): string {
    "\r\n--" + c.boundary + "--"
  }

  function Body(c: Context, rs: seq<Inclusive>, file: string): string
    requires Fits(rs, file)
  {
    From(Preambles(Preamble(c), rs), Closing(c), rs, file, 0)
  }

  // ---- The announced length ----

  /** Preambles and `Content-Length`, computed before anything is read. */
  method Plan(preamble: (nat, Inclusive) -> string, closing: string, rs: seq<Inclusive>) returns (preambles: seq<string>, bodyLength: int)
    ensures preambles == Preambles(preamble, rs)
    ensures forall file :: Fits(rs, file) ==> bodyLength == |From(preambles, closing, rs, file, 0)|
  {
    preambles, bodyLength := [], 0;
    for k := 0 to |rs|
      invariant preambles == Preambles(preamble, rs[..k])
      invariant bodyLength == Sizes(preambles, rs[..k])
    {
      var pre := preamble(k, rs[k]);
      bodyLength := bodyLength + |pre| + (rs[k].last - rs[k].first + 1);
      SizesSnoc(preambles, pre, rs, k);
      assert rs[..k + 1][..k] == rs[..k];
      preambles := preambles + [pre];
    }
    assert rs[..|rs|] == rs;
    forall file | Fits(rs, file) ensures Sizes(preambles, rs) + |closing| == |From(preambles, closing, rs, file, 0)| {
      SizesMatch(preambles, closing, rs, file, |rs|);
      assert preambles[..|rs|] == preambles;
    }
    bodyLength := bodyLength + |closing|;
  }

  // ---- The producer ----

  lemma SlicesJoin(file: string, a: nat, b: nat, c: nat)
    requires a <= b <= c <= |file|
    ensures file[a..b] + file[b..c] == file[a..c]
  {
  }

  /** `frames` are the bytes of the file from `a` to `b`; nothing is said of an empty stretch,
  which may lie past the end. */
  ghost predicate Sending(file: string, a: nat, b: nat, frames: seq<string>) {
    && (a == b ==> frames == [])
    && (a < b ==> b <= |file| && Concat(frames) == file[a..b])
  }

  lemma SendingOn(file: string, a: nat, b: nat, c: nat, frames: seq<string>)
    requires a <= b < c <= |file| && Sending(file, a, b, frames)
    ensures Sending(file, a, c, frames + [file[b..c]])
  {
    ConcatSnoc(frames, file[b..c]);
    if a < b {
      SlicesJoin(file, a, b, c);
    } else {
      assert Concat(frames) == "" && "" + file[b..c] == file[b..c];
    }
  }

  ghost predicate Chunks(frames: seq<string>) {
    forall i :: 0 <= i < |frames| ==> 0 < |frames[i]| <= CHUNK
  }

  lemma ChunksSnoc(frames: seq<string>, chunk: string)
    requires Chunks(frames) && 0 < |chunk| <= CHUNK
    ensures Chunks(frames + [chunk])
  {
  }

  /** One range: seek, then read and send at most a chunk at a time. A read past the end of
  the file fails. */
  method SendSlice(file: string, r: Inclusive) returns (frames: seq<string>, ok: bool)
    requires r.first <= r.last + 1
    ensures ok <==> Within(r, file)
    ensures ok ==> Concat(frames) == Slice(file, r)
    ensures Chunks(frames)
  {
    frames := [];
    var pos, remaining := r.first, r.last + 1 - r.first;
    while remaining > 0
      invariant remaining >= 0 && pos + remaining == r.last + 1 && r.first <= pos
      invariant Sending(file, r.first, pos, frames) && Chunks(frames)
    {
      var want := if remaining < CHUNK then remaining else CHUNK;
      if pos + want > |file| {
        return frames, false;
      }
      SendingOn(file, r.first, pos, pos + want, frames);
      ChunksSnoc(frames, file[pos..pos + want]);
      frames := frames + [file[pos..pos + want]];
      pos, remaining := pos + want, remaining - want;
    }
    return frames, true;
  }

  lemma Regroup(done: string, pre: string, slice: string, rest: string)
    ensures done + (pre + (slice + rest)) == ((done + pre) + slice) + rest
  {
  }

  /** The producer task: what it sends, joined, is the body. It fails exactly when the file
  has become shorter than a range. */
  method Produce(preambles: seq<string>, closing: string, rs: seq<Inclusive>, file: string) returns (frames: seq<string>, ok: bool)
    requires |preambles| == |rs| && forall i :: 0 <= i < |rs| ==> rs[i].first <= rs[i].last + 1
    ensures ok <==> Fits(rs, file)
    ensures ok ==> Concat(frames) == From(preambles, closing, rs, file, 0)
  {
    frames := [];
    for k := 0 to |rs|
      invariant forall i :: 0 <= i < k ==> Within(rs[i], file)
      invariant Fits(rs, file) ==> Concat(frames) + From(preambles, closing, rs, file, k) == From(preambles, closing, rs, file, 0)
    {
      var piece, fine := SendSlice(file, rs[k]);
      if !fine {
        return frames + [preambles[k]] + piece, false;
      }
      ConcatSnoc(frames, preambles[k]);
      ConcatBoth(frames + [preambles[k]], piece);
      if Fits(rs, file) {
        Regroup(Concat(frames), preambles[k], Slice(file, rs[k]), From(preambles, closing, rs, file, k + 1));
      }
      frames := frames + [preambles[k]] + piece;
    }
    ConcatSnoc(frames, closing);
    return frames + [closing], true;
  }

  // ---- A reader ----

  function Expect(s: string, prefix: string): Option<string> {
    if prefix <= s then Some(s[|prefix|..]) else None
  }

  /** Digits up to `stop`, and what follows it. */
  function ReadNumber(s: string, stop: char): Option<(nat, string)> {
    match SplitOnce(s, stop)
    case None => None
    case Some((digits, rest)) => if Digits(digits) then Some((ReadDec(digits), rest)) else None
  }

  datatype Part = Part(range: Inclusive, total: nat, content: string)

  /** What follows the boundary line and `Content-Type`: the range, then its bytes. */
  function ReadRange(s: string): Option<(Part, string)> {
    var a :- ReadNumber(s, '-');
    var b :- ReadNumber(a.1, '/');
    var t :- ReadNumber(b.1, '\r');
    var rest :- Expect(t.1, "\n\r\n");
    var size := b.0 + 1 - a.0;
    if 0 <= size <= |rest| then Some((Part(Inclusive(a.0, b.0), t.0, rest[..size]), rest[size..])) else None
  }

  lemma ReadNumberOfDec(n: nat, stop: char, rest: string)
    requires !('0' <= stop <= '9')
    ensures ReadNumber(Dec(n) + [stop] + rest, stop) == Some((n, rest))
  {
    SplitOnceAt(Dec(n), stop, rest);
    ReadDecOfDec(n);
  }

  lemma ReadRangeBack(r: Inclusive, total: nat, content: string, rest: string)
    requires r.first <= r.last + 1 && |content| == r.last + 1 - r.first
    ensures ReadRange(RangeLine(r, total) + (content + rest)) == Some((Part(r, total, content), rest))
  {
    var s3 := "\n\r\n" + (content + rest);
    var s2 := Dec(total) + ['\r'] + s3;
    var s1 := Dec(r.last) + ['/'] + s2;
    ReadNumberOfDec(r.first, '-', s1);
    ReadNumberOfDec(r.last, '/', s2);
    ReadNumberOfDec(total, '\r', s3);
    assert RangeLine(r, total) + (content + rest) == Dec(r.first) + ['-'] + s1;
    assert s3[3..] == content + rest;
  }

  /** The parts of a body whose parts start with `lead`; all but the first follow a CRLF. */
  function ReadParts(lead: string, closing: string, s: string, sep: string): Option<seq<Part>>
    decreases |s|
  {
    if s == closing then Some([]) else
    var body :- Expect(s, sep + lead);
    var (part, rest) :- ReadRange(body);
    if |rest| >= |s| then None else
    var more :- ReadParts(lead, closing, rest, "\r\n");
    Some([part] + more)
  }

  function PartsOf(rs: seq<Inclusive>, total: nat, file: string, k: nat): seq<Part>
    requires Fits(rs, file) && k <= |rs|
    decreases |rs| - k
  {
    if k == |rs| then [] else [Part(rs[k], total, Slice(file, rs[k]))] + PartsOf(rs, total, file, k + 1)
  }

  lemma {:induction false} PreambleAt(preamble: (nat, Inclusive) -> string, rs: seq<Inclusive>, k: nat)
    requires k < |rs|
    ensures Preambles(preamble, rs)[k] == preamble(k, rs[k])
  {
    if k == |rs| - 1 {
    } else {
      PreambleAt(preamble, rs[..|rs| - 1], k);
    }
  }

  /** A part is never mistaken for the closing line. */
  lemma NotClosing(c: Context, sep: string, rest: string)
    requires sep == "" || sep == "\r\n"
    ensures sep + Lead(c) + rest != Closing(c)
  {
    var s := sep + Lead(c) + rest;
    if sep == "" {
      assert s[0] == '-' && Closing(c)[0] == '\r';
    } else {
      assert s[4 + |c.boundary|] == '\r';
      assert |Closing(c)| > 4 + |c.boundary| ==> Closing(c)[4 + |c.boundary|] == '-';
    }
  }

  lemma ReadOnePart(lead: string, closing: string, sep: string, line: string, part: Part, rest: string)
    requires ReadRange(line + (part.content + rest)) == Some((part, rest)) && line != ""
    requires sep + lead + (line + (part.content + rest)) != closing
    requires ReadParts(lead, closing, rest, "\r\n").Some?
    ensures ReadParts(lead, closing, sep + (lead + line) + (part.content + rest), sep)
         == Some([part] + ReadParts(lead, closing, rest, "\r\n").value)
  {
    var after := line + (part.content + rest);
    var s := sep + (lead + line) + (part.content + rest);
    assert s == sep + lead + after;
    assert s[|sep + lead|..] == after;
  }

  lemma ReadPartAt(c: Context, k: nat, r: Inclusive, content: string, rest: string)
    requires r.first <= r.last + 1 && |content| == r.last + 1 - r.first
    requires ReadParts(Lead(c), Closing(c), rest, "\r\n").Some?
    ensures ReadParts(Lead(c), Closing(c), Preamble(c)(k, r) + (content + rest), if k == 0 then "" else "\r\n")
         == Some([Part(r, c.total, content)] + ReadParts(Lead(c), Closing(c), rest, "\r\n").value)
  {
    var sep, line := if k == 0 then "" else "\r\n", RangeLine(r, c.total);
    NotClosing(c, sep, line + (content + rest));
    ReadRangeBack(r, c.total, content, rest);
    ReadOnePart(Lead(c), Closing(c), sep, line, Part(r, c.total, content), rest);
  }

  function Sep(k: nat): string {
    if k == 0 then "" else "\r\n"
  }

  /** A reader that takes any one part, takes them all. */
  lemma {:induction false} ReadsFrom(lead: string, closing: string, preambles: seq<string>, rs: seq<Inclusive>, total: nat, file: string, k: nat)
    requires |preambles| == |rs| && Fits(rs, file) && k <= |rs|
    requires forall i, content, rest :: 0 <= i < |rs| ==> TakesPart(lead, closing, Sep(i), preambles[i], Part(rs[i], total, content), rest)
    ensures ReadParts(lead, closing, From(preambles, closing, rs, file, k), Sep(k)) == Some(PartsOf(rs, total, file, k))
    decreases |rs| - k
  {
    if k == |rs| {
    } else {
      ReadsFrom(lead, closing, preambles, rs, total, file, k + 1);
      assert TakesPart(lead, closing, Sep(k), preambles[k], Part(rs[k], total, Slice(file, rs[k])), From(preambles, closing, rs, file, k + 1));
    }
  }

  /** A part of the right length before a body that can be read is taken off its front. */
  ghost predicate TakesPart(lead: string, closing: string, sep: string, preamble: string, part: Part, rest: string) {
    var more := ReadParts(lead, closing, rest, "\r\n");
    more.Some? && |part.content| == part.range.last + 1 - part.range.first ==>
      ReadParts(lead, closing, preamble + (part.content + rest), sep) == Some([part] + more.value)
  }

  /** Reading the body back gives every range, with the file's bytes at those positions. */
  lemma ReadsBack(c: Context, rs: seq<Inclusive>, file: string)
    requires Fits(rs, file)
    ensures ReadParts(Lead(c), Closing(c), Body(c, rs, file), "") == Some(PartsOf(rs, c.total, file, 0))
  {
    var preambles := Preambles(Preamble(c), rs);
    forall i, content, rest | 0 <= i < |rs|
      ensures TakesPart(Lead(c), Closing(c), Sep(i), preambles[i], Part(rs[i], c.total, content), rest)
    {
      PreambleAt(Preamble(c), rs, i);
      if ReadParts(Lead(c), Closing(c), rest, "\r\n").Some? && |content| == rs[i].last + 1 - rs[i].first {
        ReadPartAt(c, i, rs[i], content, rest);
      }
    }
    ReadsFrom(Lead(c), Closing(c), preambles, rs, c.total, file, 0);
  }

  /** The ranges a header is answered with fit the file they were computed for. */
  lemma AnswerFits(raw: seq<Raw>, file: string)
    requires EndsWithin(raw, |file|)
    ensures Fits(Parts(Decide(raw, |file|)), file)
  {
    if raw != [] && StartsWithin(raw, |file|) && InOrder(raw) {
      var out := Normal(raw, |file|);
      assert Parts(Decide(raw, |file|)) == AsInclusive(out);
    }
  }
}
