/** The in-memory `multipart/form-data` parser (`parse_multipart_sync`, src/multipart.rs). */
module Multipart {
  import opened Bytes
  import opened Runs

  const MAX_FIELDS: nat := 1000
  const MAX_FILES: nat := 1000
  const CRLF: string := "\r\n"
  const BLANK_LINE: string := "\r\n\r\n"

  datatype Error = NoBoundary | Truncated | NoCrlf | NoHeaderEnd | TooManyFiles | TooManyFields | NoClosing

  /** What the header lines of a part say. */
  datatype Head = Head(name: string, filename: Option<string>, contentType: Option<string>, headers: seq<(string, string)>)

  datatype Field = Field(head: Head, data: string)

  datatype Result = Ok(fields: map<string, seq<Field>>) | Err(error: Error)

  // ---- Header lines ----

  /** The lines from `start` on, between CRLFs; an empty last line is dropped. */
  function Lines(block: string, start: nat): seq<string>
    requires start <= |block|
    decreases |block| - start
  {
    match Find(block, CRLF, start)
    case None => if start < |block| then [block[start..]] else []
    case Some(k) => [block[start..k]] + Lines(block, k + 2)
  }

  predicate Breaks(block: string, i: nat) {
    i + 1 < |block| && block[i] == '\r' && block[i + 1] == '\n'
  }

  lemma BreakIsCrlf(block: string, i: nat)
    ensures At(block, CRLF, i) <==> Breaks(block, i)
  {
    if i + 1 < |block| {
      assert block[i..i + 2] == [block[i], block[i + 1]];
    }
  }

  lemma NextLine(block: string, start: nat, i: nat)
    requires start <= i && Breaks(block, i) && forall j :: start <= j < i ==> !Breaks(block, j)
    ensures Lines(block, start) == [block[start..i]] + Lines(block, i + 2)
  {
    forall j | start <= j <= i ensures At(block, CRLF, j) <==> Breaks(block, j) {
      BreakIsCrlf(block, j);
    }
    FindIs(block, CRLF, start, i);
  }

  lemma NoneLeft(block: string, start: nat)
    requires start <= |block| && forall j :: start <= j ==> !Breaks(block, j)
    ensures Lines(block, start) == if start < |block| then [block[start..]] else []
  {
    FindFirst(block, CRLF, start);
    var r := Find(block, CRLF, start);
    if r.Some? {
      BreakIsCrlf(block, r.value);
    }
  }

  /** What the loop below has established when it stands at `i`. */
  ghost predicate SplitUpTo(block: string, start: nat, i: nat, lines: seq<string>) {
    && start <= i <= |block| && lines + Lines(block, start) == Lines(block, 0)
    && forall j :: start <= j < i ==> !Breaks(block, j)
  }

  lemma TakeLine(block: string, start: nat, i: nat, lines: seq<string>)
    requires SplitUpTo(block, start, i, lines) && Breaks(block, i)
    ensures SplitUpTo(block, i + 2, i + 2, lines + [block[start..i]])
  {
    NextLine(block, start, i);
    assert lines + ([block[start..i]] + Lines(block, i + 2)) == lines + [block[start..i]] + Lines(block, i + 2);
  }

  /** `split_crlf`. */
  method SplitCrlf(block: string) returns (lines: seq<string>)
    ensures lines == Lines(block, 0)
  {
    var start, i := 0, 0;
    lines := [];
    while i + 1 < |block|
      invariant SplitUpTo(block, start, i, lines)
    {
      if block[i] == '\r' && block[i + 1] == '\n' {
        TakeLine(block, start, i, lines);
        lines := lines + [block[start..i]];
        start := i + 2;
        i := i + 2;
      } else {
        i := i + 1;
      }
    }
    NoneLeft(block, start);
    if start < |block| {
      lines := lines + [block[start..]];
    }
  }

  function BeforeSemicolon(s: string): string {
    match Find(s, ";", 0)
    case None => s
    case Some(k) => s[..k]
  }

  /** The value that starts `rest`: quoted, or up to a semicolon. */
  function ValueAt(rest: string): Option<string> {
    if rest != "" && rest[0] == '"' then
      match Find(rest[1..], "\"", 0)
      case None => None
      case Some(end) => Some(rest[1..][..end])
    else Some(Trim(BeforeSemicolon(rest)))
  }

  /** `extract_quoted_param`: the value after the first `key=`. */
  function Param(value: string, key: string): Option<string> {
    match Find(Lower(value), key + "=", 0)
    case None => None
    case Some(idx) => ValueAt(value[idx + |key| + 1..])
  }

  /** One header line taken into account; a line that is not UTF-8 counts as empty. */
  function AddLine(h: Head, line: string): Head {
    match Find(if Utf8(line) then line else "", ":", 0)
    case None => h
    case Some(colon) => AddHeader(h, Trim(line[..colon]), Trim(line[colon + 1..]))
  }

  function AddHeader(h: Head, name: string, value: string): Head {
    var more := h.headers + [(name, value)];
    if Lower(name) == "content-disposition" then
      var n := Param(value, "name");
      h.(name := if n.Some? then n.value else "", filename := Param(value, "filename"), headers := more)
    else if Lower(name) == "content-type" then h.(contentType := Some(value), headers := more)
    else h.(headers := more)
  }

  function ReadLines(lines: seq<string>): Head {
    if lines == [] then Head("", None, None, []) else AddLine(ReadLines(lines[..|lines| - 1]), lines[|lines| - 1])
  }

  function ReadBlock(block: string): Head {
    ReadLines(Lines(block, 0))
  }

  /** How a header block is read. The parser below does not depend on it. */
  type Reader = string -> Head

  // ---- One part ----

  function SkipBlanks(body: string, p: nat): (q: nat)
    requires p <= |body|
    ensures p <= q <= |body|
    decreases |body| - p
  {
    if p < |body| && (body[p] == ' ' || body[p] == '\t') then SkipBlanks(body, p + 1) else p
  }

  /** What stands at a boundary. */
  datatype Opening = Last | Broken(error: Error) | Part(head: Head, start: nat)

  function Open(read: Reader, body: string, after: nat): (o: Opening)
    ensures o.Part? ==> after < o.start <= |body|
  {
    if after + 2 > |body| then Broken(Truncated)
    else if body[after..after + 2] == "--" then Last
    else
      var p := SkipBlanks(body, after);
      if p + 2 > |body| || body[p..p + 2] != CRLF then Broken(NoCrlf) else
      match Find(body, BLANK_LINE, p + 2)
      case None => Broken(NoHeaderEnd)
      case Some(end) => Part(read(body[p + 2..end]), end + 4)
  }

  // ---- The whole body ----

  /** Fields so far, and how many of either kind have been seen. */
  datatype Acc = Acc(fields: map<string, seq<Field>>, plain: nat, files: nat)

  function Count(acc: Acc, h: Head): Acc {
    if h.filename.Some? then acc.(files := acc.files + 1) else acc.(plain := acc.plain + 1)
  }

  function Store(acc: Acc, f: Field): Acc {
    var before := if f.head.name in acc.fields then acc.fields[f.head.name] else [];
    acc.(fields := acc.fields[f.head.name := before + [f]])
  }

  /** One turn at the boundary at `pos`: the answer, or where the next boundary stands. */
  datatype Turn = Stop(result: Result) | Next(pos: nat, acc: Acc)

  function TakePart(body: string, dashed: string, acc: Acc, head: Head, start: nat): (t: Turn)
    ensures t.Next? ==> start < t.pos && t.pos + |dashed| <= |body|
  {
    var counted := Count(acc, head);
    if head.filename.Some? && counted.files > MAX_FILES then Stop(Err(TooManyFiles))
    else if head.filename.None? && counted.plain > MAX_FIELDS then Stop(Err(TooManyFields))
    else
      match Find(body, CRLF + dashed, start)
      case None => Stop(Err(NoClosing))
      case Some(end) => Next(end + 2, Store(counted, Field(head, body[start..end])))
  }

  function TakeTurn(read: Reader, body: string, dashed: string, pos: nat, acc: Acc): (t: Turn)
    ensures t.Next? ==> pos < t.pos && t.pos + |dashed| <= |body|
  {
    match Open(read, body, pos + |dashed|)
    case Last => Stop(Ok(acc.fields))
    case Broken(e) => Stop(Err(e))
    case Part(head, start) => TakePart(body, dashed, acc, head, start)
  }

  /** Every turn that goes on has found the next boundary. */
  lemma BoundaryKept(read: Reader, body: string, dashed: string, pos: nat, acc: Acc)
    ensures var t := TakeTurn(read, body, dashed, pos, acc); t.Next? ==> At(body, dashed, t.pos)
  {
    var t := TakeTurn(read, body, dashed, pos, acc);
    if t.Next? {
      FindFirst(body, CRLF + dashed, Open(read, body, pos + |dashed|).start);
      AtTail(body, CRLF, dashed, t.pos - 2);
    }
  }

  function ParseFrom(read: Reader, body: string, dashed: string, pos: nat, acc: Acc): Result
    requires pos + |dashed| <= |body|
    decreases |body| - pos
  {
    match TakeTurn(read, body, dashed, pos, acc)
    case Stop(result) => result
    case Next(next, more) => ParseFrom(read, body, dashed, next, more)
  }

  function Parse(body: string, boundary: string): Result {
    match Find(body, "--" + boundary, 0)
    case None => Err(NoBoundary)
    case Some(pos) => ParseFrom(ReadBlock, body, "--" + boundary, pos, Acc(map[], 0, 0))
  }

  method ReadHeaders(block: string) returns (head: Head)
    ensures head == ReadBlock(block)
  {
    var lines := SplitCrlf(block);
    head := Head("", None, None, []);
    for k := 0 to |lines|
      invariant head == ReadLines(lines[..k])
    {
      assert lines[..k + 1][..k] == lines[..k];
      head := AddLine(head, lines[k]);
    }
    assert lines[..|lines|] == lines;
  }

  method OpenPart(body: string, after: nat) returns (o: Opening)
    ensures o == Open(ReadBlock, body, after)
  {
    if after + 2 > |body| {
      return Broken(Truncated);
    }
    if body[after..after + 2] == "--" {
      return Last;
    }
    var p := after;
    while p < |body| && (body[p] == ' ' || body[p] == '\t')
      invariant after <= p <= |body|
      invariant SkipBlanks(body, p) == SkipBlanks(body, after)
    {
      p := p + 1;
    }
    if p + 2 > |body| || body[p..p + 2] != CRLF {
      return Broken(NoCrlf);
    }
    p := p + 2;
    var end := Find(body, BLANK_LINE, p);
    if end.None? {
      return Broken(NoHeaderEnd);
    }
    var head := ReadHeaders(body[p..end.value]);
    return Part(head, end.value + 4);
  }

  method FinishPart(body: string, dashed: string, acc: Acc, head: Head, start: nat) returns (t: Turn)
    ensures t == TakePart(body, dashed, acc, head, start)
  {
    var counted := acc;
    if head.filename.Some? {
      counted := counted.(files := counted.files + 1);
      if counted.files > MAX_FILES {
        return Stop(Err(TooManyFiles));
      }
    } else {
      counted := counted.(plain := counted.plain + 1);
      if counted.plain > MAX_FIELDS {
        return Stop(Err(TooManyFields));
      }
    }
    var end := Find(body, CRLF + dashed, start);
    if end.None? {
      return Stop(Err(NoClosing));
    }
    return Next(end.value + 2, Store(counted, Field(head, body[start..end.value])));
  }

  method ReadPart(body: string, dashed: string, pos: nat, acc: Acc) returns (t: Turn)
    ensures t == TakeTurn(ReadBlock, body, dashed, pos, acc)
  {
    var o := OpenPart(body, pos + |dashed|);
    match o {
      case Last => t := Stop(Ok(acc.fields));
      case Broken(e) => t := Stop(Err(e));
      case Part(head, start) => t := FinishPart(body, dashed, acc, head, start);
    }
  }

  /** `parse_multipart_sync`. */
  method ParseMultipart(body: string, boundary: string) returns (r: Result)
    ensures r == Parse(body, boundary)
  {
    var dashed := "--" + boundary;
    var first := Find(body, dashed, 0);
    if first.None? {
      return Err(NoBoundary);
    }
    FindFirst(body, dashed, 0);
    var pos, acc := first.value, Acc(map[], 0, 0);
    while true
      invariant At(body, dashed, pos)
      invariant ParseFrom(ReadBlock, body, dashed, pos, acc) == Parse(body, boundary)
      decreases |body| - pos
    {
      var turn := ReadPart(body, dashed, pos, acc);
      BoundaryKept(ReadBlock, body, dashed, pos, acc);
      match turn {
        case Stop(result) => return result;
        case Next(next, more) => pos, acc := next, more;
      }
    }
  }

  // ---- What any parsed body amounts to ----

  function FilesIn(fields: seq<Field>): nat {
    if fields == [] then 0 else
    FilesIn(fields[..|fields| - 1]) + if fields[|fields| - 1].head.filename.Some? then 1 else 0
  }

  /** The fields that carry `name`, in order. */
  function Named(fields: seq<Field>, name: string): seq<Field> {
    if fields == [] then [] else
    Named(fields[..|fields| - 1], name) + if fields[|fields| - 1].head.name == name then [fields[|fields| - 1]] else []
  }

  /** The map lists under every name the fields that carry it, in order. */
  ghost predicate Grouped(listed: map<string, seq<Field>>, fields: seq<Field>) {
    forall name :: (if name in listed then listed[name] else []) == Named(fields, name)
  }

  predicate WithinCaps(fields: seq<Field>) {
    FilesIn(fields) <= MAX_FILES && |fields| - FilesIn(fields) <= MAX_FIELDS
  }

  ghost predicate Tallied(acc: Acc, fields: seq<Field>) {
    acc.files == FilesIn(fields) && acc.plain == |fields| - FilesIn(fields) && Grouped(acc.fields, fields)
  }

  lemma StoreTallied(acc: Acc, fields: seq<Field>, f: Field)
    requires Tallied(acc, fields)
    ensures Tallied(Store(Count(acc, f.head), f), fields + [f])
  {
    var after := Store(Count(acc, f.head), f);
    assert (fields + [f])[..|fields|] == fields;
    forall name ensures (if name in after.fields then after.fields[name] else []) == Named(fields + [f], name) {
      assert (if name in acc.fields then acc.fields[name] else []) == Named(fields, name);
    }
  }

  /** The field's data is a piece of the body that ends at a delimiter and has none before. */
  ghost predicate Cut(body: string, dashed: string, f: Field, start: nat, end: nat) {
    && start <= end <= |body| && f.data == body[start..end] && At(body, CRLF + dashed, end)
    && forall j :: start <= j < end ==> !At(body, CRLF + dashed, j)
  }

  ghost predicate IsCut(body: string, dashed: string, f: Field) {
    exists start, end :: Cut(body, dashed, f, start, end)
  }

  predicate Admits(acc: Acc, h: Head) {
    if h.filename.Some? then acc.files < MAX_FILES else acc.plain < MAX_FIELDS
  }

  lemma AdmitsIff(acc: Acc, fields: seq<Field>, f: Field)
    requires Tallied(acc, fields) && WithinCaps(fields)
    ensures Admits(acc, f.head) <==> WithinCaps(fields + [f])
  {
    assert (fields + [f])[..|fields|] == fields;
  }

  lemma PartTakes(body: string, dashed: string, acc: Acc, f: Field, start: nat, end: nat)
    requires TakePart(body, dashed, acc, f.head, start).Next? && end == TakePart(body, dashed, acc, f.head, start).pos - 2
    requires f.data == body[start..end]
    ensures Admits(acc, f.head) && TakePart(body, dashed, acc, f.head, start).acc == Store(Count(acc, f.head), f)
    ensures Cut(body, dashed, f, start, end)
  {
    FindFirst(body, CRLF + dashed, start);
  }

  /** A part that is taken is one more field: its data runs from `start` to the first
  delimiter, it is filed last under its name, and the caps still hold. */
  lemma PartFiled(body: string, dashed: string, acc: Acc, head: Head, start: nat, fields: seq<Field>) returns (f: Field)
    requires TakePart(body, dashed, acc, head, start).Next? && Tallied(acc, fields) && WithinCaps(fields)
    ensures var t := TakePart(body, dashed, acc, head, start);
      && f.head == head && f.data == body[start..t.pos - 2] && IsCut(body, dashed, f)
      && Tallied(t.acc, fields + [f]) && WithinCaps(fields + [f])
  {
    var end := TakePart(body, dashed, acc, head, start).pos - 2;
    f := Field(head, body[start..end]);
    PartTakes(body, dashed, acc, f, start, end);
    AdmitsIff(acc, fields, f);
    StoreTallied(acc, fields, f);
  }

  /** `all` begins with `fields`, and the others are pieces of the body. */
  ghost predicate CutFrom(body: string, dashed: string, fields: seq<Field>, all: seq<Field>) {
    fields <= all && forall i :: |fields| <= i < |all| ==> IsCut(body, dashed, all[i])
  }

  lemma CutBefore(body: string, dashed: string, fields: seq<Field>, f: Field, all: seq<Field>)
    requires IsCut(body, dashed, f) && CutFrom(body, dashed, fields + [f], all)
    ensures CutFrom(body, dashed, fields, all)
  {
    assert all[|fields|] == f;
  }

  lemma {:induction false} ParsesTallied(read: Reader, body: string, dashed: string, pos: nat, acc: Acc, fields: seq<Field>)
      returns (all: seq<Field>)
    requires pos + |dashed| <= |body| && Tallied(acc, fields) && WithinCaps(fields)
    ensures CutFrom(body, dashed, fields, all)
    ensures var r := ParseFrom(read, body, dashed, pos, acc); r.Ok? ==> Grouped(r.fields, all) && WithinCaps(all)
    decreases |body| - pos
  {
    var o, t := Open(read, body, pos + |dashed|), TakeTurn(read, body, dashed, pos, acc);
    match t
    case Stop(_) => all := fields;
    case Next(next, more) =>
      var f := PartFiled(body, dashed, acc, o.head, o.start, fields);
      all := ParsesTallied(read, body, dashed, next, more, fields + [f]);
      CutBefore(body, dashed, fields, f, all);
  }

  /** Whatever the body: if it parses, the result is a list of pieces of it, each ending at a
  delimiter, filed under their names in order, at most 1000 files and 1000 other fields. */
  lemma AnyBody(body: string, boundary: string) returns (all: seq<Field>)
    ensures CutFrom(body, "--" + boundary, [], all)
    ensures Parse(body, boundary).Ok? ==> Grouped(Parse(body, boundary).fields, all) && WithinCaps(all)
  {
    var first := Find(body, "--" + boundary, 0);
    if first.None? {
      all := [];
    } else {
      all := ParsesTallied(ReadBlock, body, "--" + boundary, first.value, Acc(map[], 0, 0), []);
    }
  }
}
