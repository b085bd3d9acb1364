/** A form written out by a client and read back by the parser of `Multipart`. */
module MultipartForms {
  import opened Bytes
  import opened Multipart
  import opened Runs

  datatype Form = Form(name: string, filename: Option<string>, contentType: Option<string>, data: string)

  // ---- Parameters of a header value ----

  lemma FindChar(before: string, c: char, after: string)
    requires c !in before
    ensures Find(before + [c] + after, [c], 0) == Some(|before|)
  {
    var s := before + [c] + after;
    assert s[|before|..|before| + 1] == [c];
    forall j | 0 <= j < |before| ensures !At(s, [c], j) {
      if At(s, [c], j) {
        AtEnds(s, [c], j);
      }
    }
    FindIs(s, [c], 0, |before|);
  }

  /** `text` stands between quotes at `i`. */
  predicate QuotedAt(value: string, i: nat, text: string) {
    i + |text| + 2 <= |value| && value[i] == '"' && value[i + 1..i + 1 + |text|] == text && value[i + 1 + |text|] == '"'
  }

  lemma ParamAt(value: string, key: string, needle: string, at: nat, rest: string)
    requires needle == key + "=" && Find(Lower(value), needle, 0) == Some(at) && value[at + |needle|..] == rest
    ensures Param(value, key) == ValueAt(rest)
  {
  }

  lemma FirstQuoted(rest: string, text: string, more: string)
    requires rest == ['"'] + text + ['"'] + more && '"' !in text
    ensures ValueAt(rest) == Some(text)
  {
    assert rest[1..] == text + ['"'] + more;
    FindChar(text, '"', more);
    assert rest[1..][..|text|] == text;
  }

  /** A quoted parameter is read whole when its key does not turn up earlier. */
  lemma ParamQuoted(value: string, key: string, needle: string, i: nat, text: string)
    requires needle == key + "=" && '"' !in text
    requires At(Lower(value), needle, i) && QuotedAt(value, i + |needle|, text)
    requires forall j :: 0 <= j < i ==> !At(Lower(value), needle, j)
    ensures Param(value, key) == Some(text)
  {
    FindIs(Lower(value), needle, 0, i);
    var rest := value[i + |needle|..];
    assert rest[1..1 + |text|] == text;
    FirstQuoted(rest, text, rest[|text| + 2..]);
    ParamAt(value, key, needle, i, rest);
  }

  lemma ParamAbsent(value: string, key: string)
    requires forall j :: 0 <= j ==> !At(Lower(value), key + "=", j)
    ensures Param(value, key) == None
  {
    FindFirst(Lower(value), key + "=", 0);
  }

  // ---- The disposition line ----

  const NAME: string := "name="
  const FILENAME: string := "filename="
  const QUOTED_LEAD: string := "form-data; name=\""
  const FILE_LEAD: string := "\"; filename=\""

  function Disposition(name: string, filename: Option<string>): string {
    match filename
    case None => QUOTED_LEAD + name + "\""
    case Some(file) => QUOTED_LEAD + name + FILE_LEAD + file + "\""
  }

  /** Where the name itself hides `filename=`, in any case. */
  function Hidden(name: string): Option<nat> {
    Find(Lower(name), FILENAME, 0)
  }

  /** The file name that is read for a field: the one sent, unless the field's name hides the
  key. Then it is taken from what follows the key, up to a semicolon or a quote. */
  function FilenameSeen(name: string, filename: Option<string>): Option<string> {
    match Hidden(name)
    case None => filename
    case Some(j) => SeenAfter(name[j + |FILENAME|..], filename)
  }

  /** The same, by what follows the hidden key in the name. */
  function SeenAfter(tail: string, filename: Option<string>): Option<string> {
    if tail != "" then Some(Trim(BeforeSemicolon(tail + "\"")))
    else if filename.None? then None
    else Some("; filename=")
  }

  lemma LeadHasNoName(value: string, j: nat)
    requires QUOTED_LEAD <= value && j < 11
    ensures !At(Lower(value), NAME, j)
  {
    assert value[j] == QUOTED_LEAD[j];
    assert QUOTED_LEAD[j] != 'n' && QUOTED_LEAD[j] != 'N';
    if At(Lower(value), NAME, j) {
      AtEnds(Lower(value), NAME, j);
    }
  }

  lemma NameRead(value: string, name: string)
    requires '"' !in name && QUOTED_LEAD + name + "\"" <= value
    ensures Param(value, "name") == Some(name)
  {
    var n := |QUOTED_LEAD|;
    assert QUOTED_LEAD <= value && value[n - 1] == QUOTED_LEAD[n - 1];
    forall j | 0 <= j < 11 ensures !At(Lower(value), NAME, j) {
      LeadHasNoName(value, j);
    }
    assert Lower(value)[11..16] == NAME by {
      forall k | 0 <= k < 5 ensures Lower(value)[11 + k] == NAME[k] {
        assert value[11 + k] == QUOTED_LEAD[11 + k];
      }
    }
    assert value[n..n + |name|] == name && value[n + |name|] == '"';
    ParamQuoted(value, "name", NAME, 11, name);
  }

  lemma LeadHasNoFilename(value: string, j: nat)
    requires QUOTED_LEAD <= value && j < |QUOTED_LEAD|
    ensures !At(Lower(value), FILENAME, j)
  {
    assert value[j] == QUOTED_LEAD[j] && value[1] == 'o';
    assert j > 0 ==> QUOTED_LEAD[j] != 'f';
    if At(Lower(value), FILENAME, j) {
      AtIndex(Lower(value), FILENAME, j, 0);
      AtIndex(Lower(value), FILENAME, j, 1);
    }
  }

  /** An occurrence that ends within a slice of the text is one in that slice. */
  lemma WithinSlice(value: string, n: nat, name: string, needle: string, j: nat)
    requires n + |name| <= |value| && value[n..n + |name|] == name
    requires n <= j && j + |needle| <= n + |name|
    ensures At(Lower(value), needle, j) <==> At(Lower(name), needle, j - n)
  {
    assert forall k :: 0 <= k < |name| ==> name[k] == value[n + k];
    assert Lower(value)[j..j + |needle|] == Lower(name)[j - n..j - n + |needle|];
  }

  /** Before the end of the name, the key occurs in the header where it does in the name. */
  lemma NameOccurrence(value: string, name: string, j: nat)
    requires QUOTED_LEAD + name + "\"" <= value && j <= |QUOTED_LEAD| + |name|
    ensures At(Lower(value), FILENAME, j) <==>
      |QUOTED_LEAD| <= j && j + |FILENAME| <= |QUOTED_LEAD| + |name| && At(Lower(name), FILENAME, j - |QUOTED_LEAD|)
  {
    var n, q := |QUOTED_LEAD|, |QUOTED_LEAD| + |name|;
    assert QUOTED_LEAD <= value && value[q] == '"' && value[n..n + |name|] == name;
    if j < n {
      LeadHasNoFilename(value, j);
    } else if j + |FILENAME| <= q {
      WithinSlice(value, n, name, FILENAME, j);
    } else {
      NotAcross(value, FILENAME, j, q);
    }
  }

  lemma FilenameAbsent(name: string)
    requires Hidden(name).None?
    ensures Param(QUOTED_LEAD + name + "\"", "filename") == None
  {
    var value := QUOTED_LEAD + name + "\"";
    FindFirst(Lower(name), FILENAME, 0);
    forall j | 0 <= j ensures !At(Lower(value), FILENAME, j) {
      if j <= |QUOTED_LEAD| + |name| {
        NameOccurrence(value, name, j);
      }
    }
    assert FILENAME == "filename" + "=";
    ParamAbsent(value, "filename");
  }

  lemma NoFilenameBefore(value: string, name: string, j: nat)
    requires QUOTED_LEAD + name + "\"; " <= value && Hidden(name).None?
    requires j < |QUOTED_LEAD| + |name| + 3
    ensures !At(Lower(value), FILENAME, j)
  {
    var q := |QUOTED_LEAD| + |name|;
    if j <= q {
      FindFirst(Lower(name), FILENAME, 0);
      assert QUOTED_LEAD + name + "\"" <= value;
      NameOccurrence(value, name, j);
    } else {
      assert value[q + 1] == ';' && value[q + 2] == ' ';
      NotAcross(value, FILENAME, j, j);
    }
  }

  lemma FileParts(name: string, file: string)
    ensures var value, q := QUOTED_LEAD + name + FILE_LEAD + file + "\"", |QUOTED_LEAD| + |name|;
      QUOTED_LEAD + name + "\"; " <= value && At(value, FILENAME, q + 3) && QuotedAt(value, q + 12, file)
  {
    var value, q := QUOTED_LEAD + name + FILE_LEAD + file + "\"", |QUOTED_LEAD| + |name|;
    assert value[q..q + 13] == FILE_LEAD;
    assert FILE_LEAD[..3] == "\"; " && FILE_LEAD[3..12] == FILENAME && FILE_LEAD[12] == '"';
    assert value[q + 3..q + 12] == value[q..q + 13][3..12];
    assert value[q + 13..q + 13 + |file|] == file;
  }

  lemma FilenameRead(name: string, file: string)
    requires Hidden(name).None? && '"' !in file
    ensures Param(QUOTED_LEAD + name + FILE_LEAD + file + "\"", "filename") == Some(file)
  {
    var value, q := QUOTED_LEAD + name + FILE_LEAD + file + "\"", |QUOTED_LEAD| + |name|;
    FileParts(name, file);
    forall j | 0 <= j < q + 3 ensures !At(Lower(value), FILENAME, j) {
      NoFilenameBefore(value, name, j);
    }
    assert Lower(FILENAME) == FILENAME;
    AtLower(value, FILENAME, q + 3);
    ParamQuoted(value, "filename", FILENAME, q + 3, file);
  }

  lemma QuoteFollows(name: string, suffix: string)
    requires suffix != "" && suffix[0] == '"'
    ensures QUOTED_LEAD + name + "\"" <= QUOTED_LEAD + name + suffix
  {
    assert suffix == "\"" + suffix[1..];
    assert QUOTED_LEAD + name + suffix == QUOTED_LEAD + name + "\"" + suffix[1..];
  }

  /** A key hidden in the name is the first in the value. */
  lemma KeyFound(value: string, name: string, j: nat)
    requires QUOTED_LEAD + name + "\"" <= value && Hidden(name) == Some(j)
    ensures Find(Lower(value), FILENAME, 0) == Some(|QUOTED_LEAD| + j)
  {
    FindFirst(Lower(name), FILENAME, 0);
    forall i | 0 <= i < |QUOTED_LEAD| + j ensures !At(Lower(value), FILENAME, i) {
      NameOccurrence(value, name, i);
    }
    NameOccurrence(value, name, |QUOTED_LEAD| + j);
    FindIs(Lower(value), FILENAME, 0, |QUOTED_LEAD| + j);
  }

  lemma SliceAfter(lead: string, name: string, suffix: string, k: nat)
    requires k <= |name|
    ensures (lead + name + suffix)[|lead| + k..] == name[k..] + suffix
  {
  }

  /** A hidden key is found first, and the text after it is the rest of the name and on. */
  lemma HiddenFound(name: string, suffix: string, j: nat)
    requires Hidden(name) == Some(j) && suffix != "" && suffix[0] == '"'
    ensures var value := QUOTED_LEAD + name + suffix; var at := |QUOTED_LEAD| + j;
      && Find(Lower(value), FILENAME, 0) == Some(at)
      && value[at + |FILENAME|..] == name[j + |FILENAME|..] + suffix
  {
    QuoteFollows(name, suffix);
    KeyFound(QUOTED_LEAD + name + suffix, name, j);
    SliceAfter(QUOTED_LEAD, name, suffix, j + |FILENAME|);
  }

  lemma LoneQuote()
    ensures ValueAt("\"") == None
  {
    assert "\""[1..] == "";
  }

  lemma SemicolonFirst(s: string, t: string)
    requires Find(s, ";", 0).Some?
    ensures Find(s + t, ";", 0) == Find(s, ";", 0)
  {
    var k := Find(s, ";", 0).value;
    FindFirst(s, ";", 0);
    assert (s + t)[k..k + 1] == s[k..k + 1];
    forall i | 0 <= i < k ensures !At(s + t, ";", i) {
      assert (s + t)[i..i + 1] == s[i..i + 1] && !At(s, ";", i);
    }
    FindIs(s + t, ";", 0, k);
  }

  /** What is read up to the semicolon does not depend on whether a file name follows. */
  lemma SameBeforeSemicolon(tail: string, file: string)
    ensures BeforeSemicolon(tail + (FILE_LEAD + file + "\"")) == BeforeSemicolon(tail + "\"")
  {
    var quoted, rest := tail + "\"", FILE_LEAD + file + "\"";
    assert FILE_LEAD[0] == '"' && FILE_LEAD[1] == ';' && FILE_LEAD == "\"" + [';'] + FILE_LEAD[2..];
    assert tail + rest == quoted + ([';'] + (FILE_LEAD[2..] + file + "\""));
    if Find(quoted, ";", 0).Some? {
      SemicolonFirst(quoted, [';'] + (FILE_LEAD[2..] + file + "\""));
      var k := Find(quoted, ";", 0).value;
      assert (tail + rest)[..k] == quoted[..k];
    } else {
      FindFirst(quoted, ";", 0);
      assert ';' !in quoted by {
        forall i | 0 <= i < |quoted| ensures quoted[i] != ';' {
          assert quoted[i..i + 1] == [quoted[i]] && !At(quoted, ";", i);
        }
      }
      assert tail + rest == quoted + [';'] + (FILE_LEAD[2..] + file + "\"");
      FindChar(quoted, ';', FILE_LEAD[2..] + file + "\"");
      assert (tail + rest)[..|quoted|] == quoted;
    }
  }

  /** A name that ends with the key takes the text up to the quote of the file name for it. */
  lemma KeyAtEnd(file: string)
    ensures ValueAt(FILE_LEAD + file + "\"") == Some("; filename=")
  {
    var text := "; filename=";
    assert FILE_LEAD == ['"'] + text + ['"'];
    FirstQuoted(FILE_LEAD + file + "\"", text, file + "\"");
  }

  lemma Unquoted(tail: string, suffix: string)
    requires '"' !in tail && tail != ""
    ensures ValueAt(tail + suffix) == Some(Trim(BeforeSemicolon(tail + suffix)))
  {
    assert (tail + suffix)[0] == tail[0];
  }

  lemma SeenInPlain(tail: string)
    requires '"' !in tail
    ensures ValueAt(tail + "\"") == SeenAfter(tail, None)
  {
    if tail == "" {
      LoneQuote();
      assert tail + "\"" == "\"";
    } else {
      Unquoted(tail, "\"");
    }
  }

  lemma SeenBesideFile(tail: string, file: string)
    requires '"' !in tail
    ensures ValueAt(tail + (FILE_LEAD + file + "\"")) == SeenAfter(tail, Some(file))
  {
    if tail == "" {
      KeyAtEnd(file);
      assert tail + (FILE_LEAD + file + "\"") == FILE_LEAD + file + "\"";
    } else {
      Unquoted(tail, FILE_LEAD + file + "\"");
      SameBeforeSemicolon(tail, file);
    }
  }

  lemma HiddenValue(name: string, suffix: string, j: nat)
    requires Hidden(name) == Some(j) && suffix != "" && suffix[0] == '"'
    ensures Param(QUOTED_LEAD + name + suffix, "filename") == ValueAt(name[j + |FILENAME|..] + suffix)
  {
    HiddenFound(name, suffix, j);
    assert FILENAME == "filename" + "=";
    ParamAt(QUOTED_LEAD + name + suffix, "filename", FILENAME, |QUOTED_LEAD| + j, name[j + |FILENAME|..] + suffix);
  }

  lemma HiddenRead(name: string, filename: Option<string>, j: nat)
    requires '"' !in name && Hidden(name) == Some(j)
    ensures Param(Disposition(name, filename), "filename") == FilenameSeen(name, filename)
  {
    var tail := name[j + |FILENAME|..];
    match filename
    case None =>
      HiddenValue(name, "\"", j);
      SeenInPlain(tail);
    case Some(file) =>
      var suffix := FILE_LEAD + file + "\"";
      assert QUOTED_LEAD + name + suffix == Disposition(name, filename) && FILE_LEAD[0] == '"';
      HiddenValue(name, suffix, j);
      SeenBesideFile(tail, file);
  }

  /** With the name first, the name is read as sent; the file name, or its absence, exactly as
  `FilenameSeen` says. */
  lemma DispositionRead(name: string, filename: Option<string>)
    requires '"' !in name && (filename.Some? ==> '"' !in filename.value)
    ensures Param(Disposition(name, filename), "name") == Some(name)
    ensures Param(Disposition(name, filename), "filename") == FilenameSeen(name, filename)
  {
    assert FILE_LEAD[0] == '"';
    NameRead(Disposition(name, filename), name);
    if Hidden(name).Some? {
      HiddenRead(name, filename, Hidden(name).value);
    } else {
      match filename
      case None => FilenameAbsent(name);
      case Some(file) => FilenameRead(name, file);
    }
  }

  /** A plain field is taken for a plain field exactly when its name hides no `filename=`, or
  only as its very end. */
  lemma PlainFieldIff(name: string)
    requires '"' !in name
    ensures Param(Disposition(name, None), "filename") == None <==>
      match Hidden(name)
      case None => true
      case Some(j) => j + |FILENAME| == |name|
  {
    DispositionRead(name, None);
  }

  /** Any other name that starts with the key turns a plain field into a file. */
  lemma TakenForFile(tail: string)
    requires '"' !in tail && tail != ""
    ensures Param(Disposition(FILENAME + tail, None), "filename").Some?
  {
    var name := FILENAME + tail;
    assert Lower(name)[0..|FILENAME|] == FILENAME by {
      assert Lower(FILENAME) == FILENAME;
    }
    FindIs(Lower(name), FILENAME, 0, 0);
    assert name[|FILENAME|..] == tail;
    PlainFieldIff(name);
  }

  const FILE_FIRST: string := "form-data; filename=\""

  /** The parameters in the other order: the name is taken from the file name, because
  `name=` first occurs inside `filename=`. */
  lemma FilenameFirst(value: string, file: string)
    requires '"' !in file && FILE_FIRST + file + "\"" <= value
    ensures Param(value, "name") == Some(file)
  {
    var n := |FILE_FIRST|;
    assert forall k :: 0 <= k < n ==> value[k] == FILE_FIRST[k];
    forall j | 0 <= j < 15 ensures !At(Lower(value), NAME, j) {
      assert FILE_FIRST[j] != 'n' && FILE_FIRST[j] != 'N';
      if At(Lower(value), NAME, j) {
        AtEnds(Lower(value), NAME, j);
      }
    }
    assert Lower(value)[15..20] == NAME;
    assert value[n..n + |file|] == file && value[n + |file|] == '"';
    ParamQuoted(value, "name", NAME, 15, file);
  }

  const NAME_LEAD: string := "\"; name=\""

  /** So with the file name first, the field's name is read right exactly when the two agree. */
  lemma FilenameFirstIff(file: string, name: string)
    requires '"' !in file
    ensures Param(FILE_FIRST + file + NAME_LEAD + name + "\"", "name") == Some(name) <==> file == name
  {
    var value := FILE_FIRST + file + NAME_LEAD + name + "\"";
    assert NAME_LEAD == "\"" + NAME_LEAD[1..];
    assert value == FILE_FIRST + file + "\"" + (NAME_LEAD[1..] + name + "\"");
    FilenameFirst(value, file);
  }

  // ---- The header lines ----

  lemma LineRead(h: Head, name: string, value: string)
    requires ':' !in name && name != "" && Visible(name[0]) && Visible(name[|name| - 1])
    requires Utf8(name + ": " + value)
    ensures AddLine(h, name + ": " + value) == AddHeader(h, name, Trim(value))
  {
    var line := name + ": " + value;
    assert line == name + [':'] + (" " + value);
    FindChar(name, ':', " " + value);
    assert line[..|name|] == name && line[|name| + 1..] == " " + value;
    TrimVisible(name);
    TrimSpace(value);
  }

  const DISPOSITION: string := "Content-Disposition"
  const TYPE: string := "Content-Type"

  function DispositionLine(f: Form): string {
    DISPOSITION + ": " + Disposition(f.name, f.filename)
  }

  function TypeLine(contentType: string): string {
    TYPE + ": " + contentType
  }

  /** No CRLF inside. */
  ghost predicate Unbroken(s: string) {
    forall j :: 0 <= j ==> !Breaks(s, j)
  }

  /** What a client observes: texts in UTF-8 without CRLF, names without quotes, and a field name
  that does not bring about another file name. */
  ghost predicate WellFormed(f: Form) {
    && '"' !in f.name && Unbroken(f.name) && Utf8(f.name) && FilenameSeen(f.name, f.filename) == f.filename
    && (f.filename.Some? ==> '"' !in f.filename.value && Unbroken(f.filename.value) && Utf8(f.filename.value))
    && (f.contentType.Some? ==> Unbroken(f.contentType.value) && Utf8(f.contentType.value))
  }

  function HeadOf(f: Form): Head {
    var d := (DISPOSITION, Disposition(f.name, f.filename));
    match f.contentType
    case None => Head(f.name, f.filename, None, [d])
    case Some(t) => Head(f.name, f.filename, Some(Trim(t)), [d, (TYPE, Trim(t))])
  }

  lemma QuotedUtf8(lead: string, name: string, mid: string, file: string, end: string)
    requires Utf8(name) && Utf8(file) && Ascii(lead) && Ascii(mid) && Ascii(end)
    ensures Utf8(lead + name + end) && Utf8(lead + name + mid + file + end)
  {
    AsciiIsUtf8(lead);
    AsciiIsUtf8(mid);
    AsciiIsUtf8(end);
    Utf8Concat3(lead, name, end);
    Utf8Concat3(lead, name, mid);
    Utf8Concat3(lead + name + mid, file, end);
  }

  lemma DispositionUtf8(name: string, filename: Option<string>)
    requires Utf8(name) && (filename.Some? ==> Utf8(filename.value))
    ensures Utf8(Disposition(name, filename))
  {
    QuotedUtf8(QUOTED_LEAD, name, FILE_LEAD, if filename.Some? then filename.value else "", "\"");
  }

  lemma DispositionTrimmed(name: string, filename: Option<string>)
    ensures Trim(Disposition(name, filename)) == Disposition(name, filename)
  {
    var d := Disposition(name, filename);
    assert d[0] == 'f' && d[|d| - 1] == '"';
    TrimVisible(d);
  }

  lemma LowerType()
    ensures Lower(TYPE) == "content-type"
  {
  }

  lemma LowerDisposition()
    ensures Lower(DISPOSITION) == "content-disposition"
  {
  }

  predicate IsKey(key: string) {
    ':' !in key && key != "" && Visible(key[0]) && Visible(key[|key| - 1]) && Ascii(key + ": ")
  }

  lemma BothAreKeys()
    ensures IsKey(DISPOSITION) && IsKey(TYPE)
  {
  }

  lemma AsciiLineRead(h: Head, key: string, value: string)
    requires IsKey(key) && Utf8(value)
    ensures AddLine(h, key + ": " + value) == AddHeader(h, key, Trim(value))
  {
    QuotedUtf8(key + ": ", value, "", "", "");
    assert key + ": " + value + "" == key + ": " + value;
    LineRead(h, key, value);
  }

  lemma DispositionAdded(h: Head, key: string, d: string, name: string, filename: Option<string>)
    requires Lower(key) == "content-disposition" && Param(d, "name") == Some(name) && Param(d, "filename") == filename
    ensures AddHeader(h, key, d) == Head(name, filename, h.contentType, h.headers + [(key, d)])
  {
  }

  lemma DispositionLineRead(h: Head, name: string, filename: Option<string>)
    requires '"' !in name && Utf8(name) && FilenameSeen(name, filename) == filename
    requires filename.Some? ==> '"' !in filename.value && Utf8(filename.value)
    ensures AddLine(h, DISPOSITION + ": " + Disposition(name, filename))
         == Head(name, filename, h.contentType, h.headers + [(DISPOSITION, Disposition(name, filename))])
  {
    DispositionUtf8(name, filename);
    BothAreKeys();
    AsciiLineRead(h, DISPOSITION, Disposition(name, filename));
    DispositionTrimmed(name, filename);
    DispositionRead(name, filename);
    LowerDisposition();
    DispositionAdded(h, DISPOSITION, Disposition(name, filename), name, filename);
  }

  lemma TypeLineRead(h: Head, contentType: string)
    requires Utf8(contentType)
    ensures AddLine(h, TypeLine(contentType)) == h.(contentType := Some(Trim(contentType)), headers := h.headers + [(TYPE, Trim(contentType))])
  {
    BothAreKeys();
    AsciiLineRead(h, TYPE, contentType);
    LowerType();
  }

  function HeaderLines(f: Form): seq<string> {
    match f.contentType
    case None => [DispositionLine(f)]
    case Some(t) => [DispositionLine(f), TypeLine(t)]
  }

  function Block(f: Form): string {
    match f.contentType
    case None => DispositionLine(f)
    case Some(t) => DispositionLine(f) + CRLF + TypeLine(t)
  }

  lemma ReadTwo(a: string, b: string)
    ensures ReadLines([a]) == AddLine(Head("", None, None, []), a)
    ensures ReadLines([a, b]) == AddLine(ReadLines([a]), b)
  {
    assert [a][..0] == [] && [a, b][..1] == [a];
  }

  lemma HeadersRead(f: Form)
    requires WellFormed(f)
    ensures ReadLines(HeaderLines(f)) == HeadOf(f)
  {
    var first, d := DispositionLine(f), (DISPOSITION, Disposition(f.name, f.filename));
    DispositionLineRead(Head("", None, None, []), f.name, f.filename);
    assert [] + [d] == [d];
    match f.contentType {
      case None =>
        ReadTwo(first, "");
      case Some(t) =>
        ReadTwo(first, TypeLine(t));
        TypeLineRead(Head(f.name, f.filename, None, [d]), t);
    }
  }

  // ---- The header block ----

  lemma OneLine(line: string)
    requires Unbroken(line) && line != ""
    ensures Lines(line, 0) == [line]
  {
    NoneLeft(line, 0);
    assert line[0..] == line;
  }

  /** The only break between two unbroken lines is the one that joins them. */
  lemma OneBreak(first: string, second: string, j: nat)
    requires Unbroken(first) && Unbroken(second)
    ensures Breaks(first + CRLF + second, j) <==> j == |first|
  {
    var block, n := first + CRLF + second, |first|;
    assert block[n] == '\r' && block[n + 1] == '\n';
    if j + 1 < n {
      assert block[j] == first[j] && block[j + 1] == first[j + 1] && !Breaks(first, j);
    } else if n + 2 <= j && j + 1 < |block| {
      assert block[j] == second[j - n - 2] && block[j + 1] == second[j - n - 1] && !Breaks(second, j - n - 2);
    }
  }

  lemma TwoLines(first: string, second: string)
    requires Unbroken(first) && Unbroken(second) && second != ""
    ensures Lines(first + CRLF + second, 0) == [first, second]
  {
    var block, n := first + CRLF + second, |first|;
    forall j | 0 <= j ensures Breaks(block, j) <==> j == n {
      OneBreak(first, second, j);
    }
    NextLine(block, 0, n);
    NoneLeft(block, n + 2);
    assert block[0..n] == first && block[n + 2..] == second;
  }

  /** No line break is followed by a carriage return. */
  ghost predicate NoBlankLine(block: string) {
    forall j {:trigger NoCrAfter(block, j)} :: 0 <= j < |block| ==> NoCrAfter(block, j)
  }

  predicate NoCrAfter(block: string, j: nat)
    requires j < |block|
  {
    Breaks(block, j) ==> j + 2 < |block| && block[j + 2] != '\r'
  }

  lemma OneLineNoBlank(line: string)
    requires Unbroken(line)
    ensures NoBlankLine(line)
  {
  }

  lemma TwoLinesNoBlank(first: string, second: string)
    requires Unbroken(first) && Unbroken(second) && second != "" && second[0] != '\r'
    ensures NoBlankLine(first + CRLF + second)
  {
    var block := first + CRLF + second;
    forall j | 0 <= j < |block| ensures NoCrAfter(block, j) {
      OneBreak(first, second, j);
    }
  }

  lemma HeaderEnd(body: string, p: nat, block: string)
    requires NoBlankLine(block) && p + |block| + 4 <= |body|
    requires body[p..p + |block|] == block && At(body, BLANK_LINE, p + |block|)
    ensures Find(body, BLANK_LINE, p) == Some(p + |block|)
  {
    AtIndex(body, BLANK_LINE, p + |block|, 0);
    forall j | p <= j < p + |block| ensures !At(body, BLANK_LINE, j) {
      assert body[j] == block[j - p] && NoCrAfter(block, j - p);
      assert j - p + 1 < |block| ==> body[j + 1] == block[j - p + 1];
      assert j - p + 2 < |block| ==> body[j + 2] == block[j - p + 2];
      if At(body, BLANK_LINE, j) {
        AtIndex(body, BLANK_LINE, j, 0);
        AtIndex(body, BLANK_LINE, j, 1);
        AtIndex(body, BLANK_LINE, j, 2);
      }
    }
    FindIs(body, BLANK_LINE, p, p + |block|);
  }

  lemma UnbrokenConcat(a: string, b: string)
    requires Unbroken(a) && Unbroken(b) && (a != "" && a[|a| - 1] == '\r' ==> b == "" || b[0] != '\n')
    ensures Unbroken(a + b)
  {
    forall j | 0 <= j ensures !Breaks(a + b, j) {
      if j + 1 < |a| {
        assert !Breaks(a, j);
      } else if |a| <= j {
        assert !Breaks(b, j - |a|);
      }
    }
  }

  lemma QuotedUnbroken(lead: string, name: string, mid: string, file: string, end: string)
    requires Unbroken(name) && Unbroken(file) && '\r' !in lead && '\r' !in mid && '\r' !in end
    requires mid != "" && mid[0] != '\n' && end != "" && end[0] != '\n'
    ensures Unbroken(lead + name + end) && Unbroken(lead + name + mid + file + end)
  {
    UnbrokenConcat(lead, name);
    UnbrokenConcat(lead + name, end);
    UnbrokenConcat(lead + name, mid);
    UnbrokenConcat(lead + name + mid, file);
    UnbrokenConcat(lead + name + mid + file, end);
  }

  lemma LinesUnbroken(f: Form)
    requires WellFormed(f)
    ensures Unbroken(DispositionLine(f))
    ensures f.contentType.Some? ==> Unbroken(TypeLine(f.contentType.value))
  {
    QuotedUnbroken(QUOTED_LEAD, f.name, FILE_LEAD, if f.filename.Some? then f.filename.value else "", "\"");
    UnbrokenConcat(DISPOSITION + ": ", Disposition(f.name, f.filename));
    if f.contentType.Some? {
      UnbrokenConcat(TYPE + ": ", f.contentType.value);
    }
  }

  lemma BlockRead(f: Form)
    requires WellFormed(f)
    ensures NoBlankLine(Block(f)) && Lines(Block(f), 0) == HeaderLines(f)
  {
    LinesUnbroken(f);
    match f.contentType {
      case None =>
        OneLine(DispositionLine(f));
        OneLineNoBlank(DispositionLine(f));
      case Some(t) =>
        TwoLines(DispositionLine(f), TypeLine(t));
        TwoLinesNoBlank(DispositionLine(f), TypeLine(t));
    }
  }

  lemma OpenAt(read: Reader, body: string, after: nat, block: string)
    requires NoBlankLine(block) && after + 6 + |block| <= |body|
    requires body[after..after + 2] == CRLF && body[after + 2..after + 2 + |block|] == block
    requires At(body, BLANK_LINE, after + 2 + |block|)
    ensures Open(read, body, after) == Part(read(block), after + |block| + 6)
  {
    assert body[after] == body[after..after + 2][0] == '\r';
    HeaderEnd(body, after + 2, block);
  }

  lemma OpenRead(read: Reader, body: string, after: nat, block: string, rest: string)
    requires NoBlankLine(block) && after <= |body| && body[after..] == CRLF + (block + (BLANK_LINE + rest))
    ensures Open(read, body, after) == Part(read(block), after + |block| + 6)
    ensures body[after + |block| + 6..] == rest
  {
    Peel(body, after, CRLF, block + (BLANK_LINE + rest));
    Peel(body, after + 2, block, BLANK_LINE + rest);
    Peel(body, after + 2 + |block|, BLANK_LINE, rest);
    OpenAt(read, body, after, block);
  }

  /** The delimiter first occurs right after the data, not within or across its end. */
  ghost predicate DataFree(data: string, dashed: string) {
    forall j :: 0 <= j < |data| ==> !At(data + (CRLF + dashed), CRLF + dashed, j)
  }

  /** A boundary without carriage returns cannot straddle: it is enough that the data does
  not contain the delimiter. */
  lemma NotInData(data: string, dashed: string)
    requires '\r' !in dashed && forall j :: 0 <= j ==> !At(data, CRLF + dashed, j)
    ensures DataFree(data, dashed)
  {
    var t := CRLF + dashed;
    var all := data + t;
    forall j | 0 <= j < |data| ensures !At(all, t, j) {
      if j + |t| <= |data| {
        assert all[j..j + |t|] == data[j..j + |t|];
        assert !At(data, t, j);
      } else {
        var k := |data| - j;
        assert all[|data|] == '\r' && t[k] != '\r';
        if At(all, t, j) {
          AtIndex(all, t, j, k);
        }
      }
    }
  }

  lemma DataRead(body: string, start: nat, data: string, t: string, rest: string)
    requires t != "" && start <= |body| && body[start..] == data + (t + rest)
    requires forall j :: 0 <= j < |data| ==> !At(data + t, t, j)
    ensures Find(body, t, start) == Some(start + |data|)
    ensures body[start..start + |data|] == data
  {
    Peel(body, start, data, t + rest);
    Peel(body, start + |data|, t, rest);
    assert data + (t + rest) == (data + t) + rest;
    Peel(body, start, data + t, rest);
    forall j | start <= j < start + |data| ensures !At(body, t, j) {
      AtInside(body, start, data + t, t, j - start);
    }
    FindIs(body, t, start, start + |data|);
  }

  // ---- The whole body ----

  /** A part as sent: its header block, and the field it is to be read as. */
  datatype Wire = Wire(block: string, field: Field)

  function PartText(w: Wire, rest: string): string {
    CRLF + (w.block + (BLANK_LINE + (w.field.data + (CRLF + rest))))
  }

  /** The body from the boundary of part `k` on. */
  function WireFrom(wires: seq<Wire>, dashed: string, k: nat): string
    requires k <= |wires|
    decreases |wires| - k
  {
    if k == |wires| then dashed + ("--" + CRLF) else dashed + PartText(wires[k], WireFrom(wires, dashed, k + 1))
  }

  ghost predicate PartReads(read: Reader, w: Wire, dashed: string) {
    NoBlankLine(w.block) && read(w.block) == w.field.head && DataFree(w.field.data, dashed)
  }

  ghost predicate Reads(read: Reader, wires: seq<Wire>, dashed: string) {
    forall k :: 0 <= k < |wires| ==> PartReads(read, wires[k], dashed)
  }

  lemma DataStep(body: string, start: nat, data: string, dashed: string, more: string)
    requires start <= |body| && body[start..] == data + (CRLF + (dashed + more)) && DataFree(data, dashed)
    ensures Find(body, CRLF + dashed, start) == Some(start + |data|)
    ensures body[start..start + |data|] == data
    ensures body[start + |data| + 2..] == dashed + more
  {
    assert CRLF + (dashed + more) == (CRLF + dashed) + more;
    DataRead(body, start, data, CRLF + dashed, more);
    Peel(body, start, data, CRLF + (dashed + more));
    Peel(body, start + |data|, CRLF, dashed + more);
  }

  /** One turn that comes upon `f`, whose data ends at `end`. */
  function Turned(acc: Acc, f: Field, end: nat): Turn {
    if f.head.filename.Some? && Count(acc, f.head).files > MAX_FILES then Stop(Err(TooManyFiles))
    else if f.head.filename.None? && Count(acc, f.head).plain > MAX_FIELDS then Stop(Err(TooManyFields))
    else Next(end + 2, Store(Count(acc, f.head), f))
  }

  lemma TurnFrom(read: Reader, body: string, dashed: string, pos: nat, acc: Acc, start: nat, f: Field, end: nat)
    requires Open(read, body, pos + |dashed|) == Part(f.head, start)
    requires Find(body, CRLF + dashed, start) == Some(end) && body[start..end] == f.data
    ensures TakeTurn(read, body, dashed, pos, acc) == Turned(acc, f, end)
  {
  }

  lemma PartFound(read: Reader, body: string, after: nat, dashed: string, block: string, data: string, more: string, start: nat, end: nat)
    requires after <= |body| && start == after + |block| + 6 && end == start + |data|
    requires NoBlankLine(block) && DataFree(data, dashed)
    requires body[after..] == CRLF + (block + (BLANK_LINE + (data + (CRLF + (dashed + more)))))
    ensures Open(read, body, after) == Part(read(block), start)
    ensures Find(body, CRLF + dashed, start) == Some(end) && body[start..end] == data
    ensures end + 2 <= |body| && body[end + 2..] == dashed + more
  {
    OpenRead(read, body, after, block, data + (CRLF + (dashed + more)));
    DataStep(body, start, data, dashed, more);
  }

  lemma TurnTaken(read: Reader, body: string, dashed: string, pos: nat, acc: Acc, block: string, data: string, more: string, end: nat)
    requires pos + |dashed| <= |body| && end == pos + |dashed| + |block| + 6 + |data|
    requires NoBlankLine(block) && DataFree(data, dashed)
    requires body[pos + |dashed|..] == CRLF + (block + (BLANK_LINE + (data + (CRLF + (dashed + more)))))
    ensures end + 2 <= |body| && body[end + 2..] == dashed + more
    ensures TakeTurn(read, body, dashed, pos, acc) == Turned(acc, Field(read(block), data), end)
  {
    var start := pos + |dashed| + |block| + 6;
    PartFound(read, body, pos + |dashed|, dashed, block, data, more, start, end);
    TurnFrom(read, body, dashed, pos, acc, start, Field(read(block), data), end);
  }

  /** What a list of parts amounts to, one after the other. */
  function Collect(fields: seq<Field>, k: nat, acc: Acc): Result
    requires k <= |fields|
    decreases |fields| - k
  {
    if k == |fields| then Ok(acc.fields) else
    match Turned(acc, fields[k], 0)
    case Stop(result) => result
    case Next(_, more) => Collect(fields, k + 1, more)
  }

  function FieldsOf(wires: seq<Wire>): seq<Field> {
    seq(|wires|, i requires 0 <= i < |wires| => wires[i].field)
  }

  lemma StartsDashed(wires: seq<Wire>, dashed: string, k: nat) returns (more: string)
    requires k <= |wires|
    ensures WireFrom(wires, dashed, k) == dashed + more
    ensures k < |wires| ==> more == PartText(wires[k], WireFrom(wires, dashed, k + 1))
  {
    more := if k == |wires| then "--" + CRLF else PartText(wires[k], WireFrom(wires, dashed, k + 1));
  }

  lemma EndTaken(read: Reader, body: string, dashed: string, pos: nat, acc: Acc)
    requires pos <= |body| && body[pos..] == dashed + ("--" + CRLF)
    ensures TakeTurn(read, body, dashed, pos, acc) == Stop(Ok(acc.fields))
  {
    var n := |dashed|;
    assert body[pos + n..pos + n + 2] == body[pos..][n..n + 2] == "--";
  }

  lemma WireTaken(read: Reader, wires: seq<Wire>, dashed: string, body: string, k: nat, pos: nat, acc: Acc) returns (end: nat)
    requires Reads(read, wires, dashed) && k < |wires|
    requires pos + |dashed| <= |body| && body[pos..] == WireFrom(wires, dashed, k)
    ensures TakeTurn(read, body, dashed, pos, acc) == Turned(acc, wires[k].field, end)
    ensures pos < end + 2 && end + 2 + |dashed| <= |body| && body[end + 2..] == WireFrom(wires, dashed, k + 1)
  {
    var w := wires[k];
    assert PartReads(read, w, dashed);
    var more := StartsDashed(wires, dashed, k);
    var next := StartsDashed(wires, dashed, k + 1);
    assert body[pos + |dashed|..] == body[pos..][|dashed|..] == more;
    end := pos + |dashed| + |w.block| + 6 + |w.field.data|;
    TurnTaken(read, body, dashed, pos, acc, w.block, w.field.data, next, end);
  }

  lemma {:induction false} ReadsFrom(read: Reader, wires: seq<Wire>, dashed: string, body: string, k: nat, pos: nat, acc: Acc)
    requires Reads(read, wires, dashed) && k <= |wires|
    requires pos + |dashed| <= |body| && body[pos..] == WireFrom(wires, dashed, k)
    ensures ParseFrom(read, body, dashed, pos, acc) == Collect(FieldsOf(wires), k, acc)
    decreases |wires| - k
  {
    if k == |wires| {
      EndTaken(read, body, dashed, pos, acc);
    } else {
      var end := WireTaken(read, wires, dashed, body, k, pos, acc);
      match Turned(acc, wires[k].field, end)
      case Stop(_) =>
      case Next(next, more) => ReadsFrom(read, wires, dashed, body, k + 1, next, more);
    }
  }

  // ---- Forms ----

  function FieldOf(f: Form): Field {
    Field(HeadOf(f), f.data)
  }

  function WiresOf(forms: seq<Form>): seq<Wire> {
    seq(|forms|, i requires 0 <= i < |forms| => Wire(Block(forms[i]), FieldOf(forms[i])))
  }

  /** The body a client sends for a list of forms. */
  function Encode(forms: seq<Form>, boundary: string): string {
    WireFrom(WiresOf(forms), "--" + boundary, 0)
  }

  /** What the client has to observe. */
  ghost predicate Sendable(f: Form, boundary: string) {
    WellFormed(f) && DataFree(f.data, "--" + boundary)
  }

  lemma FormReads(f: Form, boundary: string)
    requires Sendable(f, boundary)
    ensures PartReads(ReadBlock, Wire(Block(f), FieldOf(f)), "--" + boundary)
  {
    BlockRead(f);
    HeadersRead(f);
  }

  /** Reading what a client sent gives its forms, or says which kind there was too much of. */
  lemma RoundTrip(forms: seq<Form>, boundary: string)
    requires forall k :: 0 <= k < |forms| ==> Sendable(forms[k], boundary)
    ensures Parse(Encode(forms, boundary), boundary) == Collect(FieldsOf(WiresOf(forms)), 0, Acc(map[], 0, 0))
  {
    var wires, dashed, body := WiresOf(forms), "--" + boundary, Encode(forms, boundary);
    forall k | 0 <= k < |wires| ensures PartReads(ReadBlock, wires[k], dashed) {
      FormReads(forms[k], boundary);
    }
    var more := StartsDashed(wires, dashed, 0);
    assert body[0..|dashed|] == dashed;
    FindIs(body, dashed, 0, 0);
    assert body[0..] == body;
    ReadsFrom(ReadBlock, wires, dashed, body, 0, 0, Acc(map[], 0, 0));
  }

  // ---- Grouping and the caps ----

  lemma {:induction false} FilesGrow(fields: seq<Field>, k: nat)
    requires k <= |fields|
    ensures 0 <= FilesIn(fields) - FilesIn(fields[..k]) <= |fields| - k
    decreases |fields|
  {
    if k == |fields| {
      assert fields[..k] == fields;
    } else {
      var front := fields[..|fields| - 1];
      FilesGrow(front, k);
      assert front[..k] == fields[..k];
    }
  }

  lemma CapsOfPrefix(fields: seq<Field>, k: nat)
    requires k <= |fields| && WithinCaps(fields)
    ensures WithinCaps(fields[..k])
  {
    FilesGrow(fields, k);
  }

  lemma TurnedIff(acc: Acc, f: Field)
    requires acc.files <= MAX_FILES && acc.plain <= MAX_FIELDS
    ensures Turned(acc, f, 0) ==
      if Admits(acc, f.head) then Next(2, Store(Count(acc, f.head), f))
      else Stop(Err(if f.head.filename.Some? then TooManyFiles else TooManyFields))
  {
  }

  /** Success exactly within the caps, with every field filed under its name; otherwise the
  error of a cap. */
  ghost predicate Collects(fields: seq<Field>, r: Result) {
    && (r.Ok? <==> WithinCaps(fields))
    && (r.Ok? ==> Grouped(r.fields, fields))
    && (r.Err? ==> r.error == TooManyFiles || r.error == TooManyFields)
  }

  lemma CapReached(fields: seq<Field>, k: nat, acc: Acc)
    requires k < |fields| && Tallied(acc, fields[..k]) && WithinCaps(fields[..k]) && !Admits(acc, fields[k].head)
    ensures Collects(fields, Collect(fields, k, acc))
  {
    assert fields[..k + 1] == fields[..k] + [fields[k]];
    TurnedIff(acc, fields[k]);
    AdmitsIff(acc, fields[..k], fields[k]);
    if WithinCaps(fields) {
      CapsOfPrefix(fields, k + 1);
    }
  }

  lemma FieldCollected(fields: seq<Field>, k: nat, acc: Acc) returns (more: Acc)
    requires k < |fields| && Tallied(acc, fields[..k]) && WithinCaps(fields[..k]) && Admits(acc, fields[k].head)
    ensures Tallied(more, fields[..k + 1]) && WithinCaps(fields[..k + 1])
    ensures Collect(fields, k, acc) == Collect(fields, k + 1, more)
  {
    var f := fields[k];
    assert fields[..k + 1] == fields[..k] + [f];
    more := Store(Count(acc, f.head), f);
    TurnedIff(acc, f);
    AdmitsIff(acc, fields[..k], f);
    StoreTallied(acc, fields[..k], f);
  }

  lemma {:induction false} CollectTallied(fields: seq<Field>, k: nat, acc: Acc)
    requires k <= |fields| && Tallied(acc, fields[..k]) && WithinCaps(fields[..k])
    ensures Collects(fields, Collect(fields, k, acc))
    decreases |fields| - k
  {
    if k == |fields| {
      assert fields[..k] == fields;
    } else if Admits(acc, fields[k].head) {
      var more := FieldCollected(fields, k, acc);
      CollectTallied(fields, k + 1, more);
    } else {
      CapReached(fields, k, acc);
    }
  }

  /** The parser succeeds on a client's body exactly when neither cap is exceeded, and then
  lists under every name the forms that carry it, in order, data byte for byte. */
  lemma FormsReadBack(forms: seq<Form>, boundary: string)
    requires forall k :: 0 <= k < |forms| ==> Sendable(forms[k], boundary)
    ensures Collects(FieldsOf(WiresOf(forms)), Parse(Encode(forms, boundary), boundary))
  {
    RoundTrip(forms, boundary);
    CollectTallied(FieldsOf(WiresOf(forms)), 0, Acc(map[], 0, 0));
  }
}
