/** The direct Python-to-JSON writer (`write_any_json` and its helpers, src/responses.rs):
every buffer it leaves behind is JSON text for the value it was given. */
module JsonWriter {
  import opened Decimal
  import opened Json
  import opened Runs

  /** A Python value; a set carries its items in iteration order, and a dictionary key that is
  not a string carries what `str` makes of it. */
  datatype Py =
    | PyNone
    | PyBool(b: bool)
    | PyInt(n: int)
    | PyStr(s: string)
    | PyList(items: seq<Py>)
    | PyTuple(items: seq<Py>)
    | PySet(items: seq<Py>)
    | PyDict(entries: seq<(Key, Py)>)

  datatype Key = StrKey(s: string) | OtherKey(shown: string) {
    function Shown(): string {
      match this
      case StrKey(s) => s
      case OtherKey(shown) => shown
    }
  }

  /** The JSON value a Python value stands for. */
  function Meaning(v: Py): Value
    decreases v
  {
    match v
    case PyNone => Null
    case PyBool(b) => Bool(b)
    case PyInt(n) => Number(n)
    case PyStr(s) => Text(s)
    case PyList(items) => Array(ItemMeanings(items, 0))
    case PyTuple(items) => Array(ItemMeanings(items, 0))
    case PySet(items) => Array(ItemMeanings(items, 0))
    case PyDict(entries) => Object(EntryMeanings(entries, 0))
  }

  function ItemMeanings(items: seq<Py>, i: nat): seq<Value>
    requires i <= |items|
    decreases items, |items| - i
  {
    if i == |items| then [] else [Meaning(items[i])] + ItemMeanings(items, i + 1)
  }

  function EntryMeanings(entries: seq<(Key, Py)>, i: nat): seq<(string, Value)>
    requires i <= |entries|
    decreases entries, |entries| - i
  {
    if i == |entries| then [] else
    assert entries decreases to entries[i];
    [(entries[i].0.Shown(), Meaning(entries[i].1))] + EntryMeanings(entries, i + 1)
  }

  // ---- The text written ----

  function EscapeChar(c: char): string {
    if c == '"' then "\\\""
    else if c == '\\' then "\\\\"
    else if c == '\n' then "\\n"
    else if c == '\r' then "\\r"
    else if c == '\t' then "\\t"
    else if c < ' ' then "\\u00" + [HexDigit(c as int / 16), HexDigit(c as int % 16)]
    else [c]
  }

  /** The escaped form of `s` from position `i` on. */
  function Escape(s: string, i: nat): string
    requires i <= |s|
    decreases |s| - i
  {
    if i == |s| then "" else EscapeChar(s[i]) + Escape(s, i + 1)
  }

  function IntText(n: int): string {
    if n < 0 then "-" + Dec(-n) else Dec(n)
  }

  function Quoted(s: string): string {
    "\"" + (Escape(s, 0) + "\"")
  }

  function Printed(v: Py): string
    decreases v
  {
    match v
    case PyNone => "null"
    case PyBool(b) => if b then "true" else "false"
    case PyInt(n) => IntText(n)
    case PyStr(s) => Quoted(s)
    case PyList(items) => "[" + ItemsText(items, 0)
    case PyTuple(items) => "[" + ItemsText(items, 0)
    case PySet(items) => "[" + ItemsText(items, 0)
    case PyDict(entries) => "{" + EntriesText(entries, 0)
  }

  /** Items from `i` on, up to and with the closing bracket. */
  function ItemsText(items: seq<Py>, i: nat): string
    requires i <= |items|
    decreases items, |items| - i
  {
    if i == |items| then "]" else (if i > 0 then "," else "") + (Printed(items[i]) + ItemsText(items, i + 1))
  }

  function EntriesText(entries: seq<(Key, Py)>, i: nat): string
    requires i <= |entries|
    decreases entries, |entries| - i
  {
    if i == |entries| then "}" else
    assert entries decreases to entries[i];
    (if i > 0 then "," else "") +
    (Quoted(entries[i].0.Shown()) + (":" + (Printed(entries[i].1) + EntriesText(entries, i + 1))))
  }

  // ---- The writer ----

  class Buffer {
    var text: string

    constructor ()
      ensures text == ""
    {
      text := "";
    }

    method Push(s: string)
      modifies this
      ensures text == old(text) + s
    {
      text := text + s;
    }
  }

  lemma Assoc(a: string, b: string, c: string)
    ensures (a + b) + c == a + (b + c)
  {
  }

  /** `json_escape_to`. */
  method EscapeTo(s: string, buf: Buffer)
    modifies buf
    ensures buf.text == old(buf.text) + Escape(s, 0)
  {
    ghost var before := buf.text;
    for i := 0 to |s|
      invariant buf.text + Escape(s, i) == before + Escape(s, 0)
    {
      ghost var now := buf.text;
      var c := s[i];
      if c == '"' {
        buf.Push("\\\"");
      } else if c == '\\' {
        buf.Push("\\\\");
      } else if c == '\n' {
        buf.Push("\\n");
      } else if c == '\r' {
        buf.Push("\\r");
      } else if c == '\t' {
        buf.Push("\\t");
      } else if c < ' ' {
        buf.Push("\\u00" + [HexDigit(c as int / 16), HexDigit(c as int % 16)]);
      } else {
        buf.Push([c]);
      }
      Assoc(now, EscapeChar(c), Escape(s, i + 1));
    }
    assert buf.text + "" == buf.text;
  }

  method WriteString(s: string, buf: Buffer)
    modifies buf
    ensures buf.text == old(buf.text) + Quoted(s)
  {
    buf.Push("\"");
    EscapeTo(s, buf);
    buf.Push("\"");
  }

  /** `write_list_json`, and the loops for tuples and sets. */
  method WriteItems(items: seq<Py>, buf: Buffer)
    modifies buf
    ensures buf.text == old(buf.text) + ("[" + ItemsText(items, 0))
    decreases items
  {
    ghost var before := buf.text;
    buf.Push("[");
    Assoc(before, "[", ItemsText(items, 0));
    for i := 0 to |items|
      invariant buf.text + ItemsText(items, i) == before + ("[" + ItemsText(items, 0))
    {
      ghost var now := buf.text;
      var sep := if i > 0 then "," else "";
      buf.Push(sep);
      WriteAny(items[i], buf);
      Assoc3(now, sep, Printed(items[i]), ItemsText(items, i + 1));
    }
    buf.Push("]");
  }

  /** `write_dict_json`. */
  method WriteDict(entries: seq<(Key, Py)>, buf: Buffer)
    modifies buf
    ensures buf.text == old(buf.text) + ("{" + EntriesText(entries, 0))
    decreases entries
  {
    ghost var before := buf.text;
    buf.Push("{");
    Assoc(before, "{", EntriesText(entries, 0));
    for i := 0 to |entries|
      invariant buf.text + EntriesText(entries, i) == before + ("{" + EntriesText(entries, 0))
    {
      ghost var now := buf.text;
      var sep := if i > 0 then "," else "";
      buf.Push(sep);
      WriteString(entries[i].0.Shown(), buf);
      buf.Push(":");
      assert entries decreases to entries[i];
      WriteAny(entries[i].1, buf);
      Regroup(now, sep, Quoted(entries[i].0.Shown()), ":", Printed(entries[i].1), EntriesText(entries, i + 1));
    }
    buf.Push("}");
  }

  lemma Regroup(now: string, a: string, b: string, c: string, d: string, e: string)
    ensures now + (a + (b + (c + (d + e)))) == now + a + b + c + d + e
  {
  }

  /** `write_any_json`. */
  method WriteAny(v: Py, buf: Buffer)
    modifies buf
    ensures buf.text == old(buf.text) + Printed(v)
    decreases v
  {
    match v {
      case PyNone => buf.Push("null");
      case PyBool(b) => buf.Push(if b then "true" else "false");
      case PyInt(n) => buf.Push(IntText(n));
      case PyStr(s) => WriteString(s, buf);
      case PyDict(entries) => WriteDict(entries, buf);
      case PyList(items) => WriteItems(items, buf);
      case PyTuple(items) => WriteItems(items, buf);
      case PySet(items) => WriteItems(items, buf);
    }
  }

  // ---- Reading the text back ----

  lemma ControlBack(c: char, tail: string)
    requires c < ' '
    ensures ReadEscape("u00" + [HexDigit(c as int / 16), HexDigit(c as int % 16)] + tail) == Some((c, tail))
  {
    var hex := "00" + [HexDigit(c as int / 16), HexDigit(c as int % 16)];
    var s := "u00" + [HexDigit(c as int / 16), HexDigit(c as int % 16)] + tail;
    assert s[1..5] == hex && s[5..] == tail;
    assert ReadHex(hex) == Some(c as int);
  }

  lemma CharBack(c: char, tail: string)
    requires ReadString(tail).Some?
    ensures ReadString(EscapeChar(c) + tail) == Some(([c] + ReadString(tail).value.0, ReadString(tail).value.1))
  {
    var e := EscapeChar(c);
    var s := e + tail;
    if |e| == 1 {
      assert s[1..] == tail;
    } else {
      if |e| == 2 {
        assert s[1..][1..] == tail;
      } else {
        ControlBack(c, tail);
        assert s[1..] == "u00" + [HexDigit(c as int / 16), HexDigit(c as int % 16)] + tail;
      }
      assert ReadEscape(s[1..]) == Some((c, tail));
    }
  }

  /** A reader that takes an escaped character off the front of what it can read. */
  ghost predicate TakesChar(read: string -> Option<(string, string)>, c: char, tail: string) {
    read(tail).Some? ==> read(EscapeChar(c) + tail) == Some(([c] + read(tail).value.0, read(tail).value.1))
  }

  lemma {:induction false} EscapeChain(read: string -> Option<(string, string)>, s: string, i: nat, end: string, rest: string)
    requires i <= |s| && read(end) == Some(("", rest)) && forall c, tail :: TakesChar(read, c, tail)
    ensures read(Escape(s, i) + end) == Some((s[i..], rest))
    decreases |s| - i
  {
    if i == |s| {
      assert "" + end == end;
    } else {
      EscapeChain(read, s, i + 1, end, rest);
      assert TakesChar(read, s[i], Escape(s, i + 1) + end);
      Assoc(EscapeChar(s[i]), Escape(s, i + 1), end);
      assert s[i..] == [s[i]] + s[i + 1..];
    }
  }

  lemma EscapeBack(s: string, rest: string)
    ensures ReadString(Escape(s, 0) + ("\"" + rest)) == Some((s, rest))
  {
    forall c, tail ensures TakesChar(ReadString, c, tail) {
      if ReadString(tail).Some? {
        CharBack(c, tail);
      }
    }
    var end := "\"" + rest;
    assert end[1..] == rest && s[0..] == s;
    EscapeChain(ReadString, s, 0, end, rest);
  }

  lemma QuotedTail(e: string, rest: string)
    ensures var q := "\"" + (e + "\"") + rest; q[0] == '"' && q[1..] == e + ("\"" + rest)
  {
  }

  lemma QuotedBack(s: string, rest: string)
    ensures (Quoted(s) + rest)[0] == '"'
    ensures ReadString((Quoted(s) + rest)[1..]) == Some((s, rest))
  {
    EscapeBack(s, rest);
    QuotedTail(Escape(s, 0), rest);
  }

  /** The text after a number must not prolong it. */
  predicate Ends(rest: string) {
    rest == "" || !('0' <= rest[0] <= '9' || rest[0] in ".eE")
  }

  lemma {:induction false} CountBack(digits: string, rest: string)
    requires AllDigits(digits) && Ends(rest)
    ensures DigitCount(digits + rest) == |digits|
  {
    if digits == "" {
      assert digits + rest == rest;
    } else {
      CountBack(digits[1..], rest);
      assert (digits + rest)[1..] == digits[1..] + rest;
    }
  }

  lemma DigitsBack(n: nat, rest: string)
    requires Ends(rest)
    ensures ReadDigits(Dec(n) + rest) == Some((n, rest))
  {
    var s := Dec(n) + rest;
    CountBack(Dec(n), rest);
    ReadDecOfDec(n);
    assert s[..|Dec(n)|] == Dec(n) && s[|Dec(n)|..] == rest;
  }

  lemma SignedBack(digits: string, n: nat, rest: string)
    requires ReadDigits(digits) == Some((n, rest)) && digits != "" && digits[0] != '-'
    ensures ReadNumber(digits) == Some((Number(n), rest))
    ensures ReadNumber("-" + digits) == Some((Number(0 - n), rest))
  {
    assert ("-" + digits)[1..] == digits;
  }

  lemma NumberBack(n: int, rest: string)
    requires Ends(rest)
    ensures ReadNumber(IntText(n) + rest) == Some((Number(n), rest))
  {
    var m := if n < 0 then -n else n;
    DigitsBack(m, rest);
    assert '0' <= Dec(m)[0] <= '9';
    SignedBack(Dec(m) + rest, m, rest);
    Assoc("-", Dec(m), rest);
  }

  lemma {:induction false} NumberIsValue(s: string)
    requires s != "" && (s[0] == '-' || '0' <= s[0] <= '9')
    ensures ReadValue(s) == ReadNumber(s)
  {
    assert Skip(s) == s;
  }

  lemma IntStart(n: int)
    ensures IntText(n) != "" && (IntText(n)[0] == '-' || '0' <= IntText(n)[0] <= '9')
  {
    assert n >= 0 ==> '0' <= Dec(n)[0] <= '9';
  }

  lemma IntBack(n: int, text: string, rest: string)
    requires Ends(rest) && text == IntText(n)
    ensures ReadValue(text + rest) == Some((Number(n), rest))
  {
    NumberBack(n, rest);
    IntStart(n);
    NumberIsValue(text + rest);
  }

  lemma FirstChar(v: Py)
    ensures Printed(v) != "" && !IsBlank(Printed(v)[0]) && Printed(v)[0] !in "],}:"
  {
    if v.PyInt? {
      assert v.n >= 0 ==> '0' <= Dec(v.n)[0] <= '9';
    }
  }

  lemma ItemsStart(items: seq<Py>, i: nat, rest: string)
    requires 0 < i <= |items|
    ensures Ends(ItemsText(items, i) + rest)
  {
  }

  lemma EntriesStart(entries: seq<(Key, Py)>, i: nat, rest: string)
    requires 0 < i <= |entries|
    ensures Ends(EntriesText(entries, i) + rest)
  {
  }

  lemma ItemBack(first: bool, printed: string, v: Value, more: string, vs: seq<Value>, rest: string)
    requires printed != "" && !IsBlank(printed[0]) && printed[0] !in "],}:"
    requires ReadValue(printed + more) == Some((v, more))
    requires ReadItems(more, false) == Some((vs, rest))
    ensures ReadItems((if first then "" else ",") + (printed + more), first) == Some(([v] + vs, rest))
  {
    var s := (if first then "" else ",") + (printed + more);
    assert s[if first then 0 else 1..] == printed + more;
    assert first ==> s == printed + more;
  }

  lemma Assoc3(a: string, b: string, c: string, d: string)
    ensures a + (b + c) + d == a + (b + (c + d)) && a + b + c + d == a + (b + (c + d))
  {
  }

  lemma ItemsEnd(rest: string, first: bool)
    ensures ReadItems("]" + rest, first) == Some(([], rest))
  {
    assert ("]" + rest)[1..] == rest;
  }

  lemma EntriesEnd(rest: string, first: bool)
    ensures ReadMembers("}" + rest, first) == Some(([], rest))
  {
    assert ("}" + rest)[1..] == rest;
  }

  lemma ItemsStep(items: seq<Py>, i: nat, first: bool, more: string, rest: string)
    requires i < |items| && (first <==> i == 0) && more == ItemsText(items, i + 1) + rest
    requires ReadValue(Printed(items[i]) + more) == Some((Meaning(items[i]), more))
    requires ReadItems(more, false) == Some((ItemMeanings(items, i + 1), rest))
    ensures ReadItems(ItemsText(items, i) + rest, first) == Some((ItemMeanings(items, i), rest))
  {
    FirstChar(items[i]);
    ItemBack(first, Printed(items[i]), Meaning(items[i]), more, ItemMeanings(items, i + 1), rest);
    Assoc3(if first then "" else ",", Printed(items[i]), ItemsText(items, i + 1), rest);
  }

  /** The items from `i` on are read back by `read`. */
  ghost predicate ItemsRead(read: (string, bool) -> Option<(seq<Value>, string)>, items: seq<Py>, i: nat, first: bool, rest: string)
    requires i <= |items|
  {
    read(ItemsText(items, i) + rest, first) == Some((ItemMeanings(items, i), rest))
  }

  ghost predicate ItemsLink(read: (string, bool) -> Option<(seq<Value>, string)>, items: seq<Py>, i: nat, first: bool, rest: string)
    requires i <= |items|
  {
    (i < |items| ==> ItemsRead(read, items, i + 1, false, rest)) ==> ItemsRead(read, items, i, first, rest)
  }

  lemma {:induction false} ItemsChain(read: (string, bool) -> Option<(seq<Value>, string)>, items: seq<Py>, i: nat, first: bool, rest: string)
    requires i <= |items| && (first <==> i == 0)
    requires forall k, f :: 0 <= k <= |items| && (f <==> k == 0) ==> ItemsLink(read, items, k, f, rest)
    ensures ItemsRead(read, items, i, first, rest)
    decreases |items| - i
  {
    if i == |items| {
    } else {
      ItemsChain(read, items, i + 1, false, rest);
    }
    assert ItemsLink(read, items, i, first, rest);
  }

  lemma {:induction false} ItemsLinked(items: seq<Py>, i: nat, first: bool, rest: string)
    requires i <= |items| && (first <==> i == 0)
    ensures ItemsLink(ReadItems, items, i, first, rest)
    decreases items, 0
  {
    if i == |items| {
      ItemsEnd(rest, first);
    } else if ItemsRead(ReadItems, items, i + 1, false, rest) {
      var more := ItemsText(items, i + 1) + rest;
      ItemsStart(items, i + 1, rest);
      ReadsBack(items[i], more);
      ItemsStep(items, i, first, more, rest);
    }
  }

  lemma {:induction false} ItemsBack(items: seq<Py>, rest: string)
    ensures ItemsRead(ReadItems, items, 0, true, rest)
    decreases items, 1
  {
    forall k, f | 0 <= k <= |items| && (f <==> k == 0) ensures ItemsLink(ReadItems, items, k, f, rest) {
      ItemsLinked(items, k, f, rest);
    }
    ItemsChain(ReadItems, items, 0, true, rest);
  }

  lemma EntryBack(first: bool, key: string, printed: string, v: Value, more: string, ms: seq<(string, Value)>, rest: string)
    requires ReadValue(printed + more) == Some((v, more))
    requires ReadMembers(more, false) == Some((ms, rest))
    ensures ReadMembers((if first then "" else ",") + (Quoted(key) + (":" + (printed + more))), first) == Some(([(key, v)] + ms, rest))
  {
    var colon := ":" + (printed + more);
    var m := Quoted(key) + colon;
    QuotedBack(key, colon);
    assert colon[1..] == printed + more;
    if first {
      assert "" + m == m;
    } else {
      assert ("," + m)[1..] == m;
    }
  }

  lemma EntriesStep(entries: seq<(Key, Py)>, i: nat, first: bool, more: string, rest: string)
    requires i < |entries| && (first <==> i == 0) && more == EntriesText(entries, i + 1) + rest
    requires ReadValue(Printed(entries[i].1) + more) == Some((Meaning(entries[i].1), more))
    requires ReadMembers(more, false) == Some((EntryMeanings(entries, i + 1), rest))
    ensures ReadMembers(EntriesText(entries, i) + rest, first) == Some((EntryMeanings(entries, i), rest))
  {
    var sep, key := if first then "" else ",", entries[i].0.Shown();
    EntryBack(first, key, Printed(entries[i].1), Meaning(entries[i].1), more, EntryMeanings(entries, i + 1), rest);
    Reassoc(sep, Quoted(key), ":", Printed(entries[i].1), EntriesText(entries, i + 1), rest);
  }

  /** The entries from `i` on are read back by `read`. */
  ghost predicate EntriesRead(read: (string, bool) -> Option<(seq<(string, Value)>, string)>, entries: seq<(Key, Py)>, i: nat, first: bool, rest: string)
    requires i <= |entries|
  {
    read(EntriesText(entries, i) + rest, first) == Some((EntryMeanings(entries, i), rest))
  }

  ghost predicate EntriesLink(read: (string, bool) -> Option<(seq<(string, Value)>, string)>, entries: seq<(Key, Py)>, i: nat, first: bool, rest: string)
    requires i <= |entries|
  {
    (i < |entries| ==> EntriesRead(read, entries, i + 1, false, rest)) ==> EntriesRead(read, entries, i, first, rest)
  }

  lemma {:induction false} EntriesChain(read: (string, bool) -> Option<(seq<(string, Value)>, string)>, entries: seq<(Key, Py)>, i: nat, first: bool, rest: string)
    requires i <= |entries| && (first <==> i == 0)
    requires forall k, f :: 0 <= k <= |entries| && (f <==> k == 0) ==> EntriesLink(read, entries, k, f, rest)
    ensures EntriesRead(read, entries, i, first, rest)
    decreases |entries| - i
  {
    if i == |entries| {
    } else {
      EntriesChain(read, entries, i + 1, false, rest);
    }
    assert EntriesLink(read, entries, i, first, rest);
  }

  lemma {:induction false} EntriesLinked(entries: seq<(Key, Py)>, i: nat, first: bool, rest: string)
    requires i <= |entries| && (first <==> i == 0)
    ensures EntriesLink(ReadMembers, entries, i, first, rest)
    decreases entries, 0
  {
    if i == |entries| {
      EntriesEnd(rest, first);
    } else if EntriesRead(ReadMembers, entries, i + 1, false, rest) {
      var more := EntriesText(entries, i + 1) + rest;
      EntriesStart(entries, i + 1, rest);
      assert entries decreases to entries[i];
      ReadsBack(entries[i].1, more);
      EntriesStep(entries, i, first, more, rest);
    }
  }

  lemma {:induction false} EntriesBack(entries: seq<(Key, Py)>, rest: string)
    ensures EntriesRead(ReadMembers, entries, 0, true, rest)
    decreases entries, 1
  {
    forall k, f | 0 <= k <= |entries| && (f <==> k == 0) ensures EntriesLink(ReadMembers, entries, k, f, rest) {
      EntriesLinked(entries, k, f, rest);
    }
    EntriesChain(ReadMembers, entries, 0, true, rest);
  }

  lemma Reassoc(a: string, b: string, c: string, d: string, e: string, f: string)
    ensures a + (b + (c + (d + e))) + f == a + (b + (c + (d + (e + f))))
  {
  }

  lemma BracketBack(text: string, vs: seq<Value>, rest: string)
    requires ReadItems(text + rest, true) == Some((vs, rest))
    ensures ReadValue("[" + text + rest) == Some((Array(vs), rest))
  {
    assert ("[" + text + rest)[1..] == text + rest;
  }

  lemma BraceBack(text: string, ms: seq<(string, Value)>, rest: string)
    requires ReadMembers(text + rest, true) == Some((ms, rest))
    ensures ReadValue("{" + text + rest) == Some((Object(ms), rest))
  {
    assert ("{" + text + rest)[1..] == text + rest;
  }

  lemma WordBack(v: Py, rest: string)
    requires v.PyNone? || v.PyBool?
    ensures ReadValue(Printed(v) + rest) == Some((Meaning(v), rest))
  {
    var word := Printed(v);
    assert (word + rest)[|word|..] == rest;
    assert word <= word + rest;
  }

  lemma StrBack(s: string, rest: string)
    ensures ReadValue(Quoted(s) + rest) == Some((Text(s), rest))
  {
    QuotedBack(s, rest);
  }

  /** Whatever is written reads back as the value it stands for, leaving what follows. */
  lemma {:induction false} ReadsBack(v: Py, rest: string)
    requires Ends(rest)
    ensures ReadValue(Printed(v) + rest) == Some((Meaning(v), rest))
    decreases v
  {
    match v
    case PyNone => WordBack(v, rest);
    case PyBool(_) => WordBack(v, rest);
    case PyInt(n) => IntBack(n, IntText(n), rest);
    case PyStr(s) => StrBack(s, rest);
    case PyList(items) => ItemsBack(items, rest); BracketBack(ItemsText(items, 0), ItemMeanings(items, 0), rest);
    case PyTuple(items) => ItemsBack(items, rest); BracketBack(ItemsText(items, 0), ItemMeanings(items, 0), rest);
    case PySet(items) => ItemsBack(items, rest); BracketBack(ItemsText(items, 0), ItemMeanings(items, 0), rest);
    case PyDict(entries) => EntriesBack(entries, rest); BraceBack(EntriesText(entries, 0), EntryMeanings(entries, 0), rest);
  }

  /** `fallback_json`: the whole text is one JSON value, and the right one. */
  method Write(v: Py) returns (text: string)
    ensures ReadValue(text) == Some((Meaning(v), ""))
  {
    var buf := new Buffer();
    WriteAny(v, buf);
    ReadsBack(v, "");
    text := buf.text;
    assert text == Printed(v) + "";
  }

  // ---- No control characters ----

  predicate Printable(s: string) {
    forall i :: 0 <= i < |s| ==> s[i] >= ' '
  }

  lemma {:induction false} EscapePrintable(s: string, i: nat)
    requires i <= |s|
    ensures Printable(Escape(s, i))
    decreases |s| - i
  {
    if i == |s| {
    } else {
      EscapePrintable(s, i + 1);
      CharPrintable(s[i]);
    }
  }

  lemma HexPrintable(d: nat)
    requires d < 16
    ensures HexDigit(d) >= ' '
  {
  }

  lemma CharPrintable(c: char)
    ensures Printable(EscapeChar(c))
  {
    if c < ' ' {
      HexPrintable(c as int / 16);
      HexPrintable(c as int % 16);
    }
  }

  lemma {:induction false} ItemsPrintable(items: seq<Py>, i: nat)
    requires i <= |items|
    ensures Printable(ItemsText(items, i))
    decreases items, |items| - i
  {
    if i == |items| {
    } else {
      ItemsPrintable(items, i + 1);
      OneLine(items[i]);
    }
  }

  lemma PrintableParts(a: string, b: string, c: string, d: string, e: string)
    requires Printable(a) && Printable(b) && Printable(c) && Printable(d) && Printable(e)
    ensures Printable(a + (b + (c + (d + e))))
  {
  }

  lemma QuotedPrintable(s: string)
    ensures Printable(Quoted(s))
  {
    EscapePrintable(s, 0);
  }

  lemma {:induction false} EntriesPrintable(entries: seq<(Key, Py)>, i: nat)
    requires i <= |entries|
    ensures Printable(EntriesText(entries, i))
    decreases entries, |entries| - i
  {
    if i == |entries| {
    } else {
      EntriesPrintable(entries, i + 1);
      assert entries decreases to entries[i];
      OneLine(entries[i].1);
      QuotedPrintable(entries[i].0.Shown());
      PrintableParts(if i > 0 then "," else "", Quoted(entries[i].0.Shown()), ":", Printed(entries[i].1), EntriesText(entries, i + 1));
    }
  }

  /** Whatever the strings inside, the text has no line break or other control character. */
  lemma {:induction false} OneLine(v: Py)
    ensures Printable(Printed(v))
    decreases v
  {
    match v
    case PyNone =>
    case PyBool(_) =>
    case PyInt(n) => assert AllDigits(Dec(if n < 0 then -n else n));
    case PyStr(s) => EscapePrintable(s, 0);
    case PyList(items) => ItemsPrintable(items, 0);
    case PyTuple(items) => ItemsPrintable(items, 0);
    case PySet(items) => ItemsPrintable(items, 0);
    case PyDict(entries) => EntriesPrintable(entries, 0);
  }
}
