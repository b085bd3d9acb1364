/** Compact JSON text and its reading (RFC 8259), for the values the direct writer handles
without floating point. */
module Json {
  import opened Decimal
  import opened Runs

  datatype Value = Null | Bool(b: bool) | Number(n: int) | Text(s: string) | Array(items: seq<Value>) | Object(members: seq<(string, Value)>)

  // ---- Hexadecimal escapes ----

  function HexDigit(d: nat): (c: char)
    requires d < 16
    ensures HexValue(c) == Some(d)
  {
    if d < 10 then ('0' as int + d) as char else ('a' as int + d - 10) as char
  }

  function HexValue(c: char): Option<nat> {
    if '0' <= c <= '9' then Some(c as int - '0' as int)
    else if 'a' <= c <= 'f' then Some(c as int - 'a' as int + 10)
    else if 'A' <= c <= 'F' then Some(c as int - 'A' as int + 10)
    else None
  }

  /** Four hexadecimal digits. */
  function ReadHex(s: string): Option<nat>
    requires |s| == 4
  {
    var a :- HexValue(s[0]);
    var b :- HexValue(s[1]);
    var c :- HexValue(s[2]);
    var d :- HexValue(s[3]);
    Some(4096 * a + 256 * b + 16 * c + d)
  }

  // ---- Reading strings ----

  /** What follows a backslash; an escaped surrogate is not accepted. */
  function ReadEscape(s: string): (r: Option<(char, string)>)
    ensures r.Some? ==> |r.value.1| < |s|
  {
    if s == "" then None
    else if s[0] == '"' then Some(('"', s[1..]))
    else if s[0] == '\\' then Some(('\\', s[1..]))
    else if s[0] == '/' then Some(('/', s[1..]))
    else if s[0] == 'b' then Some((8 as char, s[1..]))
    else if s[0] == 'f' then Some((12 as char, s[1..]))
    else if s[0] == 'n' then Some(('\n', s[1..]))
    else if s[0] == 'r' then Some(('\r', s[1..]))
    else if s[0] == 't' then Some(('\t', s[1..]))
    else if s[0] == 'u' && |s| >= 5 then
      var n :- ReadHex(s[1..5]);
      if n < 0xD800 || 0xE000 <= n < 0x10000 then Some((n as char, s[5..])) else None
    else None
  }

  /** The rest of a string after its opening quote. */
  function ReadString(s: string): (r: Option<(string, string)>)
    ensures r.Some? ==> |r.value.1| < |s|
    decreases |s|
  {
    if s == "" then None
    else if s[0] == '"' then Some(("", s[1..]))
    else if s[0] < ' ' then None
    else
      var (c, rest) :- if s[0] == '\\' then ReadEscape(s[1..]) else Some((s[0], s[1..]));
      var (more, after) :- ReadString(rest);
      Some(([c] + more, after))
  }

  // ---- Reading values ----

  predicate IsBlank(c: char) {
    c == ' ' || c == '\t' || c == '\n' || c == '\r'
  }

  function Skip(s: string): (r: string)
    ensures |r| <= |s|
  {
    if s != "" && IsBlank(s[0]) then Skip(s[1..]) else s
  }

  function DigitCount(s: string): (n: nat)
    ensures n <= |s| && AllDigits(s[..n])
  {
    if s == "" || !('0' <= s[0] <= '9') then 0 else
    var n := DigitCount(s[1..]);
    assert s[..n + 1] == [s[0]] + s[1..][..n];
    n + 1
  }

  /** Digits without a superfluous zero, not followed by a fraction or an exponent. */
  function ReadDigits(s: string): (r: Option<(nat, string)>)
    ensures r.Some? ==> |r.value.1| < |s|
  {
    var n := DigitCount(s);
    if n == 0 || (n > 1 && s[0] == '0') || (n < |s| && s[n] in ".eE") then None else Some((ReadDec(s[..n]), s[n..]))
  }

  function ReadNumber(s: string): (r: Option<(Value, string)>)
    ensures r.Some? ==> |r.value.1| < |s|
  {
    if s != "" && s[0] == '-' then
      var (n, rest) :- ReadDigits(s[1..]);
      Some((Number(0 - n), rest))
    else
      var (n, rest) :- ReadDigits(s);
      Some((Number(n), rest))
  }

  function ReadLiteral(s: string, word: string, v: Value): (r: Option<(Value, string)>)
    requires word != ""
    ensures r.Some? ==> |r.value.1| < |s|
  {
    if word <= s then Some((v, s[|word|..])) else None
  }

  /** A value, and the text after it. */
  function ReadValue(text: string): (r: Option<(Value, string)>)
    ensures r.Some? ==> |r.value.1| < |text|
    decreases |text|, 2
  {
    var s := Skip(text);
    if s == "" then None
    else if s[0] == 'n' then ReadLiteral(s, "null", Null)
    else if s[0] == 't' then ReadLiteral(s, "true", Bool(true))
    else if s[0] == 'f' then ReadLiteral(s, "false", Bool(false))
    else if s[0] == '"' then
      var (t, rest) :- ReadString(s[1..]);
      Some((Text(t), rest))
    else if s[0] == '[' then
      var (vs, rest) :- ReadItems(s[1..], true);
      Some((Array(vs), rest))
    else if s[0] == '{' then
      var (ms, rest) :- ReadMembers(s[1..], true);
      Some((Object(ms), rest))
    else ReadNumber(s)
  }

  /** The items up to and with the closing bracket; all but the first follow a comma. */
  function ReadItems(text: string, first: bool): (r: Option<(seq<Value>, string)>)
    ensures r.Some? ==> |r.value.1| < |text|
    decreases |text|, 3
  {
    var s := Skip(text);
    if s == "" then None
    else if s[0] == ']' then Some(([], s[1..]))
    else if !first && s[0] != ',' then None
    else
      var (v, rest) :- ReadValue(if first then s else s[1..]);
      var (vs, after) :- ReadItems(rest, false);
      Some(([v] + vs, after))
  }

  function ReadMembers(text: string, first: bool): (r: Option<(seq<(string, Value)>, string)>)
    ensures r.Some? ==> |r.value.1| < |text|
    decreases |text|, 3
  {
    var s := Skip(text);
    if s == "" then None
    else if s[0] == '}' then Some(([], s[1..]))
    else if !first && s[0] != ',' then None
    else
      var m := Skip(if first then s else s[1..]);
      if m == "" || m[0] != '"' then None else
      var (key, rest) :- ReadString(m[1..]);
      var colon := Skip(rest);
      if colon == "" || colon[0] != ':' then None else
      var (v, after) :- ReadValue(colon[1..]);
      var (ms, end) :- ReadMembers(after, false);
      Some(([(key, v)] + ms, end))
  }
}
