/** What cJSON's parser makes of a text: each function gives the value that starts at an offset, and where
    it ends. */
module JsonGrammar {
  import opened JsonText

  datatype Parsed<T> = Ok(value: T, next: nat) | Fail

  const NESTING_LIMIT: nat := 1000

  /** A C string with its terminator. */
  predicate Terminated(c: string) {
    |c| > 0 && c[|c| - 1] == '\0'
  }

  predicate StartsAt(c: string, o: nat, t: string) {
    o + |t| <= |c| && c[o..o + |t|] == t
  }

  /** Past white space, which is every byte up to the blank, but not past the end. */
  function Skip(c: string, o: nat): (r: nat)
    requires o < |c|
    ensures o <= r < |c|
    decreases |c| - o
  {
    if c[o] <= ' ' && o + 1 < |c| then Skip(c, o + 1) else o
  }

  /** Where the quote is that closes a string, taking the character after each backslash as part of it. */
  function CloseQuote(c: string, p: nat): (r: Parsed<()>)
    requires p <= |c|
    ensures r.Ok? ==> p <= r.next < |c| && c[r.next] == '\"'
    decreases |c| - p
  {
    if p == |c| then Fail
    else if c[p] == '\"' then Ok((), p)
    else if c[p] == '\\' then
      if p + 1 >= |c| then Fail else CloseQuote(c, p + 2)
    else CloseQuote(c, p + 1)
  }

  function HexValue(c: char): (n: int)
    ensures -1 <= n < 16
  {
    if '0' <= c <= '9' then c as int - '0' as int
    else if 'A' <= c <= 'F' then 10 + (c as int - 'A' as int)
    else if 'a' <= c <= 'f' then 10 + (c as int - 'a' as int)
    else -1
  }

  /** Four hexadecimal digits; 0 if one of them is not. */
  function Hex4(c: string, p: nat): (h: nat)
    requires p + 4 <= |c|
    ensures h < 0x10000
  {
    var a, b, d, e := HexValue(c[p]), HexValue(c[p + 1]), HexValue(c[p + 2]), HexValue(c[p + 3]);
    if a < 0 || b < 0 || d < 0 || e < 0 then 0 else ((a * 16 + b) * 16 + d) * 16 + e
  }

  /** UTF-8. */
  function Utf8(code: nat): (u: string)
    requires code < 0x110000
    ensures 1 <= |u| <= 4
    ensures code < 0x10000 ==> |u| <= 3
    ensures code < 0x80 ==> |u| == 1
  {
    if code < 0x80 then [code as char]
    else if code < 0x800 then [(0xC0 + code / 64) as char, (0x80 + code % 64) as char]
    else if code < 0x10000 then
      [(0xE0 + code / 4096) as char, (0x80 + code / 64 % 64) as char, (0x80 + code % 64) as char]
    else
      [(0xF0 + code / 262144) as char, (0x80 + code / 4096 % 64) as char,
       (0x80 + code / 64 % 64) as char, (0x80 + code % 64) as char]
  }

  /** The character a `\u` escape at `p` stands for, and where the escape ends. */
  function Utf16(c: string, p: nat, end: nat): (r: Parsed<nat>)
    requires p <= end < |c|
    ensures r.Ok? ==> (r.next == p + 6 || r.next == p + 12) && r.next <= end && r.value < 0x110000
    ensures r.Ok? && r.next == p + 6 ==> r.value < 0x10000
  {
    if end - p < 6 then Fail
    else
      var first := Hex4(c, p + 2);
      if 0xDC00 <= first <= 0xDFFF then Fail
      else if 0xD800 <= first <= 0xDBFF then
        if end - (p + 6) < 6 || c[p + 6] != '\\' || c[p + 7] != 'u' then Fail
        else
          var second := Hex4(c, p + 8);
          if second < 0xDC00 || second > 0xDFFF then Fail
          else Ok(0x10000 + first % 0x400 * 0x400 + second % 0x400, p + 12)
      else Ok(first, p + 6)
  }

  /** The characters between `p` and the closing quote at `end`, with escapes resolved. */
  function Unescaped(c: string, p: nat, end: nat): Parsed<string>
    requires end < |c|
    decreases |c| - p
  {
    if p >= end then Ok("", p)
    else if c[p] != '\\' then Before([c[p]], Unescaped(c, p + 1, end))
    else
      match c[p + 1]
      case 'b' => Before([BACKSPACE], Unescaped(c, p + 2, end))
      case 'f' => Before([FORM_FEED], Unescaped(c, p + 2, end))
      case 'n' => Before("\n", Unescaped(c, p + 2, end))
      case 'r' => Before("\r", Unescaped(c, p + 2, end))
      case 't' => Before("\t", Unescaped(c, p + 2, end))
      case '\"' => Before([c[p + 1]], Unescaped(c, p + 2, end))
      case '\\' => Before([c[p + 1]], Unescaped(c, p + 2, end))
      case '/' => Before([c[p + 1]], Unescaped(c, p + 2, end))
      case 'u' =>
        (match Utf16(c, p, end)
         case Fail => Fail
         case Ok(code, next) => Before(Utf8(code), Unescaped(c, next, end)))
      case _ => Fail
  }

  function Before<T>(head: seq<T>, tail: Parsed<seq<T>>): Parsed<seq<T>> {
    match tail
    case Fail => Fail
    case Ok(rest, next) => Ok(head + rest, next)
  }

  /** A byte array read as a C string. */
  function CString(s: string): (r: string)
    ensures NoNul(r) && r <= s
    ensures NoNul(s) ==> r == s
  {
    if |s| == 0 || s[0] == '\0' then "" else [s[0]] + CString(s[1..])
  }

  function ParseString(c: string, o: nat): (r: Parsed<string>)
    requires o < |c| && Terminated(c)
    ensures r.Ok? ==> o < r.next < |c|
  {
    if c[o] != '\"' then Fail
    else
      match CloseQuote(c, o + 1)
      case Fail => Fail
      case Ok(_, end) =>
        match Unescaped(c, o + 1, end)
        case Fail => Fail
        case Ok(text, _) => Ok(CString(text), end + 1)
  }

  /** At most 63 number characters from `o` on. */
  function NumberRun(c: string, o: nat, n: nat): (r: nat)
    requires n <= 63
    ensures n <= r <= 63 && (o + n <= |c| ==> o + r <= |c|)
    decreases 63 - n
  {
    if n < 63 && o + n < |c| && NumberChar(c[o + n]) then NumberRun(c, o, n + 1) else n
  }

  function ParseNumber(c: string, o: nat): (r: Parsed<Value>)
    requires o < |c| && Terminated(c)
    ensures r.Ok? ==> o < r.next < |c|
  {
    RunBeforeNul(c, o, 0);
    var run := c[o..o + NumberRun(c, o, 0)];
    var n := Converted(run);
    if n == 0 then Fail else Ok(Number(run[..n]), o + n)
  }

  lemma {:induction false} RunBeforeNul(c: string, o: nat, n: nat)
    requires Terminated(c) && n <= 63 && o + n < |c|
    ensures o + NumberRun(c, o, n) < |c|
    decreases 63 - n
  {
    if n < 63 && NumberChar(c[o + n]) {
      RunBeforeNul(c, o, n + 1);
    }
  }

  function ParseValue(c: string, o: nat, depth: nat): (r: Parsed<Value>)
    requires o < |c| && Terminated(c)
    ensures r.Ok? ==> o < r.next < |c|
    decreases |c| - o, 1
  {
    if StartsAt(c, o, "null") then Ok(Null, Past(c, o, "null"))
    else if StartsAt(c, o, "false") then Ok(False, Past(c, o, "false"))
    else if StartsAt(c, o, "true") then Ok(True, Past(c, o, "true"))
    else if c[o] == '\"' then
      (match ParseString(c, o)
       case Fail => Fail
       case Ok(text, next) => Ok(String(text), next))
    else if c[o] == '-' || Digit(c[o]) then ParseNumber(c, o)
    else if c[o] == '[' then ParseArray(c, o, depth)
    else if c[o] == '{' then ParseObject(c, o, depth)
    else Fail
  }

  function Past(c: string, o: nat, t: string): (r: nat)
    requires Terminated(c) && StartsAt(c, o, t) && |t| > 0 && t[|t| - 1] != '\0'
    ensures r == o + |t| < |c|
  {
    assert c[o + |t| - 1] == c[o..o + |t|][|t| - 1];
    o + |t|
  }

  function ParseArray(c: string, o: nat, depth: nat): (r: Parsed<Value>)
    requires o < |c| && Terminated(c) && c[o] == '['
    ensures r.Ok? ==> o < r.next < |c|
    decreases |c| - o, 0
  {
    if depth >= NESTING_LIMIT then Fail
    else
      var p := Skip(c, o + 1);
      if c[p] == ']' then Ok(Array([]), p + 1)
      else
        match ParseItems(c, p, depth + 1)
        case Fail => Fail
        case Ok(items, next) => Ok(Array(items), next)
  }

  /** The values of an array from `o` on. */
  function ParseItems(c: string, o: nat, depth: nat): (r: Parsed<seq<Value>>)
    requires o < |c| && Terminated(c)
    ensures r.Ok? ==> o < r.next < |c|
    decreases |c| - o, 2
  {
    match ParseValue(c, Skip(c, o), depth)
    case Fail => Fail
    case Ok(v, q) =>
      var e := Skip(c, q);
      if c[e] == ',' then Before([v], ParseItems(c, e + 1, depth))
      else if c[e] == ']' then Ok([v], e + 1)
      else Fail
  }

  function ParseObject(c: string, o: nat, depth: nat): (r: Parsed<Value>)
    requires o < |c| && Terminated(c) && c[o] == '{'
    ensures r.Ok? ==> o < r.next < |c|
    decreases |c| - o, 0
  {
    if depth >= NESTING_LIMIT then Fail
    else
      var p := Skip(c, o + 1);
      if c[p] == '}' then Ok(Object([]), p + 1)
      else
        match ParseMembers(c, p, depth + 1)
        case Fail => Fail
        case Ok(members, next) => Ok(Object(members), next)
  }

  /** One member: a name, a colon and a value. */
  function ParseMember(c: string, o: nat, depth: nat): (r: Parsed<Member>)
    requires o < |c| && Terminated(c)
    ensures r.Ok? ==> o < r.next < |c|
    decreases |c| - o, 2
  {
    match ParseString(c, Skip(c, o))
    case Fail => Fail
    case Ok(key, q) =>
      var e := Skip(c, q);
      if c[e] != ':' then Fail
      else
        match ParseValue(c, Skip(c, e + 1), depth)
        case Fail => Fail
        case Ok(v, next) => Ok(Member(key, v), next)
  }

  /** The members of an object from `o` on. */
  function ParseMembers(c: string, o: nat, depth: nat): (r: Parsed<seq<Member>>)
    requires o < |c| && Terminated(c)
    ensures r.Ok? ==> o < r.next < |c|
    decreases |c| - o, 3
  {
    match ParseMember(c, o, depth)
    case Fail => Fail
    case Ok(m, q) =>
      var e := Skip(c, q);
      if c[e] == ',' then Before([m], ParseMembers(c, e + 1, depth))
      else if c[e] == '}' then Ok([m], e + 1)
      else Fail
  }

  const BYTE_ORDER_MARK: string := ['\U{00EF}', '\U{00BB}', '\U{00BF}']

  /** The value of a text: past a byte order mark and white space, the one that starts there, with nothing
      but white space after it if `whole` is asked for. */
  function Parse(text: string, whole: bool): Parsed<Value>
    requires NoNul(text)
  {
    var c := text + "\0";
    var o := if 4 < |c| && StartsAt(c, 0, BYTE_ORDER_MARK) then 3 else 0;
    var r := ParseValue(c, Skip(c, o), 0);
    if whole && r.Ok? && c[Skip(c, r.next)] != '\0' then Fail else r
  }
}
