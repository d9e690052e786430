/** JSON values and the text cJSON prints for them. A `char` stands for one byte of a C string. */
module JsonText {
  datatype Value =
    | Null
    | False
    | True
    | Number(token: string)
    | String(text: string)
    | Array(items: seq<Value>)
    | Object(members: seq<Member>)

  datatype Member = Member(key: string, value: Value)

  const BACKSPACE := '\U{0008}'
  const FORM_FEED := '\U{000C}'

  function HexDigit(n: nat): char
    requires n < 16
  {
    "0123456789abcdef"[n]
  }

  /** One character as it appears between quotes. */
  function Escape(c: char): (e: string)
    ensures 1 <= |e| <= 6
  {
    if c > '\U{001F}' && c != '\"' && c != '\\' then [c]
    else if c == '\\' then "\\\\"
    else if c == '\"' then "\\\""
    else if c == BACKSPACE then "\\b"
    else if c == FORM_FEED then "\\f"
    else if c == '\n' then "\\n"
    else if c == '\r' then "\\r"
    else if c == '\t' then "\\t"
    else ['\\', 'u', '0', '0', HexDigit(c as nat / 16), HexDigit(c as nat % 16)]
  }

  function Escaped(s: string): string {
    if |s| == 0 then "" else Escape(s[0]) + Escaped(s[1..])
  }

  function Quoted(s: string): (q: string)
    ensures |q| >= 2 && q[0] == '\"'
  {
    "\"" + Escaped(s) + "\""
  }

  function Tabs(n: nat): (t: string)
    ensures |t| == n && forall i :: 0 <= i < n ==> t[i] == '\t'
  {
    seq(n, _ => '\t')
  }

  function Opening(format: bool): string {
    if format then "{\n" else "{"
  }

  function Closing(format: bool, depth: nat): string {
    (if format then Tabs(depth) else "") + "}"
  }

  function Comma(format: bool): string {
    if format then ", " else ","
  }

  function Colon(format: bool): string {
    if format then ":\t" else ":"
  }

  function Ending(format: bool, more: bool): string {
    (if more then "," else "") + (if format then "\n" else "")
  }

  function Indent(format: bool, depth: nat): string {
    if format then Tabs(depth) else ""
  }

  /** The text of a value at a nesting depth. */
  function Text(v: Value, format: bool, depth: nat): string
    decreases v
  {
    match v
    case Null => "null"
    case False => "false"
    case True => "true"
    case Number(token) => token
    case String(text) => Quoted(text)
    case Array(items) => "[" + Items(items, format, depth + 1) + "]"
    case Object(members) => Opening(format) + Members(members, format, depth + 1) + Closing(format, depth)
  }

  function Items(items: seq<Value>, format: bool, depth: nat): string
    decreases items
  {
    if |items| == 0 then ""
    else if |items| == 1 then Text(items[0], format, depth)
    else Text(items[0], format, depth) + Comma(format) + Items(items[1..], format, depth)
  }

  function Members(members: seq<Member>, format: bool, depth: nat): string
    decreases members
  {
    if |members| == 0 then ""
    else
      Indent(format, depth) + Quoted(members[0].key) + Colon(format) + Text(members[0].value, format, depth)
      + Ending(format, |members| > 1) + Members(members[1..], format, depth)
  }

  /** How deeply arrays and objects are nested. */
  function Nesting(v: Value): nat
    decreases v
  {
    match v
    case Array(items) => 1 + Deepest(items)
    case Object(members) => 1 + DeepestMember(members)
    case _ => 0
  }

  function Deepest(items: seq<Value>): nat
    decreases items
  {
    if |items| == 0 then 0
    else
      var n, m := Nesting(items[0]), Deepest(items[1..]);
      if n > m then n else m
  }

  function DeepestMember(members: seq<Member>): nat
    decreases members
  {
    if |members| == 0 then 0
    else
      var n, m := Nesting(members[0].value), DeepestMember(members[1..]);
      if n > m then n else m
  }

  /** The characters `parse_number` collects. */
  predicate NumberChar(c: char) {
    '0' <= c <= '9' || c == '+' || c == '-' || c == 'e' || c == 'E' || c == '.'
  }

  predicate Digit(c: char) {
    '0' <= c <= '9'
  }

  function Digits(s: string): (n: nat)
    ensures n <= |s|
  {
    if |s| > 0 && Digit(s[0]) then 1 + Digits(s[1..]) else 0
  }

  function Sign(s: string): (n: nat)
    ensures n <= |s|
  {
    if |s| > 0 && (s[0] == '+' || s[0] == '-') then 1 else 0
  }

  /** An exponent part counts only with a digit in it. */
  function Exponent(s: string): (n: nat)
    ensures n <= |s|
  {
    if |s| > 0 && (s[0] == 'e' || s[0] == 'E') then
      var k := 1 + Sign(s[1..]);
      var n := Digits(s[k..]);
      if n > 0 then k + n else 0
    else 0
  }

  /** How much of a decimal text `strtof` converts; 0 if nothing. */
  function Converted(s: string): (n: nat)
    ensures n <= |s|
  {
    var sign := Sign(s);
    var whole := Digits(s[sign..]);
    var point := if sign + whole < |s| && s[sign + whole] == '.' then 1 else 0;
    var fraction := if point == 1 then Digits(s[sign + whole + 1..]) else 0;
    if whole + fraction == 0 then 0
    else
      var mantissa := sign + whole + (if point == 1 then 1 + fraction else 0);
      mantissa + Exponent(s[mantissa..])
  }

  predicate NoNul(s: string) {
    '\0' !in s
  }

  /** A number as `sprintf` writes it: one `strtof` takes back whole. */
  predicate Numeral(token: string) {
    && 0 < |token| <= 25 && (token[0] == '-' || Digit(token[0]))
    && Converted(token) == |token|
    && forall i :: 0 <= i < |token| ==> NumberChar(token[i])
  }

  /** Strings are C strings, and numbers numerals. */
  predicate Good(v: Value)
    decreases v
  {
    match v
    case Number(token) => Numeral(token)
    case String(text) => NoNul(text)
    case Array(items) => forall i :: 0 <= i < |items| ==> Good(items[i])
    case Object(members) => forall i :: 0 <= i < |members| ==> NoNul(members[i].key) && Good(members[i].value)
    case _ => true
  }

  /** No text contains the byte that ends it. */
  lemma {:induction false} TextNoNul(v: Value, format: bool, depth: nat)
    requires Good(v)
    ensures NoNul(Text(v, format, depth))
    decreases v
  {
    hide Items, Members, Escaped, Converted;
    match v
    case String(text) => EscapedNoNul(text);
    case Array(items) => ItemsNoNul(items, format, depth + 1);
    case Object(members) => MembersNoNul(members, format, depth + 1);
    case _ =>
  }

  lemma {:induction false} EscapedNoNul(s: string)
    requires NoNul(s)
    ensures NoNul(Escaped(s)) && NoNul(Quoted(s))
  {
    if |s| > 0 {
      EscapedNoNul(s[1..]);
      assert NoNul(Escape(s[0]));
    }
  }

  lemma {:induction false} ItemsNoNul(items: seq<Value>, format: bool, depth: nat)
    requires forall i :: 0 <= i < |items| ==> Good(items[i])
    ensures NoNul(Items(items, format, depth))
    decreases items
  {
    if |items| > 0 {
      TextNoNul(items[0], format, depth);
      if |items| > 1 {
        ItemsNoNul(items[1..], format, depth);
      }
    }
  }

  lemma {:induction false} MembersNoNul(members: seq<Member>, format: bool, depth: nat)
    requires forall i :: 0 <= i < |members| ==> NoNul(members[i].key) && Good(members[i].value)
    ensures NoNul(Members(members, format, depth))
    decreases members
  {
    if |members| > 0 {
      EscapedNoNul(members[0].key);
      TextNoNul(members[0].value, format, depth);
      MembersNoNul(members[1..], format, depth);
    }
  }
}
