/** Parsing what was printed gives the value back. */
module JsonRoundTrip {
  import opened JsonText
  import opened JsonGrammar

  /** What parsing gives back: the value, unless it is nested too deeply. */
  function Expect<T>(fits: bool, v: T, next: nat): Parsed<T> {
    if fits then Ok(v, next) else Fail
  }

  lemma StartsSplit(c: string, o: nat, s: string, t: string)
    ensures StartsAt(c, o, s + t) <==> StartsAt(c, o, s) && StartsAt(c, o + |s|, t)
  {
    var n := o + |s| + |t|;
    if n <= |c| {
      assert c[o..n] == c[o..o + |s|] + c[o + |s|..n];
      assert (s + t)[..|s|] == s && (s + t)[|s|..] == t;
      assert c[o..n][..|s|] == c[o..o + |s|] && c[o..n][|s|..] == c[o + |s|..n];
    }
  }

  lemma StartsWith(c: string, o: nat, t: string, i: nat)
    requires StartsAt(c, o, t) && i < |t|
    ensures c[o + i] == t[i]
  {
    assert c[o..o + |t|][i] == t[i];
  }

  lemma EscapeReads(c: string, p: nat, end: nat, x: char)
    requires x != '\0' && StartsAt(c, p, Escape(x)) && p + |Escape(x)| <= end < |c|
    ensures Unescaped(c, p, end) == Before([x], Unescaped(c, p + |Escape(x)|, end))
  {
    hide StartsAt, Utf16, Utf8;
    var e := Escape(x);
    StartsWith(c, p, e, 0);
    if |e| > 1 {
      StartsWith(c, p, e, 1);
    }
    if |e| == 6 {
      StartsWith(c, p, e, 2);
      StartsWith(c, p, e, 3);
      StartsWith(c, p, e, 4);
      StartsWith(c, p, e, 5);
      HexReads(c, p, end, x);
    }
  }

  /** The escape of a control character stands for it. */
  lemma HexReads(c: string, p: nat, end: nat, x: char)
    requires x <= '\U{001F}' && p + 6 <= end < |c|
    requires c[p + 2] == '0' && c[p + 3] == '0'
    requires c[p + 4] == HexDigit(x as nat / 16) && c[p + 5] == HexDigit(x as nat % 16)
    ensures Utf16(c, p, end) == Ok(x as nat, p + 6) && Utf8(x as nat) == [x]
  {
    HexDigitReads(x as nat / 16);
    HexDigitReads(x as nat % 16);
  }

  lemma HexDigitReads(n: nat)
    requires n < 16
    ensures HexValue(HexDigit(n)) == n
  {}

  lemma {:induction false} EscapedReads(c: string, p: nat, s: string, end: nat)
    requires NoNul(s) && StartsAt(c, p, Escaped(s)) && end == p + |Escaped(s)| < |c|
    ensures Unescaped(c, p, end) == Ok(s, end)
    decreases |s|
  {
    hide Escape;
    if |s| == 0 {
    } else {
      StartsSplit(c, p, Escape(s[0]), Escaped(s[1..]));
      EscapeReads(c, p, end, s[0]);
      EscapedReads(c, p + |Escape(s[0])|, s[1..], end);
      assert [s[0]] + s[1..] == s;
    }
  }

  /** The three forms: the character itself, a backslash and one more, or a backslash and five plain ones. */
  lemma EscapeForm(x: char)
    ensures
      var e := Escape(x);
      && (|e| == 1 || |e| == 2 || |e| == 6)
      && (|e| == 1 ==> e[0] != '\"' && e[0] != '\\')
      && (|e| > 1 ==> e[0] == '\\')
      && (|e| == 6 ==> forall i :: 1 <= i < 6 ==> e[i] != '\"' && e[i] != '\\')
  {}

  lemma EscapeCloses(c: string, p: nat, x: char)
    requires StartsAt(c, p, Escape(x)) && p + |Escape(x)| < |c|
    ensures CloseQuote(c, p) == CloseQuote(c, p + |Escape(x)|)
  {
    hide Escape, StartsAt;
    var e := Escape(x);
    EscapeForm(x);
    StartsWith(c, p, e, 0);
    if |e| == 6 {
      StartsWith(c, p, e, 2);
      StartsWith(c, p, e, 3);
      StartsWith(c, p, e, 4);
      StartsWith(c, p, e, 5);
      Skipped(c, p);
      PlainPasses(c, p + 2);
      PlainPasses(c, p + 3);
      PlainPasses(c, p + 4);
      PlainPasses(c, p + 5);
    } else if |e| == 2 {
      Skipped(c, p);
    } else {
      PlainPasses(c, p);
    }
  }

  lemma Skipped(c: string, p: nat)
    requires p + 1 < |c| && c[p] == '\\'
    ensures CloseQuote(c, p) == CloseQuote(c, p + 2)
  {}

  lemma PlainPasses(c: string, p: nat)
    requires p < |c| && c[p] != '\"' && c[p] != '\\'
    ensures CloseQuote(c, p) == CloseQuote(c, p + 1)
  {}

  lemma {:induction false} EscapedCloses(c: string, p: nat, s: string)
    requires StartsAt(c, p, Escaped(s) + "\"")
    ensures CloseQuote(c, p) == Ok((), p + |Escaped(s)|)
    decreases |s|
  {
    hide Escape, StartsAt;
    if |s| == 0 {
      assert Escaped(s) + "\"" == "\"";
      StartsWith(c, p, "\"", 0);
      StartsWithin(c, p, "\"");
    } else {
      hide CloseQuote;
      var rest := Escaped(s[1..]) + "\"";
      assert Escaped(s) + "\"" == Escape(s[0]) + rest;
      StartsSplit(c, p, Escape(s[0]), rest);
      StartsWithin(c, p + |Escape(s[0])|, rest);
      EscapeCloses(c, p, s[0]);
      EscapedCloses(c, p + |Escape(s[0])|, s[1..]);
    }
  }

  lemma QuotedReads(c: string, o: nat, s: string)
    requires NoNul(s) && Terminated(c) && StartsAt(c, o, Quoted(s))
    ensures o < |c| && ParseString(c, o) == Ok(s, o + |Quoted(s)|)
  {
    hide Unescaped, CloseQuote, Escaped;
    assert Quoted(s) == "\"" + (Escaped(s) + "\"");
    StartsSplit(c, o, "\"", Escaped(s) + "\"");
    StartsWith(c, o, "\"", 0);
    EscapedCloses(c, o + 1, s);
    StartsSplit(c, o + 1, Escaped(s), "\"");
    EscapedReads(c, o + 1, s, o + 1 + |Escaped(s)|);
  }

  /** The run of number characters is exactly the numeral. */
  lemma {:induction false} RunIsNumeral(c: string, o: nat, t: string, n: nat)
    requires Numeral(t) && StartsAt(c, o, t) && o + |t| < |c| && !NumberChar(c[o + |t|]) && n <= |t|
    ensures NumberRun(c, o, n) == |t|
    decreases |t| - n
  {
    if n < |t| {
      StartsWith(c, o, t, n);
      RunIsNumeral(c, o, t, n + 1);
    }
  }

  lemma NumeralReads(c: string, o: nat, t: string, depth: nat)
    requires Terminated(c) && Numeral(t) && StartsAt(c, o, t) && o + |t| < |c| && !NumberChar(c[o + |t|])
    ensures ParseValue(c, o, depth) == Ok(Number(t), o + |t|)
  {
    hide Converted, NumberRun, ParseArray, ParseObject, ParseString;
    StartsWith(c, o, t, 0);
    NotStarting(c, o, "null");
    NotStarting(c, o, "false");
    NotStarting(c, o, "true");
    RunIsNumeral(c, o, t, 0);
    assert t[..|t|] == t;
  }

  lemma NotStarting(c: string, o: nat, t: string)
    requires o < |c| && |t| > 0 && c[o] != t[0]
    ensures !StartsAt(c, o, t)
  {
    if o + |t| <= |c| {
      assert c[o..o + |t|][0] == c[o];
    }
  }

  lemma SkipNone(c: string, o: nat)
    requires o < |c| && c[o] > ' '
    ensures Skip(c, o) == o
  {}

  lemma {:induction false} SkipBlanks(c: string, o: nat, t: string)
    requires StartsAt(c, o, t) && o + |t| < |c| && c[o + |t|] > ' '
    requires forall i :: 0 <= i < |t| ==> t[i] <= ' '
    ensures Skip(c, o) == o + |t|
    decreases |t|
  {
    if |t| > 0 {
      StartsWith(c, o, t, 0);
      assert t == t[..1] + t[1..];
      StartsSplit(c, o, t[..1], t[1..]);
      SkipBlanks(c, o + 1, t[1..]);
    }
  }

  /** The character a value's text starts with. */
  predicate Opener(x: char) {
    x == 'n' || x == 'f' || x == 't' || x == '\"' || x == '-' || Digit(x) || x == '[' || x == '{'
  }

  lemma TextOpens(v: Value, format: bool, depth: nat)
    requires Good(v)
    ensures |Text(v, format, depth)| > 0 && Opener(Text(v, format, depth)[0])
  {
    hide Items, Members, Escaped, Converted;
  }

  /** Nothing of a value's text is lost in parsing. */
  lemma {:induction false} TextReads(v: Value, format: bool, indent: nat, c: string, o: nat, depth: nat)
    requires Terminated(c) && Good(v) && depth <= NESTING_LIMIT
    requires StartsAt(c, o, Text(v, format, indent)) && o + |Text(v, format, indent)| < |c|
    requires !NumberChar(c[o + |Text(v, format, indent)|])
    ensures ParseValue(c, o, depth)
      == Expect(depth + Nesting(v) <= NESTING_LIMIT, v, o + |Text(v, format, indent)|)
    decreases v, 0
  {
    hide Escaped, Converted, Numeral, Items, Members, ParseItems, ParseMembers, ParseString, NumberRun, Skip;
    TextOpens(v, format, indent);
    StartsWith(c, o, Text(v, format, indent), 0);
    match v
    case Null =>
    case False => NotStarting(c, o, "null");
    case True => NotStarting(c, o, "null"); NotStarting(c, o, "false");
    case Number(token) => NumeralReads(c, o, token, depth);
    case String(text) =>
      QuotedReads(c, o, text);
      NotWord(c, o);
    case Array(items) =>
      NotWord(c, o);
      ArrayReads(items, format, indent, c, o, depth);
    case Object(members) =>
      NotWord(c, o);
      ObjectReads(members, format, indent, c, o, depth);
  }

  lemma NotWord(c: string, o: nat)
    requires o < |c| && (c[o] == '\"' || c[o] == '[' || c[o] == '{')
    ensures !StartsAt(c, o, "null") && !StartsAt(c, o, "false") && !StartsAt(c, o, "true")
  {
    NotStarting(c, o, "null");
    NotStarting(c, o, "false");
    NotStarting(c, o, "true");
  }

  lemma {:induction false} ArrayReads(items: seq<Value>, format: bool, indent: nat, c: string, o: nat, depth: nat)
    requires Terminated(c) && Good(Array(items)) && depth <= NESTING_LIMIT
    requires StartsAt(c, o, Text(Array(items), format, indent))
    ensures o < |c| && c[o] == '['
    ensures ParseArray(c, o, depth)
      == Expect(depth + 1 + Deepest(items) <= NESTING_LIMIT, Array(items), o + |Text(Array(items), format, indent)|)
    decreases items, 1
  {
    hide Escaped, Converted, Numeral, Items, ParseItems, Skip, Deepest;
    var inner := Items(items, format, indent + 1);
    assert "[" + inner + "]" == "[" + (inner + "]");
    StartsSplit(c, o, "[", inner + "]");
    StartsWith(c, o, "[", 0);
    ItemsStart(items, format, indent + 1);
    StartsWith(c, o + 1, inner + "]", 0);
    SkipNone(c, o + 1);
    if depth < NESTING_LIMIT && |items| > 0 {
      ItemsRead(items, format, indent + 1, c, o + 1, depth + 1);
    }
    NoItems(items);
  }

  lemma ItemsStart(items: seq<Value>, format: bool, indent: nat)
    requires forall i :: 0 <= i < |items| ==> Good(items[i])
    ensures if |items| == 0 then Items(items, format, indent) == "" 
            else |Items(items, format, indent)| > 0 && Opener(Items(items, format, indent)[0])
  {
    if |items| > 0 {
      TextOpens(items[0], format, indent);
    }
  }

  lemma NoItems(items: seq<Value>)
    ensures |items| == 0 ==> Deepest(items) == 0
  {}

  lemma {:induction false} ItemsRead(items: seq<Value>, format: bool, indent: nat, c: string, o: nat, depth: nat)
    requires Terminated(c) && |items| > 0 && (forall i :: 0 <= i < |items| ==> Good(items[i]))
    requires depth <= NESTING_LIMIT
    requires StartsAt(c, o, Items(items, format, indent) + "]")
    ensures o < |c|
    ensures ParseItems(c, o, depth)
      == Expect(depth + Deepest(items) <= NESTING_LIMIT, items, o + |Items(items, format, indent)| + 1)
    decreases items, 0
  {
    hide Escaped, Converted, Numeral, Text, ParseValue, ParseItems, Skip, Good, Nesting, StartsAt;
    var first := Text(items[0], format, indent);
    var rest := if |items| == 1 then "]" else Comma(format) + (Items(items[1..], format, indent) + "]");
    assert Items(items, format, indent) + "]" == first + rest;
    var q := o + |first|;
    FirstItemReads(items[0], format, indent, rest, c, o, depth);
    if |items| == 1 {
      LastItem(c, o, q, depth, depth + Nesting(items[0]) <= NESTING_LIMIT, items[0]);
      assert [items[0]] == items && Deepest(items[1..]) == 0;
    } else {
      var p := q + |Comma(format)|;
      StartsSplit(c, q, Comma(format), Items(items[1..], format, indent) + "]");
      ItemsRead(items[1..], format, indent, c, p, depth);
      CommaSkips(c, q, format);
      MoreItems(c, o, q, p, depth, depth + Nesting(items[0]) <= NESTING_LIMIT, items[0],
                depth + Deepest(items[1..]) <= NESTING_LIMIT, items[1..],
                p + |Items(items[1..], format, indent)| + 1);
      assert [items[0]] + items[1..] == items;
    }
  }

  lemma FirstItemReads(v: Value, format: bool, indent: nat, rest: string, c: string, o: nat, depth: nat)
    requires Terminated(c) && Good(v) && depth <= NESTING_LIMIT
    requires StartsAt(c, o, Text(v, format, indent) + rest)
    requires |rest| > 0 && (rest[0] == ']' || rest[0] == ',')
    ensures
      var q := o + |Text(v, format, indent)|;
      && o < q < |c| && StartsAt(c, q, rest) && c[q] == rest[0] && Skip(c, q) == q
      && ParseValue(c, Skip(c, o), depth) == Expect(depth + Nesting(v) <= NESTING_LIMIT, v, q)
    decreases v, 1
  {
    hide Escaped, Converted, Numeral, Text, ParseValue, Good, Nesting;
    var text := Text(v, format, indent);
    StartsSplit(c, o, text, rest);
    StartsWith(c, o + |text|, rest, 0);
    TextOpens(v, format, indent);
    StartsWith(c, o, text, 0);
    TextReads(v, format, indent, c, o, depth);
  }

  lemma LastItem(c: string, o: nat, q: nat, depth: nat, fits: bool, v: Value)
    requires Terminated(c) && o < |c| && q < |c| && ParseValue(c, Skip(c, o), depth) == Expect(fits, v, q)
    requires c[Skip(c, q)] == ']'
    ensures ParseItems(c, o, depth) == Expect(fits, [v], Skip(c, q) + 1)
  {
    hide ParseValue, Skip;
  }

  lemma MoreItems(c: string, o: nat, q: nat, p: nat, depth: nat, fits: bool, v: Value,
                  restFits: bool, rest: seq<Value>, n: nat)
    requires Terminated(c) && o < |c| && q < |c| && ParseValue(c, Skip(c, o), depth) == Expect(fits, v, q)
    requires c[Skip(c, q)] == ',' && Skip(c, q) + 1 < |c| && p < |c| && Skip(c, Skip(c, q) + 1) == Skip(c, p)
    requires ParseItems(c, p, depth) == Expect(restFits, rest, n)
    ensures ParseItems(c, o, depth) == Expect(fits && restFits, [v] + rest, n)
  {
    hide ParseValue, Skip;
  }

  lemma CommaSkips(c: string, q: nat, format: bool)
    requires StartsAt(c, q, Comma(format)) && q + |Comma(format)| < |c|
    ensures c[q] == ',' && Skip(c, q + 1) == Skip(c, q + |Comma(format)|)
  {
    StartsWith(c, q, Comma(format), 0);
    if format {
      StartsWith(c, q, Comma(format), 1);
    }
  }

  lemma {:induction false} SkipTwice(c: string, o: nat)
    requires o < |c|
    ensures Skip(c, Skip(c, o)) == Skip(c, o)
    decreases |c| - o
  {
    if c[o] <= ' ' && o + 1 < |c| {
      SkipTwice(c, o + 1);
    }
  }

  /** A member's text, with what comes after it. */
  function MemberText(m: Member, format: bool, indent: nat, tail: string): string {
    Indent(format, indent) + (Quoted(m.key) + (Colon(format) + (Text(m.value, format, indent) + tail)))
  }

  lemma MemberSplit(m: Member, format: bool, indent: nat, tail: string, c: string, o: nat)
    requires StartsAt(c, o, MemberText(m, format, indent, tail))
    ensures
      var k := o + |Indent(format, indent)|;
      var q := k + |Quoted(m.key)|;
      var v := q + |Colon(format)|;
      && StartsAt(c, o, Indent(format, indent)) && StartsAt(c, k, Quoted(m.key)) && StartsAt(c, q, Colon(format))
      && StartsAt(c, v, Text(m.value, format, indent)) && StartsAt(c, v + |Text(m.value, format, indent)|, tail)
  {
    hide StartsAt, Quoted, Text, Indent, Colon;
    var text := Text(m.value, format, indent);
    var k := o + |Indent(format, indent)|;
    var q := k + |Quoted(m.key)|;
    StartsSplit(c, o, Indent(format, indent), Quoted(m.key) + (Colon(format) + (text + tail)));
    StartsSplit(c, k, Quoted(m.key), Colon(format) + (text + tail));
    StartsSplit(c, q, Colon(format), text + tail);
    StartsSplit(c, q + |Colon(format)|, text, tail);
  }

  lemma MemberReads(m: Member, format: bool, indent: nat, tail: string, c: string, o: nat, depth: nat)
    requires Terminated(c) && NoNul(m.key) && Good(m.value) && depth <= NESTING_LIMIT
    requires |tail| > 0 && !NumberChar(tail[0])
    requires StartsAt(c, o, MemberText(m, format, indent, tail))
    ensures
      var q := o + |MemberText(m, format, indent, "")|;
      && o < q < |c| && StartsAt(c, q, tail)
      && ParseMember(c, o, depth) == Expect(depth + Nesting(m.value) <= NESTING_LIMIT, m, q)
    decreases m.value, 1
  {
    hide Escaped, Converted, Numeral, Text, Quoted, Indent, Colon, ParseValue, ParseString, Skip, Good, Nesting,
      NumberChar, StartsAt, ParseMember;
    var text := Text(m.value, format, indent);
    var k := o + |Indent(format, indent)|;
    var q := k + |Quoted(m.key)|;
    var v := q + |Colon(format)|;
    MemberSplit(m, format, indent, tail, c, o);
    StartsWith(c, v + |text|, tail, 0);
    QuotedReads(c, k, m.key);
    StartsWith(c, k, Quoted(m.key), 0);
    IndentSkips(c, o, format, indent);
    TextOpens(m.value, format, indent);
    StartsWith(c, v, text, 0);
    StartsWithin(c, v + |text|, tail);
    ColonSkips(c, q, format);
    TextReads(m.value, format, indent, c, v, depth);
    MemberCompose(c, o, k, q, v, depth, depth + Nesting(m.value) <= NESTING_LIMIT, m, v + |text|);
  }

  lemma StartsWithin(c: string, o: nat, t: string)
    requires StartsAt(c, o, t)
    ensures o + |t| <= |c|
  {}

  lemma MemberCompose(c: string, o: nat, k: nat, q: nat, v: nat, depth: nat, fits: bool, m: Member, n: nat)
    requires Terminated(c) && o < |c| && Skip(c, o) == k && ParseString(c, k) == Ok(m.key, q)
    requires q + 1 < |c| && Skip(c, q) == q && c[q] == ':' && Skip(c, q + 1) == v
    requires ParseValue(c, v, depth) == Expect(fits, m.value, n)
    ensures ParseMember(c, o, depth) == Expect(fits, m, n)
  {
    hide ParseString, ParseValue, Skip;
  }

  lemma IndentSkips(c: string, o: nat, format: bool, indent: nat)
    requires StartsAt(c, o, Indent(format, indent))
    requires o + |Indent(format, indent)| < |c| && c[o + |Indent(format, indent)|] > ' '
    ensures Skip(c, o) == o + |Indent(format, indent)|
  {
    SkipBlanks(c, o, Indent(format, indent));
  }

  lemma ColonSkips(c: string, q: nat, format: bool)
    requires StartsAt(c, q, Colon(format))
    requires q + |Colon(format)| < |c| && c[q + |Colon(format)|] > ' '
    ensures Skip(c, q) == q && c[q] == ':' && Skip(c, q + 1) == q + |Colon(format)|
  {
    StartsWith(c, q, Colon(format), 0);
    if format {
      StartsWith(c, q, Colon(format), 1);
    }
  }

  /** What follows a member: the rest of the object. */
  function MemberTail(rest: seq<Member>, format: bool, indent: nat): string {
    Ending(format, |rest| > 0) + (Members(rest, format, indent + 1) + Closing(format, indent))
  }

  lemma MembersSplit(members: seq<Member>, format: bool, indent: nat)
    requires |members| > 0
    ensures
      Members(members, format, indent + 1) + Closing(format, indent)
      == MemberText(members[0], format, indent + 1, MemberTail(members[1..], format, indent))
    ensures
      |Members(members, format, indent + 1)|
      == |MemberText(members[0], format, indent + 1, "")| + |Ending(format, |members| > 1)|
         + |Members(members[1..], format, indent + 1)|
  {
    hide Text, Indent, Quoted, Colon, Ending, Closing;
    var m := members[0];
    var a, b, d, e := Indent(format, indent + 1), Quoted(m.key), Colon(format), Text(m.value, format, indent + 1);
    var f, g, h := Ending(format, |members| > 1), Members(members[1..], format, indent + 1), Closing(format, indent);
    SixJoined(a, b, d, e, f, g, h);
  }

  lemma SixJoined(a: string, b: string, d: string, e: string, f: string, g: string, h: string)
    ensures a + b + d + e + f + g + h == a + (b + (d + (e + (f + (g + h)))))
  {}

  /** The end of an object: only blanks before the brace. */
  lemma ObjectEnds(c: string, q: nat, format: bool, indent: nat)
    requires StartsAt(c, q, MemberTail([], format, indent))
    ensures
      var e := q + |MemberTail([], format, indent)| - 1;
      q < |c| && e < |c| && Skip(c, q) == e && c[e] == '}'
    ensures !NumberChar(MemberTail([], format, indent)[0])
  {
    var blanks := if format then "\n" + Tabs(indent) else "";
    LastTail(format, indent, blanks);
    BraceAfter(c, q, blanks);
  }

  lemma LastTail(format: bool, indent: nat, blanks: string)
    requires blanks == if format then "\n" + Tabs(indent) else ""
    ensures MemberTail([], format, indent) == blanks + "}"
  {
    NoMembers([], format, indent + 1);
  }

  lemma BraceAfter(c: string, q: nat, blanks: string)
    requires StartsAt(c, q, blanks + "}") && forall i :: 0 <= i < |blanks| ==> blanks[i] <= ' '
    ensures q + |blanks| < |c| && Skip(c, q) == q + |blanks| && c[q + |blanks|] == '}'
  {
    hide Skip;
    StartsSplit(c, q, blanks, "}");
    StartsWith(c, q + |blanks|, "}", 0);
    SkipBlanks(c, q, blanks);
  }

  lemma MoreFollow(c: string, q: nat, rest: seq<Member>, format: bool, indent: nat)
    requires |rest| > 0 && StartsAt(c, q, MemberTail(rest, format, indent))
    ensures
      var p := q + |Ending(format, true)|;
      && q + 1 < |c| && c[q] == ',' && Skip(c, q) == q
      && p < |c| && StartsAt(c, p, Members(rest, format, indent + 1) + Closing(format, indent))
      && Skip(c, q + 1) == Skip(c, p)
    ensures MemberTail(rest, format, indent)[0] == ','
  {
    hide Members, Closing, StartsAt;
    var more := Members(rest, format, indent + 1) + Closing(format, indent);
    StartsSplit(c, q, Ending(format, true), more);
    StartsWith(c, q, Ending(format, true), 0);
    ClosingNonempty(format, indent);
    StartsWith(c, q + |Ending(format, true)|, more, 0);
    StartsWithin(c, q + |Ending(format, true)|, more);
    if format {
      StartsWith(c, q, Ending(format, true), 1);
    }
  }

  lemma ClosingNonempty(format: bool, indent: nat)
    ensures |Closing(format, indent)| > 0
  {}

  lemma LastMember(c: string, o: nat, q: nat, depth: nat, fits: bool, m: Member)
    requires Terminated(c) && o < |c| && q < |c| && ParseMember(c, o, depth) == Expect(fits, m, q)
    requires c[Skip(c, q)] == '}'
    ensures ParseMembers(c, o, depth) == Expect(fits, [m], Skip(c, q) + 1)
  {
    hide ParseMember, Skip;
  }

  lemma MoreMembers(c: string, o: nat, q: nat, p: nat, depth: nat, fits: bool, m: Member,
                    restFits: bool, rest: seq<Member>, n: nat)
    requires Terminated(c) && o < |c| && q < |c| && ParseMember(c, o, depth) == Expect(fits, m, q)
    requires c[Skip(c, q)] == ',' && Skip(c, q) + 1 < |c| && p < |c| && Skip(c, Skip(c, q) + 1) == Skip(c, p)
    requires ParseMembers(c, p, depth) == Expect(restFits, rest, n)
    ensures ParseMembers(c, o, depth) == Expect(fits && restFits, [m] + rest, n)
  {
    hide ParseMember, Skip;
    MembersSkip(c, Skip(c, q) + 1, p, depth);
  }

  /** Only the next character that is not blank matters to the list of members. */
  lemma MembersSkip(c: string, o: nat, p: nat, depth: nat)
    requires Terminated(c) && o < |c| && p < |c| && Skip(c, o) == Skip(c, p)
    ensures ParseMembers(c, o, depth) == ParseMembers(c, p, depth)
  {
    hide ParseValue, ParseString, Skip;
  }

  lemma {:induction false} MembersRead(members: seq<Member>, format: bool, indent: nat, c: string, o: nat, depth: nat)
    requires Terminated(c) && |members| > 0
    requires forall i :: 0 <= i < |members| ==> NoNul(members[i].key) && Good(members[i].value)
    requires depth <= NESTING_LIMIT
    requires StartsAt(c, o, Members(members, format, indent + 1) + Closing(format, indent))
    ensures o < |c|
    ensures ParseMembers(c, o, depth)
      == Expect(depth + DeepestMember(members) <= NESTING_LIMIT, members,
                o + |Members(members, format, indent + 1)| + |Closing(format, indent)|)
    decreases members, 0
  {
    hide Text, Quoted, Indent, Colon, Closing, MemberText, Members, ParseMember, ParseMembers, Skip, Good,
      Nesting, NumberChar, StartsAt, Ending;
    var m, rest := members[0], members[1..];
    var tail := MemberTail(rest, format, indent);
    MembersSplit(members, format, indent);
    ClosingNonempty(format, indent);
    var q := o + |MemberText(m, format, indent + 1, "")|;
    TailOpens(rest, format, indent);
    MemberReads(m, format, indent + 1, tail, c, o, depth);
    if |rest| == 0 {
      assert rest == [];
      ObjectEnds(c, q, format, indent);
      LastMember(c, o, q, depth, depth + Nesting(m.value) <= NESTING_LIMIT, m);
      assert [m] == members && DeepestMember(rest) == 0;
    } else {
      var p := q + |Ending(format, true)|;
      MoreFollow(c, q, rest, format, indent);
      MembersRead(rest, format, indent, c, p, depth);
      MoreMembers(c, o, q, p, depth, depth + Nesting(m.value) <= NESTING_LIMIT, m,
                  depth + DeepestMember(rest) <= NESTING_LIMIT, rest,
                  p + |Members(rest, format, indent + 1)| + |Closing(format, indent)|);
      assert [m] + rest == members;
    }
  }

  lemma TailOpens(rest: seq<Member>, format: bool, indent: nat)
    ensures |MemberTail(rest, format, indent)| > 0 && !NumberChar(MemberTail(rest, format, indent)[0])
  {
    hide Members;
    if |rest| == 0 {
      assert Members(rest, format, indent + 1) == "" by {
        NoMembers(rest, format, indent + 1);
      }
    }
  }

  lemma NoMembers(members: seq<Member>, format: bool, indent: nat)
    requires |members| == 0
    ensures Members(members, format, indent) == ""
  {}

  lemma OpeningSkips(c: string, o: nat, format: bool)
    requires StartsAt(c, o, Opening(format)) && o + |Opening(format)| < |c|
    ensures o + 1 < |c| && c[o] == '{' && Skip(c, o + 1) == Skip(c, o + |Opening(format)|)
  {
    StartsWith(c, o, Opening(format), 0);
    if format {
      StartsWith(c, o, Opening(format), 1);
    }
  }

  /** Where the first name of an object is. */
  lemma FirstName(members: seq<Member>, format: bool, indent: nat, c: string, o: nat)
    requires |members| > 0
    requires StartsAt(c, o, Opening(format) + (Members(members, format, indent + 1) + Closing(format, indent)))
    ensures
      var b := o + |Opening(format)|;
      && o + 1 < |c| && c[o] == '{'
      && StartsAt(c, b, Members(members, format, indent + 1) + Closing(format, indent))
      && b < |c| && Skip(c, o + 1) == Skip(c, b) && c[Skip(c, b)] == '\"'
  {
    hide Members, Closing, StartsAt, Opening, Indent, Quoted, Skip, MemberText, MemberTail;
    var b := o + |Opening(format)|;
    var body := Members(members, format, indent + 1) + Closing(format, indent);
    StartsSplit(c, o, Opening(format), body);
    ClosingNonempty(format, indent);
    StartsWithin(c, b, body);
    OpeningSkips(c, o, format);
    MembersSplit(members, format, indent);
    MemberSplit(members[0], format, indent + 1, MemberTail(members[1..], format, indent), c, b);
    var k := b + |Indent(format, indent + 1)|;
    StartsWith(c, k, Quoted(members[0].key), 0);
    StartsWithin(c, k, Quoted(members[0].key));
    IndentSkips(c, b, format, indent + 1);
  }

  lemma {:induction false} ObjectReads(members: seq<Member>, format: bool, indent: nat, c: string, o: nat, depth: nat)
    requires Terminated(c) && Good(Object(members)) && depth <= NESTING_LIMIT
    requires StartsAt(c, o, Text(Object(members), format, indent))
    ensures o < |c| && c[o] == '{'
    ensures ParseObject(c, o, depth)
      == Expect(depth + 1 + DeepestMember(members) <= NESTING_LIMIT, Object(members),
                o + |Text(Object(members), format, indent)|)
    decreases members, 1
  {
    hide Members, Closing, Opening, ParseMembers, Skip, StartsAt;
    var inner, close := Members(members, format, indent + 1), Closing(format, indent);
    assert Opening(format) + inner + close == Opening(format) + (inner + close);
    if |members| == 0 {
      NoMembers(members, format, indent + 1);
      assert inner + close == close;
      EmptyObject(c, o, format, indent);
      assert members == [] && DeepestMember(members) == 0;
    } else {
      FirstName(members, format, indent, c, o);
      var b := o + |Opening(format)|;
      SkipTwice(c, o + 1);
      if depth < NESTING_LIMIT {
        MembersRead(members, format, indent, c, b, depth + 1);
        MembersSkip(c, b, Skip(c, o + 1), depth + 1);
      }
    }
  }

  lemma EmptyObject(c: string, o: nat, format: bool, indent: nat)
    requires StartsAt(c, o, Opening(format) + Closing(format, indent))
    ensures
      var e := o + |Opening(format)| + |Closing(format, indent)| - 1;
      o + 1 < |c| && e < |c| && c[o] == '{' && Skip(c, o + 1) == e && c[e] == '}'
  {
    var blanks := if format then "\n" + Tabs(indent) else "";
    assert Opening(format) + Closing(format, indent) == "{" + (blanks + "}");
    StartsSplit(c, o, "{", blanks + "}");
    StartsWith(c, o, "{", 0);
    BraceAfter(c, o + 1, blanks);
  }

  /** Either print of a tree of C strings and numerals is parsed back to the same tree, whether or not the
      whole text is asked for, exactly if the tree is nested at most as deep as the parser goes. */
  lemma RoundTrip(v: Value, format: bool, whole: bool)
    requires Good(v)
    ensures NoNul(Text(v, format, 0))
    ensures Parse(Text(v, format, 0), whole)
      == if Nesting(v) <= NESTING_LIMIT then Ok(v, |Text(v, format, 0)|) else Fail
  {
    hide Text, ParseValue, NumberChar, Good, Nesting;
    var text := Text(v, format, 0);
    TextNoNul(v, format, 0);
    var c := text + "\0";
    TextOpens(v, format, 0);
    NoMark(c);
    SkipNone(c, 0);
    NulNoNumber();
    assert StartsAt(c, 0, text);
    TextReads(v, format, 0, c, 0, 0);
  }

  lemma NulNoNumber()
    ensures !NumberChar('\0')
  {}

  lemma NoMark(c: string)
    requires |c| > 0 && Opener(c[0])
    ensures !StartsAt(c, 0, BYTE_ORDER_MARK)
  {
    NotStarting(c, 0, BYTE_ORDER_MARK);
  }
}
