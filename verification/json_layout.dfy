/** The layout of a formatted text: what a single pass over the unformatted one makes of it, without knowing the
    value. */
module JsonLayout {
  import opened JsonText

  datatype Quote = Outside | Inside | Escaping

  function Closed(open: string): string {
    if |open| == 0 then open else open[..|open| - 1]
  }

  /** Lays a text out inside brackets that are open, the innermost last: members stand on lines of their own behind as
      many tabs as brackets are open, elements on one line. `begun` says that a line has just begun. */
  function Laid(t: string, open: string, begun: bool, quote: Quote): string
    decreases |t|, 0
  {
    if |t| == 0 then ""
    else
      var c, rest := t[0], t[1..];
      match quote
      case Escaping => [c] + Laid(rest, open, false, Inside)
      case Inside =>
        [c] + Laid(rest, open, false, if c == '\"' then Outside else if c == '\\' then Escaping else Inside)
      case Outside =>
        if c == '}' then
          (if begun then "" else "\n") + Tabs(|Closed(open)|) + "}" + Laid(rest, Closed(open), false, Outside)
        else (if begun then Tabs(|open|) else "") + LaidOn(c, rest, open)
  }

  /** A character other than a closing brace. */
  function LaidOn(c: char, rest: string, open: string): string
    decreases |rest|, 1
  {
    if c == '{' then "{\n" + Laid(rest, open + "{", true, Outside)
    else if c == '[' then "[" + Laid(rest, open + "[", false, Outside)
    else if c == ']' then "]" + Laid(rest, Closed(open), false, Outside)
    else if c == ':' then ":\t" + Laid(rest, open, false, Outside)
    else if c == '\"' then "\"" + Laid(rest, open, false, Inside)
    else if c != ',' then [c] + Laid(rest, open, false, Outside)
    else if |open| > 0 && open[|open| - 1] == '{' then ",\n" + Laid(rest, open, true, Outside)
    else ", " + Laid(rest, open, false, Outside)
  }

  // ---- strings and other tokens ------------------------------------------------------------

  predicate Plain(c: char) {
    c !in "{}[]:,\""
  }

  lemma {:induction false} LaidPlain(t: string, open: string, rest: string)
    requires forall i :: 0 <= i < |t| ==> Plain(t[i])
    ensures Laid(t + rest, open, false, Outside) == t + Laid(rest, open, false, Outside)
  {
    if |t| == 0 {
      assert t + rest == rest;
    } else {
      assert (t + rest)[1..] == t[1..] + rest;
      LaidPlain(t[1..], open, rest);
    }
  }

  predicate Unquoted(t: string) {
    '\"' !in t && '\\' !in t
  }

  lemma {:induction false} LaidInside(t: string, open: string, rest: string)
    requires Unquoted(t)
    ensures Laid(t + rest, open, false, Inside) == t + Laid(rest, open, false, Inside)
  {
    if |t| == 0 {
      assert t + rest == rest;
    } else {
      assert (t + rest)[1..] == t[1..] + rest;
      LaidInside(t[1..], open, rest);
    }
  }

  /** An escaped character is a plain one, or a backslash, another character and plain ones. */
  lemma EscapeParts(c: char)
    ensures var e := Escape(c); if e[0] == '\\' then |e| >= 2 && Unquoted(e[2..]) else Unquoted(e)
  {
    var e := Escape(c);
    if |e| == 6 {
      var h, l := HexDigit(c as nat / 16), HexDigit(c as nat % 16);
      HexUnquoted(c as nat / 16);
      HexUnquoted(c as nat % 16);
      assert e[2..] == ['0', '0', h, l];
    } else if |e| == 2 {
      assert e[2..] == "";
    } else {
      assert e == [c];
    }
  }

  lemma HexUnquoted(n: nat)
    requires n < 16
    ensures HexDigit(n) != '\"' && HexDigit(n) != '\\'
  {}

  lemma BackslashPasses(x: char, open: string, rest: string)
    ensures Laid(['\\', x] + rest, open, false, Inside) == ['\\', x] + Laid(rest, open, false, Inside)
  {
    var t := ['\\', x] + rest;
    assert t[1..] == [x] + rest && ([x] + rest)[1..] == rest;
    assert Laid([x] + rest, open, false, Escaping) == [x] + Laid(rest, open, false, Inside);
  }

  lemma LaidEscape(c: char, open: string, rest: string)
    ensures Laid(Escape(c) + rest, open, false, Inside) == Escape(c) + Laid(rest, open, false, Inside)
  {
    EscapeParts(c);
    hide Escape, Laid;
    var e := Escape(c);
    if e[0] == '\\' {
      LaidInside(e[2..], open, rest);
      BackslashPasses(e[1], open, e[2..] + rest);
      assert e + rest == ['\\', e[1]] + (e[2..] + rest);
      assert ['\\', e[1]] + (e[2..] + Laid(rest, open, false, Inside)) == e + Laid(rest, open, false, Inside);
    } else {
      LaidInside(e, open, rest);
    }
  }

  lemma {:induction false} LaidString(s: string, open: string, rest: string)
    ensures Laid(Escaped(s) + ("\"" + rest), open, false, Inside)
      == Escaped(s) + ("\"" + Laid(rest, open, false, Outside))
  {
    hide Escape;
    if |s| == 0 {
      assert Escaped(s) + ("\"" + rest) == "\"" + rest;
      assert ("\"" + rest)[1..] == rest;
    } else {
      LaidString(s[1..], open, rest);
      LaidEscape(s[0], open, Escaped(s[1..]) + ("\"" + rest));
      assert Escaped(s) + ("\"" + rest) == Escape(s[0]) + (Escaped(s[1..]) + ("\"" + rest));
    }
  }

  lemma LaidQuoted(s: string, open: string, begun: bool, rest: string)
    ensures Laid(Quoted(s) + rest, open, begun, Outside)
      == (if begun then Tabs(|open|) else "") + (Quoted(s) + Laid(rest, open, false, Outside))
  {
    hide Escaped;
    LaidString(s, open, rest);
    var t := Quoted(s) + rest;
    assert t[1..] == Escaped(s) + ("\"" + rest);
    var behind := Laid(rest, open, false, Outside);
    assert Quoted(s) + behind == "\"" + (Escaped(s) + ("\"" + behind));
  }

  // ---- values ------------------------------------------------------------------------------

  lemma NumeralPlain(token: string)
    requires Numeral(token)
    ensures forall i :: 0 <= i < |token| ==> Plain(token[i])
  {
    hide Converted;
    forall i | 0 <= i < |token|
      ensures Plain(token[i])
    {
      assert NumberChar(token[i]);
    }
  }

  /** A value within brackets is laid out as it is printed at their depth, and what follows by itself. */
  lemma {:induction false} LaidValue(v: Value, open: string, rest: string)
    requires Good(v)
    ensures Laid(Text(v, false, |open|) + rest, open, false, Outside)
      == Text(v, true, |open|) + Laid(rest, open, false, Outside)
    decreases v, 2
  {
    hide Quoted, Items, Members, Laid, Numeral;
    match v {
      case Null => LaidPlain("null", open, rest);
      case False => LaidPlain("false", open, rest);
      case True => LaidPlain("true", open, rest);
      case Number(token) =>
        NumeralPlain(token);
        LaidPlain(token, open, rest);
      case String(text) => LaidQuoted(text, open, false, rest);
      case Array(items) => LaidArray(items, open, rest);
      case Object(members) => LaidObject(members, open, rest);
    }
  }

  lemma {:induction false} LaidArray(items: seq<Value>, open: string, rest: string)
    requires Good(Array(items))
    ensures Laid(Text(Array(items), false, |open|) + rest, open, false, Outside)
      == Text(Array(items), true, |open|) + Laid(rest, open, false, Outside)
    decreases items, 1
  {
    hide Items, Laid;
    var inner := open + "[";
    LaidItems(items, inner, rest);
    assert Closed(inner) == open;
    BracketOpens(open, Items(items, false, |inner|) + ("]" + rest));
    assert Text(Array(items), false, |open|) + rest == "[" + (Items(items, false, |inner|) + ("]" + rest));
    assert Text(Array(items), true, |open|) + Laid(rest, open, false, Outside)
      == "[" + (Items(items, true, |inner|) + ("]" + Laid(rest, open, false, Outside)));
  }

  lemma {:induction false} LaidItems(items: seq<Value>, open: string, rest: string)
    requires |open| > 0 && open[|open| - 1] == '[' && forall i :: 0 <= i < |items| ==> Good(items[i])
    ensures Laid(Items(items, false, |open|) + ("]" + rest), open, false, Outside)
      == Items(items, true, |open|) + ("]" + Laid(rest, Closed(open), false, Outside))
    decreases items, 0
  {
    hide Text, Laid;
    var last := "]" + Laid(rest, Closed(open), false, Outside);
    BracketCloses(open, rest);
    if |items| == 0 {
      assert Items(items, false, |open|) + ("]" + rest) == "]" + rest;
      assert Items(items, true, |open|) + last == last;
    } else if |items| == 1 {
      LaidValue(items[0], open, "]" + rest);
    } else {
      hide Items;
      var more := Items(items[1..], false, |open|) + ("]" + rest);
      LaidItems(items[1..], open, rest);
      LaidValue(items[0], open, "," + more);
      CommaInArray(open, more);
      ItemsFront(items, false, |open|, "]" + rest);
      ItemsFront(items, true, |open|, last);
    }
  }

  lemma ItemsFront(items: seq<Value>, format: bool, depth: nat, tail: string)
    requires |items| > 1
    ensures Items(items, format, depth) + tail
      == Text(items[0], format, depth) + (Comma(format) + (Items(items[1..], format, depth) + tail))
  {
    hide Text, Comma;
  }

  lemma BracketOpens(open: string, rest: string)
    ensures Laid("[" + rest, open, false, Outside) == "[" + Laid(rest, open + "[", false, Outside)
  {
    assert ("[" + rest)[1..] == rest;
  }

  lemma BraceOpens(open: string, rest: string)
    ensures Laid("{" + rest, open, false, Outside) == "{\n" + Laid(rest, open + "{", true, Outside)
  {
    assert ("{" + rest)[1..] == rest;
  }

  lemma BracketCloses(open: string, rest: string)
    ensures Laid("]" + rest, open, false, Outside) == "]" + Laid(rest, Closed(open), false, Outside)
  {
    assert ("]" + rest)[1..] == rest;
  }

  lemma CommaInArray(open: string, rest: string)
    requires |open| > 0 && open[|open| - 1] == '['
    ensures Laid("," + rest, open, false, Outside) == ", " + Laid(rest, open, false, Outside)
  {
    assert ("," + rest)[1..] == rest;
  }

  lemma CommaInObject(open: string, rest: string)
    requires |open| > 0 && open[|open| - 1] == '{'
    ensures Laid("," + rest, open, false, Outside) == ",\n" + Laid(rest, open, true, Outside)
  {
    assert ("," + rest)[1..] == rest;
  }

  lemma BraceCloses(open: string, begun: bool, rest: string)
    ensures Laid("}" + rest, open, begun, Outside)
      == (if begun then "" else "\n") + Tabs(|Closed(open)|) + "}" + Laid(rest, Closed(open), false, Outside)
  {
    assert ("}" + rest)[1..] == rest;
  }

  lemma ColonPasses(open: string, rest: string)
    ensures Laid(":" + rest, open, false, Outside) == ":\t" + Laid(rest, open, false, Outside)
  {
    assert (":" + rest)[1..] == rest;
  }

  lemma {:induction false} LaidObject(members: seq<Member>, open: string, rest: string)
    requires Good(Object(members))
    ensures Laid(Text(Object(members), false, |open|) + rest, open, false, Outside)
      == Text(Object(members), true, |open|) + Laid(rest, open, false, Outside)
    decreases members, 1
  {
    hide Members, Laid;
    var inner := open + "{";
    LaidMembers(members, inner, rest);
    assert Closed(inner) == open;
    BraceOpens(open, Members(members, false, |inner|) + ("}" + rest));
    assert Text(Object(members), false, |open|) + rest == "{" + (Members(members, false, |inner|) + ("}" + rest));
    assert Text(Object(members), true, |open|) + Laid(rest, open, false, Outside)
      == "{\n" + (Members(members, true, |inner|) + (Tabs(|open|) + "}" + Laid(rest, open, false, Outside)));
  }

  lemma {:induction false} LaidMembers(members: seq<Member>, open: string, rest: string)
    requires |open| > 0 && open[|open| - 1] == '{' && forall i :: 0 <= i < |members| ==> Good(members[i].value)
    ensures Laid(Members(members, false, |open|) + ("}" + rest), open, true, Outside)
      == Members(members, true, |open|) + (Tabs(|Closed(open)|) + "}" + Laid(rest, Closed(open), false, Outside))
    decreases members, 0
  {
    hide Text, Quoted, Laid;
    var last := Tabs(|Closed(open)|) + "}" + Laid(rest, Closed(open), false, Outside);
    if |members| == 0 {
      BraceCloses(open, true, rest);
      assert Members(members, false, |open|) + ("}" + rest) == "}" + rest;
      assert Members(members, true, |open|) + last == last;
      assert "" + Tabs(|Closed(open)|) == Tabs(|Closed(open)|);
    } else {
      var tail := Members(members[1..], false, |open|) + ("}" + rest);
      var next := Ending(false, |members| > 1) + tail;
      var value := Text(members[0].value, false, |open|);
      LaidQuoted(members[0].key, open, true, ":" + (value + next));
      ColonPasses(open, value + next);
      LaidValue(members[0].value, open, next);
      MembersFront(members, false, |open|, "}" + rest);
      MembersFront(members, true, |open|, last);
      LaidEnding(members, open, rest);
      var front := Quoted(members[0].key) + (":" + (value + next));
      assert "" + front == front;
    }
  }

  /** What is behind a member's value. */
  lemma LaidEnding(members: seq<Member>, open: string, rest: string)
    requires |members| > 0 && |open| > 0 && open[|open| - 1] == '{'
    requires forall i :: 0 <= i < |members| ==> Good(members[i].value)
    ensures
      var tail := Members(members[1..], false, |open|) + ("}" + rest);
      var last := Tabs(|Closed(open)|) + "}" + Laid(rest, Closed(open), false, Outside);
      Laid(Ending(false, |members| > 1) + tail, open, false, Outside)
      == Ending(true, |members| > 1) + (Members(members[1..], true, |open|) + last)
    decreases members[1..], 1
  {
    hide Laid, Members;
    var tail := Members(members[1..], false, |open|) + ("}" + rest);
    var last := Tabs(|Closed(open)|) + "}" + Laid(rest, Closed(open), false, Outside);
    if |members| > 1 {
      CommaInObject(open, tail);
      LaidMembers(members[1..], open, rest);
      assert Ending(false, true) + tail == "," + tail;
    } else {
      BraceCloses(open, false, rest);
      assert members[1..] == [];
      NoMembers(false, |open|, "}" + rest);
      NoMembers(true, |open|, last);
      assert Ending(false, false) + tail == "}" + rest;
      assert "\n" + Tabs(|Closed(open)|) + "}" + Laid(rest, Closed(open), false, Outside) == Ending(true, false) + last;
    }
  }

  lemma NoMembers(format: bool, depth: nat, tail: string)
    ensures Members([], format, depth) + tail == tail
  {}

  lemma MembersFront(members: seq<Member>, format: bool, depth: nat, tail: string)
    requires |members| > 0
    ensures
      var rest := Members(members[1..], format, depth) + tail;
      Members(members, format, depth) + tail
      == Indent(format, depth)
         + (Quoted(members[0].key)
            + (Colon(format) + (Text(members[0].value, format, depth) + (Ending(format, |members| > 1) + rest))))
  {
    hide Text, Quoted, Indent, Colon, Ending;
  }

  /** A text is formatted as the pass lays out the unformatted one. */
  lemma FormattedIsLaid(v: Value)
    requires Good(v)
    ensures Laid(Text(v, false, 0), "", false, Outside) == Text(v, true, 0)
  {
    LaidValue(v, "", "");
    assert Text(v, false, 0) + "" == Text(v, false, 0);
    assert Text(v, true, 0) + "" == Text(v, true, 0);
  }
}
