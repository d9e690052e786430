/** The minifier: a JSON text with its white space and comments taken out, in place. */
module JsonMinify {
  import opened JsonText
  import opened JsonGrammar
  import opened JsonRoundTrip
  import JsonPrinter
  import opened Options

  predicate Blank(x: char) {
    x == ' ' || x == '\t' || x == '\r' || x == '\n'
  }

  /** The closing quote of a literal, before the text ends. */
  function Literal(c: string, p: nat): (r: Parsed<()>)
    ensures r.Ok? ==> p <= r.next < |c|
    decreases |c| - p
  {
    if p >= |c| || c[p] == '\0' then Fail
    else if c[p] == '\"' then Ok((), p)
    else if c[p] == '\\' then
      if p + 1 >= |c| || c[p + 1] == '\0' then Fail else Literal(c, p + 2)
    else Literal(c, p + 1)
  }

  /** The line feed or terminator that ends a comment of one line. */
  function LineEnd(c: string, p: nat): (r: Parsed<()>)
    ensures r.Ok? ==> p <= r.next < |c| && (c[r.next] == '\0' || c[r.next] == '\n')
    decreases |c| - p
  {
    if p >= |c| then Fail else if c[p] == '\0' || c[p] == '\n' then Ok((), p) else LineEnd(c, p + 1)
  }

  /** Where a comment closes, before the text ends. */
  function CommentEnd(c: string, p: nat): (r: Parsed<()>)
    ensures r.Ok? ==> p <= r.next && r.next + 1 < |c|
    decreases |c| - p
  {
    if p + 1 >= |c| || c[p] == '\0' then Fail
    else if c[p] == '*' && c[p + 1] == '/' then Ok((), p)
    else CommentEnd(c, p + 1)
  }

  /** What is left of the text from `p` on. It fails if a literal or a comment is not closed. */
  function Minified(c: string, p: nat): Parsed<string>
    decreases |c| - p
  {
    if p >= |c| then Fail
    else if c[p] == '\0' then Ok("", p)
    else if Blank(c[p]) then Minified(c, p + 1)
    else if c[p] == '/' && p + 1 < |c| && c[p + 1] == '/' then
      (match LineEnd(c, p)
       case Fail => Fail
       case Ok(_, e) => Minified(c, e))
    else if c[p] == '/' && p + 1 < |c| && c[p + 1] == '*' then
      (match CommentEnd(c, p)
       case Fail => Fail
       case Ok(_, e) => Minified(c, e + 2))
    else if c[p] == '\"' then
      (match Literal(c, p + 1)
       case Fail => Fail
       case Ok(_, e) => Before(c[p..e + 1], Minified(c, e + 1)))
    else Before([c[p]], Minified(c, p + 1))
  }

  // ---- which texts are closed ----------------------------------------------------------------

  /** Where a character of a text stands: outside (after a slash or not), in one of the comments (after a star or
      not), or in a literal (after a backslash or not). */
  datatype Mode = Outside | Slashed | InLine | InComment | Starred | InLiteral | Escaping

  function After(m: Mode, x: char): Mode {
    match m
    case InLine => if x == '\n' then Outside else InLine
    case InComment => if x == '*' then Starred else InComment
    case Starred => if x == '/' then Outside else if x == '*' then Starred else InComment
    case InLiteral => if x == '\"' then Outside else if x == '\\' then Escaping else InLiteral
    case Escaping => InLiteral
    case _ =>
      if x == '\"' then InLiteral
      else if x != '/' then if m.Slashed? && x == '*' then Starred else Outside
      else if m.Slashed? then InLine
      else Slashed
  }

  /** The terminator comes outside of literals and comments, or ends a comment of one line. */
  predicate Closed(c: string, p: nat, m: Mode)
    decreases |c| - p
  {
    p < |c| && if c[p] == '\0' then m.Outside? || m.Slashed? || m.InLine? else Closed(c, p + 1, After(m, c[p]))
  }

  lemma {:induction false} LiteralClosed(c: string, p: nat)
    ensures Closed(c, p, InLiteral) <==> Literal(c, p).Ok? && Closed(c, Literal(c, p).next + 1, Outside)
    decreases |c| - p
  {
    if p < |c| && c[p] != '\0' && c[p] != '\"' {
      if c[p] != '\\' {
        LiteralClosed(c, p + 1);
      } else if p + 1 < |c| && c[p + 1] != '\0' {
        LiteralClosed(c, p + 2);
      }
    }
  }

  lemma {:induction false} LineClosed(c: string, p: nat)
    ensures Closed(c, p, InLine) <==> LineEnd(c, p).Ok? && Closed(c, LineEnd(c, p).next, Outside)
    decreases |c| - p
  {
    if p < |c| && c[p] != '\0' && c[p] != '\n' {
      LineClosed(c, p + 1);
    }
  }

  lemma {:induction false} CommentClosed(c: string, p: nat)
    ensures p + 1 < |c| && c[p] == '*' ==>
      (Closed(c, p + 1, Starred) <==> CommentEnd(c, p).Ok? && Closed(c, CommentEnd(c, p).next + 2, Outside))
    ensures Closed(c, p, InComment) <==> CommentEnd(c, p).Ok? && Closed(c, CommentEnd(c, p).next + 2, Outside)
    decreases |c| - p
  {
    if p + 1 < |c| && c[p] != '\0' {
      CommentClosed(c, p + 1);
    }
  }

  /** Exactly the closed texts can be minified. */
  lemma {:induction false} MinifiesIffClosed(c: string, p: nat)
    ensures Minified(c, p).Ok? <==> Closed(c, p, Outside)
    decreases |c| - p
  {
    hide LineEnd, Literal, CommentEnd;
    if p < |c| && c[p] != '\0' {
      MinifiesIffClosed(c, p + 1);
      if c[p] == '\"' {
        LiteralClosed(c, p + 1);
        if Literal(c, p + 1).Ok? {
          MinifiesIffClosed(c, Literal(c, p + 1).next + 1);
        }
      } else if c[p] == '/' && p + 1 < |c| {
        SlashOpens(c, p);
        if c[p + 1] == '/' && LineEnd(c, p + 2).Ok? {
          MinifiesIffClosed(c, LineEnd(c, p + 2).next);
        } else if c[p + 1] == '*' && CommentEnd(c, p + 1).Ok? {
          MinifiesIffClosed(c, CommentEnd(c, p + 1).next + 2);
        }
      }
    }
  }

  /** What a slash opens. */
  lemma SlashOpens(c: string, p: nat)
    requires p + 1 < |c| && c[p] == '/'
    ensures c[p + 1] == '/' ==>
      && LineEnd(c, p) == LineEnd(c, p + 2)
      && (Closed(c, p, Outside)
          <==> LineEnd(c, p + 2).Ok? && Closed(c, LineEnd(c, p + 2).next, Outside))
    ensures c[p + 1] == '*' ==>
      && CommentEnd(c, p) == CommentEnd(c, p + 1)
      && (Closed(c, p, Outside)
          <==> CommentEnd(c, p + 1).Ok? && Closed(c, CommentEnd(c, p + 1).next + 2, Outside))
    ensures c[p + 1] != '/' && c[p + 1] != '*' ==> (Closed(c, p, Outside) <==> Closed(c, p + 1, Outside))
  {
    assert Closed(c, p, Outside) <==> Closed(c, p + 1, Slashed);
    if c[p + 1] == '/' {
      assert LineEnd(c, p + 1) == LineEnd(c, p + 2);
      LineClosed(c, p + 2);
    } else if c[p + 1] == '*' {
      CommentClosed(c, p + 1);
    }
  }

  /** A text that is all literal is not closed: its terminator is read as part of the literal, and so is what lies
      behind. */
  lemma UnclosedLiteral()
    ensures var c := ['\"', 'a', '\0']; !Closed(c, 0, Outside) && Minified(c, 0) == Fail
  {
    var c := ['\"', 'a', '\0'];
    assert !Closed(c, 2, InLiteral);
    assert !Closed(c, 1, InLiteral);
    MinifiesIffClosed(c, 0);
  }

  /** Between `p` and `q`, just `out` is kept. */
  predicate Keeps(c: string, p: nat, q: nat, out: string) {
    Minified(c, p) == Before(out, Minified(c, q))
  }

  lemma KeepsBoth(c: string, p: nat, q: nat, r: nat, a: string, b: string)
    requires Keeps(c, p, q, a) && Keeps(c, q, r, b)
    ensures Keeps(c, p, r, a + b)
  {
    hide Minified;
    var m := Minified(c, r);
    if m.Ok? {
      assert a + (b + m.value) == (a + b) + m.value;
    }
  }

  lemma KeepsNothing(c: string, p: nat)
    ensures Keeps(c, p, p, "")
  {
    hide Minified;
    var m := Minified(c, p);
    if m.Ok? {
      assert "" + m.value == m.value;
    }
  }

  predicate Plain(x: char) {
    x != '\0' && !Blank(x) && x != '/' && x != '\"'
  }

  lemma {:induction false} PlainKept(c: string, p: nat, t: string)
    requires StartsAt(c, p, t) && forall i :: 0 <= i < |t| ==> Plain(t[i])
    ensures Keeps(c, p, p + |t|, t)
    decreases |t|
  {
    if |t| == 0 {
      KeepsNothing(c, p);
    } else {
      assert t == t[..1] + t[1..];
      StartsSplit(c, p, t[..1], t[1..]);
      StartsWith(c, p, t, 0);
      PlainKept(c, p + 1, t[1..]);
      assert t[..1] == [c[p]];
      assert Keeps(c, p, p + 1, [c[p]]);
      KeepsBoth(c, p, p + 1, p + |t|, t[..1], t[1..]);
    }
  }

  lemma {:induction false} BlanksDropped(c: string, p: nat, t: string)
    requires StartsAt(c, p, t) && forall i :: 0 <= i < |t| ==> Blank(t[i])
    ensures Keeps(c, p, p + |t|, "")
    decreases |t|
  {
    if |t| == 0 {
      KeepsNothing(c, p);
    } else {
      assert t == t[..1] + t[1..];
      StartsSplit(c, p, t[..1], t[1..]);
      StartsWith(c, p, t, 0);
      BlanksDropped(c, p + 1, t[1..]);
    }
  }

  lemma {:induction false} LiteralCloses(c: string, p: nat, e: nat)
    requires p <= |c| && CloseQuote(c, p) == Ok((), e) && NoNul(c[p..e])
    ensures Literal(c, p) == Ok((), e)
    decreases |c| - p
  {
    if c[p] == '\\' {
      assert e > p;
      assert c[p] == c[p..e][0];
      assert c[p + 2..e] == c[p..e][2..];
      assert c[p + 1] == c[p..e][1];
      LiteralCloses(c, p + 2, e);
    } else if c[p] != '\"' {
      assert c[p] == c[p..e][0];
      assert c[p + 1..e] == c[p..e][1..];
      LiteralCloses(c, p + 1, e);
    }
  }

  lemma QuotedKept(c: string, p: nat, s: string)
    requires NoNul(s) && StartsAt(c, p, Quoted(s))
    ensures Keeps(c, p, p + |Quoted(s)|, Quoted(s))
  {
    hide Escaped, CloseQuote, Literal;
    var e := p + 1 + |Escaped(s)|;
    assert Quoted(s) == "\"" + (Escaped(s) + "\"");
    StartsSplit(c, p, "\"", Escaped(s) + "\"");
    StartsWith(c, p, "\"", 0);
    EscapedCloses(c, p + 1, s);
    StartsSplit(c, p + 1, Escaped(s), "\"");
    EscapedNoNul(s);
    LiteralCloses(c, p + 1, e);
  }

  lemma {:induction false} TextMinifies(v: Value, depth: nat, c: string, p: nat)
    requires Good(v) && StartsAt(c, p, Text(v, true, depth))
    ensures Keeps(c, p, p + |Text(v, true, depth)|, Text(v, false, depth))
    decreases v, 0
  {
    hide Items, Members, Escaped, Quoted, Converted, Keeps, StartsAt;
    match v
    case Null => PlainKept(c, p, "null");
    case False => PlainKept(c, p, "false");
    case True => PlainKept(c, p, "true");
    case Number(token) => PlainKept(c, p, token);
    case String(text) => QuotedKept(c, p, text);
    case Array(items) => ArrayMinifies(items, depth, c, p);
    case Object(members) => ObjectMinifies(members, depth, c, p);
  }

  lemma {:induction false} ArrayMinifies(items: seq<Value>, depth: nat, c: string, p: nat)
    requires Good(Array(items)) && StartsAt(c, p, Text(Array(items), true, depth))
    ensures Keeps(c, p, p + |Text(Array(items), true, depth)|, Text(Array(items), false, depth))
    decreases items, 1
  {
    hide Items, Keeps, StartsAt;
    var t := Items(items, true, depth + 1);
    assert "[" + t + "]" == "[" + (t + "]");
    StartsSplit(c, p, "[", t + "]");
    StartsSplit(c, p + 1, t, "]");
    PlainKept(c, p, "[");
    ItemsMinify(items, depth + 1, c, p + 1);
    PlainKept(c, p + 1 + |t|, "]");
    KeepsBoth(c, p, p + 1, p + 1 + |t|, "[", Items(items, false, depth + 1));
    KeepsBoth(c, p, p + 1 + |t|, p + 2 + |t|, "[" + Items(items, false, depth + 1), "]");
  }

  lemma {:induction false} ItemsMinify(items: seq<Value>, depth: nat, c: string, p: nat)
    requires (forall i :: 0 <= i < |items| ==> Good(items[i])) && StartsAt(c, p, Items(items, true, depth))
    ensures Keeps(c, p, p + |Items(items, true, depth)|, Items(items, false, depth))
    decreases items, 0
  {
    hide Text, Keeps, StartsAt, Good;
    if |items| == 0 {
      KeepsNothing(c, p);
    } else if |items| == 1 {
      TextMinifies(items[0], depth, c, p);
    } else {
      var t, more := Text(items[0], true, depth), Items(items[1..], true, depth);
      var u, rest := Text(items[0], false, depth), Items(items[1..], false, depth);
      assert t + ", " + more == t + (", " + more);
      StartsSplit(c, p, t, ", " + more);
      StartsSplit(c, p + |t|, ", ", more);
      TextMinifies(items[0], depth, c, p);
      CommaKept(c, p + |t|);
      ItemsMinify(items[1..], depth, c, p + |t| + 2);
      KeepsBoth(c, p, p + |t|, p + |t| + 2, u, ",");
      KeepsBoth(c, p, p + |t| + 2, p + |t| + 2 + |more|, u + ",", rest);
    }
  }

  lemma CommaKept(c: string, p: nat)
    requires StartsAt(c, p, ", ")
    ensures Keeps(c, p, p + 2, ",")
  {
    hide Minified, Keeps;
    assert ", " == "," + " ";
    assert "," + "" == ",";
    StartsSplit(c, p, ",", " ");
    PlainKept(c, p, ",");
    BlanksDropped(c, p + 1, " ");
    KeepsBoth(c, p, p + 1, p + 2, ",", "");
  }

  /** Characters followed by blanks, of which only the characters stay. */
  lemma PlainThenBlanks(c: string, p: nat, t: string, blanks: string)
    requires StartsAt(c, p, t + blanks)
    requires forall i :: 0 <= i < |t| ==> Plain(t[i])
    requires forall i :: 0 <= i < |blanks| ==> Blank(blanks[i])
    ensures Keeps(c, p, p + |t + blanks|, t)
  {
    hide Keeps;
    StartsSplit(c, p, t, blanks);
    PlainKept(c, p, t);
    BlanksDropped(c, p + |t|, blanks);
    KeepsBoth(c, p, p + |t|, p + |t| + |blanks|, t, "");
    assert t + "" == t;
  }

  lemma BlanksThenPlain(c: string, p: nat, blanks: string, t: string)
    requires StartsAt(c, p, blanks + t)
    requires forall i :: 0 <= i < |t| ==> Plain(t[i])
    requires forall i :: 0 <= i < |blanks| ==> Blank(blanks[i])
    ensures Keeps(c, p, p + |blanks + t|, t)
  {
    hide Keeps;
    StartsSplit(c, p, blanks, t);
    BlanksDropped(c, p, blanks);
    PlainKept(c, p + |blanks|, t);
    KeepsBoth(c, p, p + |blanks|, p + |blanks| + |t|, "", t);
    assert "" + t == t;
  }

  lemma {:induction false} ObjectMinifies(members: seq<Member>, depth: nat, c: string, p: nat)
    requires Good(Object(members)) && StartsAt(c, p, Text(Object(members), true, depth))
    ensures Keeps(c, p, p + |Text(Object(members), true, depth)|, Text(Object(members), false, depth))
    decreases members, 1
  {
    hide Members, Keeps, StartsAt;
    var t, u := Members(members, true, depth + 1), Members(members, false, depth + 1);
    assert "{\n" + t + Closing(true, depth) == "{\n" + (t + Closing(true, depth));
    StartsSplit(c, p, "{\n", t + Closing(true, depth));
    StartsSplit(c, p + 2, t, Closing(true, depth));
    assert "{\n" == "{" + "\n";
    PlainThenBlanks(c, p, "{", "\n");
    MembersMinify(members, depth + 1, c, p + 2);
    BlanksThenPlain(c, p + 2 + |t|, Tabs(depth), "}");
    KeepsBoth(c, p, p + 2, p + 2 + |t|, "{", u);
    KeepsBoth(c, p, p + 2 + |t|, p + 2 + |t| + |Closing(true, depth)|, "{" + u, "}");
    UnformattedObject(members, depth);
  }

  lemma UnformattedObject(members: seq<Member>, depth: nat)
    ensures Text(Object(members), false, depth) == "{" + Members(members, false, depth + 1) + "}"
  {
    hide Members;
    assert Closing(false, depth) == "}";
  }

  lemma {:induction false} MembersMinify(members: seq<Member>, depth: nat, c: string, p: nat)
    requires forall i :: 0 <= i < |members| ==> NoNul(members[i].key) && Good(members[i].value)
    requires StartsAt(c, p, Members(members, true, depth))
    ensures Keeps(c, p, p + |Members(members, true, depth)|, Members(members, false, depth))
    decreases members, 0
  {
    hide Text, Keeps, StartsAt, Good, Quoted, Indent, Colon, Ending;
    if |members| == 0 {
      KeepsNothing(c, p);
    } else {
      var m, more := members[0], Members(members[1..], true, depth);
      var head := MemberHead(m, true, depth, |members| > 1);
      assert Members(members, true, depth) == head + more;
      StartsSplit(c, p, head, more);
      MemberMinifies(m, depth, |members| > 1, c, p);
      MembersMinify(members[1..], depth, c, p + |head|);
      KeepsBoth(c, p, p + |head|, p + |head| + |more|, MemberHead(m, false, depth, |members| > 1),
                Members(members[1..], false, depth));
      assert Members(members, false, depth)
        == MemberHead(m, false, depth, |members| > 1) + Members(members[1..], false, depth);
    }
  }

  function MemberHead(m: Member, format: bool, depth: nat, more: bool): string {
    Indent(format, depth) + Quoted(m.key) + Colon(format) + Text(m.value, format, depth) + Ending(format, more)
  }

  lemma MemberMinifies(m: Member, depth: nat, more: bool, c: string, p: nat)
    requires NoNul(m.key) && Good(m.value) && StartsAt(c, p, MemberHead(m, true, depth, more))
    ensures Keeps(c, p, p + |MemberHead(m, true, depth, more)|, MemberHead(m, false, depth, more))
    decreases m.value, 1
  {
    hide Text, Keeps, StartsAt, Good, Quoted;
    var i, k, t := Tabs(depth), Quoted(m.key), Text(m.value, true, depth);
    var u, e, f := Text(m.value, false, depth), Ending(true, more), Ending(false, more);
    assert MemberHead(m, true, depth, more) == i + (k + (":\t" + (t + e)));
    StartsSplit(c, p, i, k + (":\t" + (t + e)));
    StartsSplit(c, p + |i|, k, ":\t" + (t + e));
    var q := p + |i| + |k|;
    StartsSplit(c, q, ":\t", t + e);
    StartsSplit(c, q + 2, t, e);
    BlanksDropped(c, p, i);
    QuotedKept(c, p + |i|, m.key);
    KeepsBoth(c, p, p + |i|, q, "", k);
    assert ":\t" == ":" + "\t";
    PlainThenBlanks(c, q, ":", "\t");
    KeepsBoth(c, p, q, q + 2, "" + k, ":");
    TextMinifies(m.value, depth, c, q + 2);
    KeepsBoth(c, p, q + 2, q + 2 + |t|, "" + k + ":", u);
    EndingMinifies(c, q + 2 + |t|, more);
    KeepsBoth(c, p, q + 2 + |t|, q + 2 + |t| + |e|, "" + k + ":" + u, f);
  }

  lemma EndingMinifies(c: string, p: nat, more: bool)
    requires StartsAt(c, p, Ending(true, more))
    ensures Keeps(c, p, p + |Ending(true, more)|, Ending(false, more))
  {
    hide Keeps, StartsAt;
    if more {
      assert Ending(true, more) == "," + "\n" && Ending(false, more) == ",";
      PlainThenBlanks(c, p, ",", "\n");
    } else {
      assert Ending(true, more) == "\n" && Ending(false, more) == "";
      BlanksDropped(c, p, "\n");
    }
  }

  /** Minifying the formatted print of a tree gives its unformatted print. */
  lemma MinifiedPrint(v: Value, rest: string)
    requires Good(v)
    ensures Minified(Text(v, true, 0) + "\0" + rest, 0) == Ok(Text(v, false, 0), |Text(v, true, 0)|)
  {
    hide Text, StartsAt;
    var t := Text(v, true, 0);
    var c := t + "\0" + rest;
    assert StartsAt(c, 0, t) by {
      AtStart(c, t);
    }
    TextMinifies(v, 0, c, 0);
    assert Minified(c, |t|) == Ok("", |t|);
    assert Text(v, false, 0) + "" == Text(v, false, 0);
  }

  lemma AtStart(c: string, t: string)
    requires t <= c
    ensures StartsAt(c, 0, t)
  {}

  /** Minifies a text in place, up to its terminator. What is written never overtakes what is read, so the
      result is that of the text as it was; behind its terminator nothing changes. */
  method Minify(json: array<char>)
    requires Minified(json[..], 0).Ok?
    modifies json
    ensures
      var m := Minified(old(json[..]), 0).value;
      |m| < json.Length && json[..|m|] == m && json[|m|] == '\0' && json[|m| + 1..] == old(json[|m| + 1..])
  {
    hide Minified;
    ghost var c := json[..];
    var at, into := 0, 0;
    KeepsNothing(c, 0);
    NotEmpty(c);
    while json[at] != '\0'
      invariant 0 <= into <= at < |c| && Untouched(json, c, into)
      invariant Minified(c, 0) == Before(json[..into], Minified(c, at))
      decreases json.Length - at
    {
      Same(json, c, into, at);
      at, into := MinifyNext(json, at, into, c);
    }
    Same(json, c, into, at);
    AtEnd(c, at);
    json[into] := '\0';
    assert json[into + 1..] == c[into..][1..];
  }

  lemma NotEmpty(c: string)
    requires Minified(c, 0).Ok?
    ensures |c| > 0
  {}

  lemma AtEnd(c: string, at: nat)
    requires at < |c| && c[at] == '\0'
    ensures forall s: string :: Before(s, Minified(c, at)) == Ok(s, at)
  {
    forall s: string
      ensures Before(s, Minified(c, at)) == Ok(s, at)
    {
      assert s + "" == s;
    }
  }

  /** What a turn of the loop may rely on and keeps: the text from the write position on is as it was. */
  ghost predicate Untouched(json: array<char>, c: string, into: nat)
    reads json
  {
    json.Length == |c| && into <= |c| && json[into..] == c[into..]
  }

  lemma Same(json: array<char>, c: string, into: nat, i: nat)
    requires Untouched(json, c, into) && into <= i < |c|
    ensures json[i] == c[i]
  {
    assert json[into..][i - into] == c[into..][i - into];
  }

  /** One turn: a blank or a comment is passed over, a literal or any other character copied. */
  method MinifyNext(json: array<char>, at: nat, into: nat, ghost c: string) returns (next: nat, more: nat)
    requires Untouched(json, c, into) && into <= at < |c| && c[at] != '\0' && Minified(c, at).Ok?
    modifies json
    ensures at < next < |c| && more <= next && Untouched(json, c, more)
    ensures Before(json[..more], Minified(c, next)) == Before(old(json[..into]), Minified(c, at))
  {
    hide Literal, LineEnd, CommentEnd;
    next, more := at + 1, into;
    Same(json, c, into, at);
    if json[at] == ' ' {
    } else if json[at] == '\t' {
    } else if json[at] == '\r' {
    } else if json[at] == '\n' {
    } else {
      InBounds(c, at);
      Same(json, c, into, at + 1);
      if json[at] == '/' && json[at + 1] == '/' {
        next := SkipLine(json, at, c, into);
      } else if json[at] == '/' && json[at + 1] == '*' {
        next := SkipComment(json, at, c, into);
      } else if json[at] == '\"' {
        next, more := CopyLiteral(json, at, into, c);
      } else {
        more := CopyOne(json, at, into, c);
      }
    }
  }

  /** A text that minifies goes on after every character but the last. */
  lemma InBounds(c: string, at: nat)
    requires at < |c| && c[at] != '\0' && Minified(c, at).Ok?
    ensures at + 1 < |c|
  {}

  method CopyOne(json: array<char>, at: nat, into: nat, ghost c: string) returns (more: nat)
    requires Untouched(json, c, into) && into <= at && at + 1 < |c| && c[at] != '\0' && Minified(c, at).Ok?
    requires Minified(c, at) == Before([c[at]], Minified(c, at + 1))
    modifies json
    ensures more == into + 1 && Untouched(json, c, more)
    ensures Before(json[..more], Minified(c, at + 1)) == Before(old(json[..into]), Minified(c, at))
  {
    hide Minified;
    ghost var was := json[..into];
    Same(json, c, into, at);
    json[into] := json[at];
    more := into + 1;
    assert json[..more] == was + [c[at]];
    assert json[more..] == c[into..][1..] == c[more..];
    Joined(was, [c[at]], Minified(c, at + 1));
  }

  lemma Joined(a: string, b: string, r: Parsed<string>)
    ensures Before(a, Before(b, r)) == Before(a + b, r)
  {
    if r.Ok? {
      assert a + (b + r.value) == (a + b) + r.value;
    }
  }

  method SkipLine(json: array<char>, at: nat, ghost c: string, ghost into: nat) returns (next: nat)
    requires Untouched(json, c, into) && into <= at && at + 1 < |c| && c[at] == '/' && c[at + 1] == '/'
    requires Minified(c, at).Ok?
    ensures at < next < |c| && Minified(c, next) == Minified(c, at)
  {
    hide Minified;
    LineOf(c, at);
    next := at;
    Same(json, c, into, next);
    while json[next] != '\0' && json[next] != '\n'
      invariant at <= next < |c| && LineEnd(c, at) == LineEnd(c, next)
      invariant next == at ==> json[next] == '/'
      decreases |c| - next
    {
      Same(json, c, into, next);
      next := next + 1;
    }
    Same(json, c, into, next);
  }

  lemma LineOf(c: string, at: nat)
    requires at + 1 < |c| && c[at] == '/' && c[at + 1] == '/' && Minified(c, at).Ok?
    ensures LineEnd(c, at).Ok? && Minified(c, at) == Minified(c, LineEnd(c, at).next)
  {}

  method SkipComment(json: array<char>, at: nat, ghost c: string, ghost into: nat) returns (next: nat)
    requires Untouched(json, c, into) && into <= at && at + 1 < |c| && c[at] == '/' && c[at + 1] == '*'
    requires Minified(c, at).Ok?
    ensures at < next < |c| && Minified(c, next) == Minified(c, at)
  {
    hide Minified;
    CommentOf(c, at);
    next := at;
    while json[next] != '\0' && !(json[next] == '*' && json[next + 1] == '/')
      invariant at <= next && next + 1 < |c| && CommentEnd(c, at) == CommentEnd(c, next)
      decreases |c| - next
    {
      Same(json, c, into, next);
      Same(json, c, into, next + 1);
      next := next + 1;
    }
    Same(json, c, into, next);
    Same(json, c, into, next + 1);
    next := next + 2;
  }

  lemma CommentOf(c: string, at: nat)
    requires at + 1 < |c| && c[at] == '/' && c[at + 1] == '*' && Minified(c, at).Ok?
    ensures
      && CommentEnd(c, at).Ok? && CommentEnd(c, at).next + 2 < |c|
      && Minified(c, at) == Minified(c, CommentEnd(c, at).next + 2)
  {}

  lemma LiteralOf(c: string, at: nat)
    requires at < |c| && c[at] == '\"' && Minified(c, at).Ok?
    ensures
      && Literal(c, at + 1).Ok? && Literal(c, at + 1).next + 1 < |c|
      && Minified(c, at)
         == Before(c[at..Literal(c, at + 1).next + 1], Minified(c, Literal(c, at + 1).next + 1))
  {}

  method CopyLiteral(json: array<char>, at: nat, into: nat, ghost c: string) returns (next: nat, more: nat)
    requires Untouched(json, c, into) && into <= at < |c| && c[at] == '\"' && Minified(c, at).Ok?
    modifies json
    ensures at < next < |c| && more <= next && Untouched(json, c, more)
    ensures Before(json[..more], Minified(c, next)) == Before(old(json[..into]), Minified(c, at))
  {
    hide Minified, Literal;
    LiteralOf(c, at);
    ghost var was := json[..into];
    next, more := CopyChar(json, at, into, was, at, c);
    while json[next] != '\0' && json[next] != '\"'
      invariant at < next < |c| && Untouched(json, c, more) && more == into + (next - at)
      invariant json[..more] == was + c[at..next]
      invariant Literal(c, at + 1) == Literal(c, next)
      decreases |c| - next
    {
      next, more := CopyUnit(json, next, more, was, at, c);
    }
    LiteralStep(c, next);
    Same(json, c, more, next);
    next, more := CopyChar(json, next, more, was, at, c);
    Joined(was, c[at..next], Minified(c, next));
  }

  /** Copies a character of a literal, with the one that escapes it. */
  method CopyUnit(json: array<char>, at: nat, into: nat, ghost was: string, ghost start: nat, ghost c: string)
    returns (next: nat, more: nat)
    requires Untouched(json, c, into) && start <= at && into <= at < |c| && json[..into] == was + c[start..at]
    requires Literal(c, at).Ok? && c[at] != '\"'
    modifies json
    ensures at < next < |c| && more == into + (next - at) && Untouched(json, c, more)
    ensures json[..more] == was + c[start..next] && Literal(c, next) == Literal(c, at)
  {
    hide Literal;
    next, more := at, into;
    LiteralStep(c, next);
    Same(json, c, more, next);
    if json[next] == '\\' {
      next, more := CopyChar(json, next, more, was, start, c);
    }
    next, more := CopyChar(json, next, more, was, start, c);
  }

  lemma LiteralStep(c: string, p: nat)
    requires p < |c| && Literal(c, p).Ok?
    ensures c[p] != '\0' && (c[p] == '\"' ==> Literal(c, p).next == p)
    ensures c[p] == '\\' ==> p + 2 < |c| && Literal(c, p) == Literal(c, p + 2)
    ensures c[p] != '\"' && c[p] != '\\' ==> p + 1 < |c| && Literal(c, p) == Literal(c, p + 1)
  {}

  /** Copies one character of a literal that started at `start`. */
  method CopyChar(json: array<char>, at: nat, into: nat, ghost was: string, ghost start: nat, ghost c: string)
    returns (next: nat, more: nat)
    requires Untouched(json, c, into) && start <= at && into <= at < |c| && json[..into] == was + c[start..at]
    modifies json
    ensures next == at + 1 && more == into + 1 && Untouched(json, c, more)
    ensures json[..more] == was + c[start..next]
  {
    Same(json, c, into, at);
    json[into] := json[at];
    next, more := at + 1, into + 1;
    assert json[..more] == (was + c[start..at]) + [c[at]];
    assert c[start..next] == c[start..at] + [c[at]];
    assert json[more..] == c[into..][1..] == c[more..];
  }

  /** Minifying the formatted print in its buffer gives the unformatted print. */
  method PrintThenMinify(v: Value) returns (json: Option<array<char>>)
    requires Good(v)
    ensures json.Some? <==> |Text(v, true, 0)| + 2 <= JsonPrinter.INT_MAX
    ensures json.Some? ==> JsonPrinter.Holds(json.value[..], Text(v, false, 0))
  {
    hide Text, Minified;
    json := JsonPrinter.Print(v, true);
    if json.Some? {
      MinifiedPrint(v, "");
      assert Text(v, true, 0) + "\0" + "" == Text(v, true, 0) + "\0";
      Minify(json.value);
    }
  }
}
