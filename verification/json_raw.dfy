/** What the parser makes of strings that were written without escaping them. */
module JsonRaw {
  import opened JsonText
  import opened JsonGrammar
  import opened JsonRoundTrip
  import opened JsonCalls

  /** A string without quotes and backslashes. */
  predicate Unquoted(s: string) {
    '\"' !in s && '\\' !in s
  }

  predicate UnquotedStrings(v: Value)
    decreases v
  {
    match v
    case String(text) => Unquoted(text)
    case Array(items) => forall i :: 0 <= i < |items| ==> UnquotedStrings(items[i])
    case Object(members) =>
      forall i :: 0 <= i < |members| ==> Unquoted(members[i].key) && UnquotedStrings(members[i].value)
    case _ => true
  }

  /** The value is read, unless it is too deep, if `plain`; if not, anything else may be. */
  predicate Reads<T(==)>(plain: bool, fits: bool, r: Parsed<T>, v: T, next: nat) {
    if plain then r == Expect(fits, v, next) else r.Ok? ==> r.value != v
  }

  // ---- one string --------------------------------------------------------------------------

  function QuotesIn(s: string): nat {
    if |s| == 0 then 0 else (if s[0] == '\"' then 1 else 0) + QuotesIn(s[1..])
  }

  lemma {:induction false} QuotesJoin(s: string, t: string)
    ensures QuotesIn(s + t) == QuotesIn(s) + QuotesIn(t)
  {
    if |s| == 0 {
      assert s + t == t;
    } else {
      assert (s + t)[1..] == s[1..] + t && (s + t)[0] == s[0];
      QuotesJoin(s[1..], t);
    }
  }

  lemma {:induction false} NoQuotes(s: string)
    requires '\"' !in s
    ensures QuotesIn(s) == 0
  {
    if |s| > 0 {
      NoQuotes(s[1..]);
    }
  }

  /** An escape that stands for a character other than NUL is made of hexadecimal digits. */
  lemma HexOnly(c: string, p: nat)
    requires p + 4 <= |c| && Hex4(c, p) > 0
    ensures forall i :: p <= i < p + 4 ==> c[i] != '\"' && c[i] != '\\'
  {}

  lemma {:induction false} ClosesBehind(c: string, p: nat, q: nat)
    requires p <= q <= |c| && forall i :: p <= i < q ==> c[i] != '\"' && c[i] != '\\'
    ensures CloseQuote(c, p) == CloseQuote(c, q)
    decreases q - p
  {
    if p < q {
      ClosesBehind(c, p + 1, q);
    }
  }

  /** A `\u` escape, but for the one of NUL, holds no quote that could close the string. */
  lemma CodeCloses(c: string, p: nat, end: nat)
    requires p + 1 < |c| && p <= end < |c| && c[p] == '\\' && c[p + 1] == 'u'
    requires Utf16(c, p, end).Ok? && Utf16(c, p, end).value > 0
    ensures var next := Utf16(c, p, end).next;
      CloseQuote(c, p) == CloseQuote(c, next) && QuotesIn(c[p..next]) == 0
  {
    var next := Utf16(c, p, end).next;
    HexOnly(c, p + 2);
    ClosesBehind(c, p + 2, p + 6);
    if next == p + 12 {
      HexOnly(c, p + 8);
      ClosesBehind(c, p + 8, p + 12);
    }
    NoQuotes(c[p..next]);
  }

  /** How much of a literal is read for the first characters `u` of what it stands for: as many characters at least,
      more if there is an escape among them, and no more quotes. */
  lemma {:induction false} Consumed(c: string, p: nat, end: nat, u: string) returns (q: nat)
    requires p <= end < |c| && CloseQuote(c, p) == Ok((), end)
    requires Unescaped(c, p, end).Ok? && u <= Unescaped(c, p, end).value && NoNul(u)
    ensures p <= q <= end && |u| <= q - p && QuotesIn(c[p..q]) <= QuotesIn(u)
    ensures if '\\' in c[p..q] then |u| < q - p else '\"' !in c[p..q]
    decreases end - p
  {
    hide CloseQuote, Utf16, Utf8;
    if |u| == 0 {
      q := p;
    } else if c[p] != '\\' {
      PlainGoesOn(c, p, end);
      q := Consumed(c, p + 1, end, u[1..]);
      assert c[p..q] == [c[p]] + c[p + 1..q];
    } else if c[p + 1] != 'u' {
      EscapeGoesOn(c, p, end);
      q := Consumed(c, p + 2, end, u[1..]);
      PairJoins(c, p, q);
    } else {
      q := CodeConsumed(c, p, end, u);
    }
  }

  lemma PlainGoesOn(c: string, p: nat, end: nat)
    requires p < end < |c| && CloseQuote(c, p) == Ok((), end) && c[p] != '\\'
    ensures CloseQuote(c, p + 1) == Ok((), end) && c[p] != '\"'
  {}

  lemma EscapeGoesOn(c: string, p: nat, end: nat)
    requires p < end < |c| && CloseQuote(c, p) == Ok((), end) && c[p] == '\\'
    ensures p + 2 <= end && CloseQuote(c, p + 2) == Ok((), end)
  {}

  lemma PairJoins(c: string, p: nat, q: nat)
    requires p + 2 <= q <= |c|
    ensures c[p..q] == [c[p], c[p + 1]] + c[p + 2..q]
    ensures QuotesIn(c[p..q]) == QuotesIn([c[p]]) + QuotesIn([c[p + 1]]) + QuotesIn(c[p + 2..q])
  {
    assert c[p..q] == [c[p]] + ([c[p + 1]] + c[p + 2..q]);
    QuotesJoin([c[p]], [c[p + 1]] + c[p + 2..q]);
    QuotesJoin([c[p + 1]], c[p + 2..q]);
  }

  lemma {:induction false} CodeConsumed(c: string, p: nat, end: nat, u: string) returns (q: nat)
    requires p < end < |c| && CloseQuote(c, p) == Ok((), end) && c[p] == '\\' && c[p + 1] == 'u'
    requires Unescaped(c, p, end).Ok? && u <= Unescaped(c, p, end).value && NoNul(u) && |u| > 0
    ensures p <= q <= end && |u| < q - p && QuotesIn(c[p..q]) <= QuotesIn(u) && '\\' in c[p..q]
    decreases end - p, 0
  {
    hide CloseQuote, Utf16;
    var code, next := Utf16(c, p, end).value, Utf16(c, p, end).next;
    var out := Utf8(code);
    assert u[0] == Unescaped(c, p, end).value[0] == out[0];
    CodeCloses(c, p, end);
    if |u| <= |out| {
      q := next;
    } else {
      assert u == out + u[|out|..];
      q := Consumed(c, next, end, u[|out|..]);
      assert c[p..q] == c[p..next] + c[next..q];
      QuotesJoin(c[p..next], c[next..q]);
      QuotesJoin(out, u[|out|..]);
    }
    assert c[p..q][0] == '\\';
  }

  lemma {:induction false} UnquotedReads(c: string, p: nat, s: string, end: nat)
    requires Unquoted(s) && StartsAt(c, p, s + "\"") && end == p + |s|
    ensures CloseQuote(c, p) == Ok((), end) && Unescaped(c, p, end) == Ok(s, end)
    decreases |s|
  {
    StartsWith(c, p, s + "\"", 0);
    if |s| > 0 {
      assert s + "\"" == [s[0]] + (s[1..] + "\"");
      StartsSplit(c, p, [s[0]], s[1..] + "\"");
      UnquotedReads(c, p + 1, s[1..], end);
      assert [s[0]] + s[1..] == s;
    }
  }

  lemma Closed(c: string, p: nat)
    requires p <= |c| && CloseQuote(c, p).Ok?
    ensures CloseQuote(c, p) == Ok((), CloseQuote(c, p).next)
  {
    hide CloseQuote;
    assert CloseQuote(c, p).value == ();
  }

  lemma QuotesBehind(c: string, p: nat, s: string, q: nat)
    requires p + |s| < |c| && c[p..p + |s|] == s && c[p + |s|] == '\"' && q <= |c|
    ensures q > p + |s| ==> QuotesIn(c[p..q]) > QuotesIn(s)
  {
    if q > p + |s| {
      var rest := c[p + |s|..q];
      assert c[p..q] == s + rest;
      QuotesJoin(s, rest);
      assert rest[0] == '\"';
    }
  }

  /** A string with a quote or a backslash is not taken back, whatever follows it. */
  lemma QuotedIsLost(c: string, o: nat, s: string)
    requires Terminated(c) && NoNul(s) && StartsAt(c, o, Quote(s)) && o < |c|
    requires ParseString(c, o).Ok? && ParseString(c, o).value == s
    ensures Unquoted(s)
  {
    hide CloseQuote, Unescaped;
    var end := CloseQuote(c, o + 1).next;
    var p, n := o + 1, |s|;
    Closed(c, p);
    StartsWith(c, o, Quote(s), n + 1);
    assert c[p..p + n] == s by {
      assert Quote(s) == "\"" + (s + "\"");
      StartsSplit(c, o, "\"", s + "\"");
      StartsSplit(c, p, s, "\"");
    }
    var q := Consumed(c, p, end, s);
    QuotesBehind(c, p, s, q);
    if q == p + n {
      assert c[p..q] == s;
    }
  }

  /** A string written as it is comes back exactly if it has no quote and no backslash. */
  lemma QuoteReads(c: string, o: nat, s: string)
    requires Terminated(c) && NoNul(s) && StartsAt(c, o, Quote(s))
    ensures o < |c| && c[o] == '\"'
    ensures Reads(Unquoted(s), true, ParseString(c, o), s, o + |Quote(s)|)
  {
    hide CloseQuote, Unescaped;
    assert Quote(s) == "\"" + (s + "\"");
    StartsSplit(c, o, "\"", s + "\"");
    StartsWith(c, o, "\"", 0);
    if Unquoted(s) {
      UnquotedReads(c, o + 1, s, o + 1 + |s|);
    } else if ParseString(c, o).Ok? && ParseString(c, o).value == s {
      QuotedIsLost(c, o, s);
    }
  }

  // ---- arrays and objects, from the front --------------------------------------------------

  lemma {:induction false} ItemsFromFront(items: seq<Value>)
    requires |items| > 0
    ensures RawItems(items) == Raw(items[0]) + (CommaIf(|items| > 1) + RawItems(items[1..]))
  {
    hide Raw;
    var n := |items|;
    if n == 1 {
      assert items[..0] == [] && items[1..] == [];
    } else {
      var init := items[..n - 1];
      ItemsFromFront(init);
      assert init[1..] == items[1..][..n - 2] && items[1..][n - 2] == items[n - 1];
      ItemsRegroup(Raw(items[0]), CommaIf(n > 2), RawItems(init[1..]), ",", Raw(items[n - 1]));
    }
  }

  lemma ItemsRegroup(a: string, b: string, d: string, e: string, f: string)
    ensures (a + (b + d)) + e + f == a + (b + (d + e + f))
    ensures b == "" && d == "" ==> (a + (b + d)) + e + f == a + (e + (d + "" + f))
  {}

  function RawMember(m: Member): string {
    (Quote(m.key) + ":") + Raw(m.value)
  }

  lemma MembersFromBack(members: seq<Member>)
    requires |members| > 0
    ensures
      var init, last := members[..|members| - 1], members[|members| - 1];
      RawMembers(members) == RawMembers(init) + CommaIf(|members| > 1) + RawMember(last)
  {
    hide Raw, Quote;
    var init, last := members[..|members| - 1], members[|members| - 1];
    var a, k, v := RawMembers(init) + CommaIf(|members| > 1), Quote(last.key) + ":", Raw(last.value);
    assert (a + k) + v == a + (k + v);
  }

  lemma {:induction false} MembersFromFront(members: seq<Member>)
    requires |members| > 0
    ensures RawMembers(members) == RawMember(members[0]) + (CommaIf(|members| > 1) + RawMembers(members[1..]))
  {
    hide RawMember;
    var n := |members|;
    var last := members[n - 1];
    MembersFromBack(members);
    if n == 1 {
      assert members[..0] == [] && members[1..] == [];
      assert "" + "" + RawMember(last) == RawMember(last) + ("" + "");
    } else {
      var init, tail := members[..n - 1], members[1..];
      MembersFromFront(init);
      MembersFromBack(tail);
      assert init[1..] == tail[..n - 2] && tail[n - 2] == last && init[0] == members[0];
      hide RawMembers;
      if n > 2 {
        ItemsRegroup(RawMember(members[0]), ",", RawMembers(init[1..]), ",", RawMember(last));
      } else {
        NoMembersYet(init[1..]);
        ItemsRegroup(RawMember(members[0]), "", "", ",", RawMember(last));
      }
    }
  }

  lemma NoMembersYet(members: seq<Member>)
    requires |members| == 0
    ensures RawMembers(members) == ""
  {}

  // ---- values ------------------------------------------------------------------------------

  lemma RawOpens(v: Value)
    requires Good(v)
    ensures |Raw(v)| > 0 && Opener(Raw(v)[0])
  {
    hide RawItems, RawMembers, Converted;
  }

  /** A value written with its strings as they are comes back exactly if they have no quotes and backslashes. */
  lemma {:induction false} RawReads(v: Value, c: string, o: nat, depth: nat)
    requires Terminated(c) && Good(v) && depth <= NESTING_LIMIT
    requires StartsAt(c, o, Raw(v)) && o + |Raw(v)| < |c| && !NumberChar(c[o + |Raw(v)|])
    ensures Reads(UnquotedStrings(v), depth + Nesting(v) <= NESTING_LIMIT, ParseValue(c, o, depth), v, o + |Raw(v)|)
    decreases v, 0
  {
    hide Converted, Numeral, RawItems, RawMembers, ParseItems, ParseMembers, ParseString, NumberRun, Skip, Unquoted,
      Quote;
    RawOpens(v);
    StartsWith(c, o, Raw(v), 0);
    match v
    case Null =>
    case False => NotStarting(c, o, "null");
    case True => NotStarting(c, o, "null"); NotStarting(c, o, "false");
    case Number(token) => NumeralReads(c, o, token, depth);
    case String(text) =>
      QuoteReads(c, o, text);
      NotWord(c, o);
    case Array(items) =>
      NotWord(c, o);
      RawArrayReads(items, c, o, depth);
    case Object(members) =>
      NotWord(c, o);
      RawObjectReads(members, c, o, depth);
  }

  lemma {:induction false} RawArrayReads(items: seq<Value>, c: string, o: nat, depth: nat)
    requires Terminated(c) && Good(Array(items)) && depth <= NESTING_LIMIT
    requires StartsAt(c, o, Raw(Array(items)))
    ensures o < |c| && c[o] == '['
    ensures Reads(UnquotedStrings(Array(items)), depth + 1 + Deepest(items) <= NESTING_LIMIT,
                  ParseArray(c, o, depth), Array(items), o + |Raw(Array(items))|)
    decreases items, 1
  {
    hide RawItems, ParseItems, Skip, Deepest, StartsAt;
    var inner := RawItems(items);
    assert "[" + inner + "]" == "[" + (inner + "]");
    StartsSplit(c, o, "[", inner + "]");
    StartsWith(c, o, "[", 0);
    RawItemsStart(items);
    StartsWith(c, o + 1, inner + "]", 0);
    StartsWithin(c, o + 1, inner + "]");
    SkipNone(c, o + 1);
    if depth < NESTING_LIMIT && |items| > 0 {
      RawItemsRead(items, c, o + 1, depth + 1);
    }
    NoItems(items);
  }

  lemma RawItemsStart(items: seq<Value>)
    requires forall i :: 0 <= i < |items| ==> Good(items[i])
    ensures if |items| == 0 then RawItems(items) == "" else |RawItems(items)| > 0 && Opener(RawItems(items)[0])
  {
    hide Raw, Good;
    if |items| > 0 {
      RawOpens(items[0]);
      ItemsFromFront(items);
    }
  }

  lemma {:induction false} RawItemsRead(items: seq<Value>, c: string, o: nat, depth: nat)
    requires Terminated(c) && |items| > 0 && (forall i :: 0 <= i < |items| ==> Good(items[i]))
    requires depth <= NESTING_LIMIT && StartsAt(c, o, RawItems(items) + "]")
    ensures o < |c|
    ensures Reads(forall i :: 0 <= i < |items| ==> UnquotedStrings(items[i]), depth + Deepest(items) <= NESTING_LIMIT,
                  ParseItems(c, o, depth), items, o + |RawItems(items)| + 1)
    decreases items, 0
  {
    hide Raw, RawItems, ParseValue, ParseItems, Skip, Good, Nesting, StartsAt, UnquotedStrings, NumberChar;
    var tail := items[1..];
    var first, rest := Raw(items[0]), if |items| == 1 then "]" else "," + (RawItems(tail) + "]");
    ItemsFromFront(items);
    NoRawItems(tail);
    assert RawItems(items) + "]" == first + rest;
    var q := o + |first|;
    FirstRawItem(items[0], rest, c, o, depth);
    var fits := depth + Nesting(items[0]) <= NESTING_LIMIT;
    if |items| == 1 {
      LastRawItem(c, o, q, depth, UnquotedStrings(items[0]), fits, items[0]);
      assert [items[0]] == items && Deepest(tail) == 0;
    } else {
      StartsSplit(c, q, ",", RawItems(tail) + "]");
      StartsWithin(c, q + 1, RawItems(tail) + "]");
      RawItemsRead(tail, c, q + 1, depth);
      var plain := forall i :: 0 <= i < |tail| ==> UnquotedStrings(tail[i]);
      assert plain <==> forall i :: 1 <= i < |items| ==> UnquotedStrings(items[i]) by {
        assert forall i :: 0 <= i < |tail| ==> tail[i] == items[i + 1];
        assert forall i :: 1 <= i < |items| ==> items[i] == tail[i - 1];
      }
      MoreRawItems(c, o, q, depth, UnquotedStrings(items[0]), fits, items[0],
                   plain, depth + Deepest(tail) <= NESTING_LIMIT, tail, q + 1 + |RawItems(tail)| + 1);
      assert [items[0]] + tail == items;
    }
  }

  lemma NoRawItems(items: seq<Value>)
    ensures |items| == 0 ==> RawItems(items) == ""
  {}

  lemma {:induction false} FirstRawItem(v: Value, rest: string, c: string, o: nat, depth: nat)
    requires Terminated(c) && Good(v) && depth <= NESTING_LIMIT && StartsAt(c, o, Raw(v) + rest)
    requires |rest| > 0 && (rest[0] == ']' || rest[0] == ',' || rest[0] == '}')
    ensures |Raw(v)| > 0 && o + |Raw(v)| < |c| && Skip(c, o) == o && StartsAt(c, o + |Raw(v)|, rest)
    ensures c[o + |Raw(v)|] == rest[0]
    ensures Reads(UnquotedStrings(v), depth + Nesting(v) <= NESTING_LIMIT, ParseValue(c, o, depth), v, o + |Raw(v)|)
    decreases v, 1
  {
    hide Raw, ParseValue, Good, Nesting, UnquotedStrings;
    StartsSplit(c, o, Raw(v), rest);
    RawOpens(v);
    StartsWith(c, o, Raw(v), 0);
    StartsWith(c, o + |Raw(v)|, rest, 0);
    SkipNone(c, o);
    RawReads(v, c, o, depth);
  }

  lemma LastRawItem(c: string, o: nat, q: nat, depth: nat, plain: bool, fits: bool, v: Value)
    requires Terminated(c) && o < q < |c| && Skip(c, o) == o && c[q] == ']'
    requires Reads(plain, fits, ParseValue(c, o, depth), v, q)
    ensures Reads(plain, fits, ParseItems(c, o, depth), [v], q + 1)
  {
    hide ParseValue;
    SkipNone(c, q);
    var r := ParseItems(c, o, depth);
    if !plain && r.Ok? {
      assert r.value[0] == ParseValue(c, o, depth).value;
    }
  }

  lemma MoreRawItems(c: string, o: nat, q: nat, depth: nat, plain: bool, fits: bool, v: Value,
                     plainRest: bool, fitsRest: bool, rest: seq<Value>, next: nat)
    requires Terminated(c) && o < q && q + 1 < |c| && Skip(c, o) == o && c[q] == ','
    requires Reads(plain, fits, ParseValue(c, o, depth), v, q)
    requires Reads(plainRest, fitsRest, ParseItems(c, q + 1, depth), rest, next)
    ensures Reads(plain && plainRest, fits && fitsRest, ParseItems(c, o, depth), [v] + rest, next)
  {
    hide ParseValue;
    SkipNone(c, q);
    var r := ParseItems(c, o, depth);
    if r.Ok? && r.value == [v] + rest {
      assert r.value[0] == ParseValue(c, o, depth).value == v;
      assert ([v] + rest)[1..] == rest;
    }
  }

  predicate UnquotedMember(m: Member) {
    Unquoted(m.key) && UnquotedStrings(m.value)
  }

  lemma {:induction false} RawObjectReads(members: seq<Member>, c: string, o: nat, depth: nat)
    requires Terminated(c) && Good(Object(members)) && depth <= NESTING_LIMIT
    requires StartsAt(c, o, Raw(Object(members)))
    ensures o < |c| && c[o] == '{'
    ensures Reads(UnquotedStrings(Object(members)), depth + 1 + DeepestMember(members) <= NESTING_LIMIT,
                  ParseObject(c, o, depth), Object(members), o + |Raw(Object(members))|)
    decreases members, 1
  {
    hide RawMembers, ParseMembers, Skip, DeepestMember, StartsAt, Unquoted;
    var inner := RawMembers(members);
    assert "{" + inner + "}" == "{" + (inner + "}");
    StartsSplit(c, o, "{", inner + "}");
    StartsWith(c, o, "{", 0);
    RawMembersStart(members);
    StartsWith(c, o + 1, inner + "}", 0);
    StartsWithin(c, o + 1, inner + "}");
    SkipNone(c, o + 1);
    if depth < NESTING_LIMIT && |members| > 0 {
      RawMembersRead(members, c, o + 1, depth + 1);
    }
    assert |members| == 0 ==> DeepestMember(members) == 0 by {
      NoRawMembers(members);
    }
  }

  lemma NoRawMembers(members: seq<Member>)
    ensures |members| == 0 ==> RawMembers(members) == "" && DeepestMember(members) == 0
  {}

  lemma RawMembersStart(members: seq<Member>)
    ensures if |members| == 0 then RawMembers(members) == ""
      else |RawMembers(members)| > 0 && RawMembers(members)[0] == '\"'
  {
    hide Raw;
    if |members| > 0 {
      MembersFromFront(members);
    }
  }

  /** One member: its name, and its value if the name comes back. */
  lemma {:induction false} RawMemberReads(m: Member, rest: string, c: string, o: nat, depth: nat)
    requires Terminated(c) && NoNul(m.key) && Good(m.value) && depth <= NESTING_LIMIT
    requires StartsAt(c, o, RawMember(m) + rest) && |rest| > 0 && (rest[0] == ',' || rest[0] == '}')
    ensures |RawMember(m)| > 0 && o + |RawMember(m)| < |c| && StartsAt(c, o + |RawMember(m)|, rest)
    ensures c[o + |RawMember(m)|] == rest[0]
    ensures Reads(UnquotedMember(m), depth + Nesting(m.value) <= NESTING_LIMIT,
                  ParseMember(c, o, depth), m, o + |RawMember(m)|)
    decreases m, 2
  {
    hide Raw, ParseValue, ParseString, Good, Nesting, UnquotedStrings, Unquoted, Skip, StartsAt, Quote;
    var name, text := Quote(m.key), Raw(m.value);
    assert RawMember(m) + rest == name + (":" + (text + rest));
    StartsSplit(c, o, name, ":" + (text + rest));
    QuoteReads(c, o, m.key);
    SkipNone(c, o);
    var e := o + |name|;
    StartsSplit(c, e, ":", text + rest);
    StartsWith(c, e, ":", 0);
    StartsWithin(c, e, ":");
    SkipNone(c, e);
    FirstRawItem(m.value, rest, c, e + 1, depth);
    MemberAgrees(m, c, o, depth, e, e + 1 + |text|);
  }

  lemma MemberAgrees(m: Member, c: string, o: nat, depth: nat, e: nat, next: nat)
    requires Terminated(c) && o < e && e + 1 < |c| && c[e] == ':'
    requires Skip(c, o) == o && Skip(c, e) == e && Skip(c, e + 1) == e + 1
    requires Reads(Unquoted(m.key), true, ParseString(c, o), m.key, e)
    requires Reads(UnquotedStrings(m.value), depth + Nesting(m.value) <= NESTING_LIMIT,
                   ParseValue(c, e + 1, depth), m.value, next)
    ensures Reads(UnquotedMember(m), depth + Nesting(m.value) <= NESTING_LIMIT, ParseMember(c, o, depth), m, next)
  {
    hide ParseValue, ParseString, Unquoted, UnquotedStrings, Nesting;
  }

  lemma {:induction false} RawMembersRead(members: seq<Member>, c: string, o: nat, depth: nat)
    requires Terminated(c) && |members| > 0
    requires forall i :: 0 <= i < |members| ==> NoNul(members[i].key) && Good(members[i].value)
    requires depth <= NESTING_LIMIT && StartsAt(c, o, RawMembers(members) + "}")
    ensures o < |c|
    ensures Reads(forall i :: 0 <= i < |members| ==> UnquotedMember(members[i]),
                  depth + DeepestMember(members) <= NESTING_LIMIT,
                  ParseMembers(c, o, depth), members, o + |RawMembers(members)| + 1)
    decreases members, 0
  {
    hide RawMember, RawMembers, ParseMember, ParseMembers, Skip, Good, Nesting, StartsAt, UnquotedMember;
    var tail := members[1..];
    var first, rest := RawMember(members[0]), if |members| == 1 then "}" else "," + (RawMembers(tail) + "}");
    MembersFromFront(members);
    NoRawMembers(tail);
    assert RawMembers(members) + "}" == first + rest;
    var q := o + |first|;
    RawMemberReads(members[0], rest, c, o, depth);
    var fits := depth + Nesting(members[0].value) <= NESTING_LIMIT;
    if |members| == 1 {
      LastRawMember(c, o, q, depth, UnquotedMember(members[0]), fits, members[0]);
      assert [members[0]] == members;
    } else {
      StartsSplit(c, q, ",", RawMembers(tail) + "}");
      StartsWithin(c, q + 1, RawMembers(tail) + "}");
      RawMembersRead(tail, c, q + 1, depth);
      var plain := forall i :: 0 <= i < |tail| ==> UnquotedMember(tail[i]);
      assert plain <==> forall i :: 1 <= i < |members| ==> UnquotedMember(members[i]) by {
        assert forall i :: 0 <= i < |tail| ==> tail[i] == members[i + 1];
        assert forall i :: 1 <= i < |members| ==> members[i] == tail[i - 1];
      }
      MoreRawMembers(c, o, q, depth, UnquotedMember(members[0]), fits, members[0],
                     plain, depth + DeepestMember(tail) <= NESTING_LIMIT, tail, q + 1 + |RawMembers(tail)| + 1);
      assert [members[0]] + tail == members;
    }
  }

  lemma LastRawMember(c: string, o: nat, q: nat, depth: nat, plain: bool, fits: bool, m: Member)
    requires Terminated(c) && o < q < |c| && c[q] == '}'
    requires Reads(plain, fits, ParseMember(c, o, depth), m, q)
    ensures Reads(plain, fits, ParseMembers(c, o, depth), [m], q + 1)
  {
    hide ParseMember;
    SkipNone(c, q);
    var r := ParseMembers(c, o, depth);
    if !plain && r.Ok? {
      assert r.value[0] == ParseMember(c, o, depth).value;
    }
  }

  lemma MoreRawMembers(c: string, o: nat, q: nat, depth: nat, plain: bool, fits: bool, m: Member,
                       plainRest: bool, fitsRest: bool, rest: seq<Member>, next: nat)
    requires Terminated(c) && o < q && q + 1 < |c| && c[q] == ','
    requires Reads(plain, fits, ParseMember(c, o, depth), m, q)
    requires Reads(plainRest, fitsRest, ParseMembers(c, q + 1, depth), rest, next)
    ensures Reads(plain && plainRest, fits && fitsRest, ParseMembers(c, o, depth), [m] + rest, next)
  {
    hide ParseMember;
    SkipNone(c, q);
    var r := ParseMembers(c, o, depth);
    if r.Ok? && r.value == [m] + rest {
      assert r.value[0] == ParseMember(c, o, depth).value == m;
      assert ([m] + rest)[1..] == rest;
    }
  }

  // ---- whole texts -------------------------------------------------------------------------

  lemma {:induction false} RawNoNul(v: Value)
    requires Good(v)
    ensures NoNul(Raw(v))
    decreases v
  {
    match v
    case Array(items) => RawItemsNoNul(items);
    case Object(members) => RawMembersNoNul(members);
    case _ =>
  }

  lemma {:induction false} RawItemsNoNul(items: seq<Value>)
    requires forall i :: 0 <= i < |items| ==> Good(items[i])
    ensures NoNul(RawItems(items))
    decreases items
  {
    hide Raw, Good;
    if |items| > 0 {
      RawItemsNoNul(items[..|items| - 1]);
      RawNoNul(items[|items| - 1]);
    }
  }

  lemma {:induction false} RawMembersNoNul(members: seq<Member>)
    requires forall i :: 0 <= i < |members| ==> NoNul(members[i].key) && Good(members[i].value)
    ensures NoNul(RawMembers(members))
    decreases members
  {
    hide Raw, Good;
    if |members| > 0 {
      RawMembersNoNul(members[..|members| - 1]);
      RawNoNul(members[|members| - 1].value);
    }
  }

  /** The text of a tree with its strings as they are is parsed back to the tree, whether or not the whole text is
      asked for, exactly if no string or name in it has a quote or a backslash and it is not nested too deeply. */
  lemma RawRoundTrip(v: Value, whole: bool)
    requires Good(v)
    ensures NoNul(Raw(v))
    ensures Parse(Raw(v), whole) == Ok(v, |Raw(v)|) <==> UnquotedStrings(v) && Nesting(v) <= NESTING_LIMIT
  {
    hide Raw, UnquotedStrings, ParseValue, Nesting, Good, Converted;
    var t := Raw(v);
    var c := t + "\0";
    RawNoNul(v);
    RawOpens(v);
    NoMark(c);
    SkipNone(c, 0);
    RawReads(v, c, 0, 0);
    assert c[|t|] == '\0';
  }

  /** A single string is taken back exactly if it has no quote and no backslash; control characters are no obstacle. */
  lemma RawString(s: string, whole: bool)
    requires NoNul(s)
    ensures NoNul(Raw(String(s)))
    ensures Parse(Raw(String(s)), whole) == Ok(String(s), |s| + 2) <==> '\"' !in s && '\\' !in s
  {
    RawRoundTrip(String(s), whole);
  }
}
