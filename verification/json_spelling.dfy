/** All the texts of a value: with any white space, any escapes and any form of its numbers, as section 2 of RFC 8259
    allows them, and a little more that the parser takes as well. */
module JsonSpelling {
  import opened JsonText
  import opened JsonGrammar
  import opened JsonRoundTrip
  import opened Options

  /** A value as it is written: a word or a number, the characters between two quotes, or a list with its white
      space. */
  datatype Spelling =
    | Atom(v: Value)
    | Literal(raw: string)
    | List(blanks: string, items: seq<Item>)
    | Record(blanks: string, members: seq<Entry>)

  /** A value with the white space before and after it. */
  datatype Item = Item(before: string, value: Spelling, after: string)

  /** A name, with the white space before and after it, and its value. */
  datatype Entry = Entry(before: string, raw: string, after: string, item: Item)

  /** White space: RFC 8259 has four of these characters, the parser all up to the blank. */
  predicate Blanks(s: string) {
    forall i :: 0 <= i < |s| ==> '\0' < s[i] <= ' '
  }

  /** A number that is converted whole; the parser looks at 63 characters. */
  predicate IsNumber(t: string) {
    && 0 < |t| <= 63 && (t[0] == '-' || Digit(t[0])) && Converted(t) == |t|
    && forall i :: 0 <= i < |t| ==> NumberChar(t[i])
  }

  predicate IsAtom(v: Value) {
    match v
    case Null => true
    case False => true
    case True => true
    case Number(token) => IsNumber(token)
    case _ => false
  }

  /** Characters between quotes: no quote closes the string early, and every escape stands for something. */
  predicate IsBody(raw: string) {
    NoNul(raw) && CloseQuote(raw + "\"", 0) == Ok((), |raw|) && Unescaped(raw + "\"", 0, |raw|).Ok?
  }

  /** The C string they stand for. */
  function BodyValue(raw: string): (s: string)
    ensures NoNul(s)
  {
    var r := Unescaped(raw + "\"", 0, |raw|);
    if r.Ok? then CString(r.value) else ""
  }

  predicate Legal(s: Spelling)
    decreases s
  {
    match s
    case Atom(v) => IsAtom(v)
    case Literal(raw) => IsBody(raw)
    case List(blanks, items) =>
      && (|items| == 0 ==> Blanks(blanks))
      && forall i :: 0 <= i < |items| ==> LegalItem(items[i])
    case Record(blanks, members) =>
      && (|members| == 0 ==> Blanks(blanks))
      && forall i :: 0 <= i < |members| ==> LegalEntry(members[i])
  }

  predicate LegalItem(x: Item)
    decreases x
  {
    Blanks(x.before) && Legal(x.value) && Blanks(x.after)
  }

  predicate LegalEntry(e: Entry)
    decreases e
  {
    Blanks(e.before) && IsBody(e.raw) && Blanks(e.after) && LegalItem(e.item)
  }

  // ---- what is written, and what it means --------------------------------------------------

  function Spelled(s: Spelling): string
    decreases s
  {
    match s
    case Atom(v) => Text(v, false, 0)
    case Literal(raw) => Quoting(raw)
    case List(blanks, items) => "[" + ((if |items| == 0 then blanks else ItemTexts(items)) + "]")
    case Record(blanks, members) => "{" + ((if |members| == 0 then blanks else EntryTexts(members)) + "}")
  }

  function Quoting(raw: string): string {
    "\"" + (raw + "\"")
  }

  function ItemText(x: Item): string
    decreases x
  {
    x.before + (Spelled(x.value) + x.after)
  }

  function ItemTexts(items: seq<Item>): string
    decreases items
  {
    if |items| == 0 then ""
    else if |items| == 1 then ItemText(items[0])
    else ItemText(items[0]) + ("," + ItemTexts(items[1..]))
  }

  function EntryText(e: Entry): string
    decreases e
  {
    e.before + (Quoting(e.raw) + (e.after + (":" + ItemText(e.item))))
  }

  function EntryTexts(members: seq<Entry>): string
    decreases members
  {
    if |members| == 0 then ""
    else if |members| == 1 then EntryText(members[0])
    else EntryText(members[0]) + ("," + EntryTexts(members[1..]))
  }

  function Meaning(s: Spelling): Value
    decreases s
  {
    match s
    case Atom(v) => v
    case Literal(raw) => String(BodyValue(raw))
    case List(_, items) => Array(Meanings(items))
    case Record(_, members) => Object(EntryMeanings(members))
  }

  function Meanings(items: seq<Item>): seq<Value>
    decreases items
  {
    if |items| == 0 then [] else [Meaning(items[0].value)] + Meanings(items[1..])
  }

  function EntryMeaning(e: Entry): Member
    decreases e
  {
    Member(BodyValue(e.raw), Meaning(e.item.value))
  }

  function EntryMeanings(members: seq<Entry>): seq<Member>
    decreases members
  {
    if |members| == 0 then [] else [EntryMeaning(members[0])] + EntryMeanings(members[1..])
  }

  // ---- the characters between quotes -------------------------------------------------------

  /** Two texts agree on `n` characters. */
  predicate Alike(c: string, p: nat, d: string, i: nat, n: nat) {
    p + n <= |c| && i + n <= |d| && c[p..p + n] == d[i..i + n]
  }

  lemma AlikeAt(c: string, p: nat, d: string, i: nat, n: nat, k: nat)
    requires Alike(c, p, d, i, n) && k < n
    ensures c[p + k] == d[i + k]
  {
    assert c[p..p + n][k] == d[i..i + n][k];
  }

  lemma AlikeFrom(c: string, p: nat, d: string, i: nat, n: nat, k: nat)
    requires Alike(c, p, d, i, n) && k <= n
    ensures Alike(c, p + k, d, i + k, n - k)
  {
    assert c[p + k..p + n] == c[p..p + n][k..] && d[i + k..i + n] == d[i..i + n][k..];
  }

  /** Where a string closes depends on its own characters alone. */
  lemma {:induction false} ClosesAlike(c: string, p: nat, d: string, i: nat, n: nat)
    requires Alike(c, p, d, i, n + 1) && CloseQuote(d, i) == Ok((), i + n)
    ensures CloseQuote(c, p) == Ok((), p + n)
    decreases n
  {
    hide Alike;
    AlikeWithin(c, p, d, i, n + 1);
    AlikeAt(c, p, d, i, n + 1, 0);
    if d[i] == '\\' {
      AlikeFrom(c, p, d, i, n + 1, 2);
      ClosesAlike(c, p + 2, d, i + 2, n - 2);
    } else if d[i] != '\"' {
      AlikeFrom(c, p, d, i, n + 1, 1);
      ClosesAlike(c, p + 1, d, i + 1, n - 1);
    }
  }

  lemma AlikeWithin(c: string, p: nat, d: string, i: nat, n: nat)
    requires Alike(c, p, d, i, n)
    ensures p + n <= |c| && i + n <= |d|
  {}

  predicate Same<T(==)>(r: Parsed<T>, q: Parsed<T>) {
    r.Ok? == q.Ok? && (r.Ok? ==> r.value == q.value)
  }

  lemma CodesAlike(c: string, p: nat, d: string, i: nat, n: nat)
    requires Alike(c, p, d, i, n + 1) && p + n < |c| && i + n < |d|
    ensures
      var r, q := Utf16(c, p, p + n), Utf16(d, i, i + n);
      Same(r, q) && (r.Ok? ==> r.next - p == q.next - i)
  {
    hide HexValue;
    if n >= 6 {
      AlikeAt(c, p, d, i, n + 1, 2);
      AlikeAt(c, p, d, i, n + 1, 3);
      AlikeAt(c, p, d, i, n + 1, 4);
      AlikeAt(c, p, d, i, n + 1, 5);
    }
    if n >= 12 {
      hide Alike;
      AlikeAt(c, p, d, i, n + 1, 6);
      AlikeAt(c, p, d, i, n + 1, 7);
      AlikeAt(c, p, d, i, n + 1, 8);
      AlikeAt(c, p, d, i, n + 1, 9);
      AlikeAt(c, p, d, i, n + 1, 10);
      AlikeAt(c, p, d, i, n + 1, 11);
    }
  }

  /** What a backslash and a character other than `u` stand for. */
  function ShortEscape(e: char): Option<char> {
    match e
    case 'b' => Some(BACKSPACE)
    case 'f' => Some(FORM_FEED)
    case 'n' => Some('\n')
    case 'r' => Some('\r')
    case 't' => Some('\t')
    case '\"' => Some('\"')
    case '\\' => Some('\\')
    case '/' => Some('/')
    case _ => None
  }

  lemma ShortReads(c: string, p: nat, end: nat)
    requires p < end < |c| && c[p] == '\\' && c[p + 1] != 'u'
    ensures Unescaped(c, p, end) ==
      match ShortEscape(c[p + 1])
      case None => Fail
      case Some(x) => Before([x], Unescaped(c, p + 2, end))
  {
    hide Utf16, Utf8;
  }

  lemma PlainReads(c: string, p: nat, end: nat)
    requires p < end < |c| && c[p] != '\\'
    ensures Unescaped(c, p, end) == Before([c[p]], Unescaped(c, p + 1, end))
  {
    hide Utf16, Utf8;
  }

  lemma CodeReads(c: string, p: nat, end: nat)
    requires p < end < |c| && c[p] == '\\' && c[p + 1] == 'u'
    ensures Unescaped(c, p, end) ==
      match Utf16(c, p, end)
      case Fail => Fail
      case Ok(code, next) => Before(Utf8(code), Unescaped(c, next, end))
  {
    hide Utf16, Utf8;
  }

  lemma NothingReads(c: string, p: nat, end: nat)
    requires p >= end && end < |c|
    ensures Unescaped(c, p, end) == Ok("", p)
  {
    hide Utf16, Utf8;
  }

  /** So does what it stands for. */
  lemma {:induction false} UnescapedAlike(c: string, p: nat, d: string, i: nat, n: nat)
    requires Alike(c, p, d, i, n + 1) && p + n < |c| && i + n < |d|
    ensures Same(Unescaped(c, p, p + n), Unescaped(d, i, i + n))
    decreases n
  {
    hide Alike, Utf16, Utf8, Unescaped, ShortEscape;
    if n == 0 {
      NothingReads(c, p, p);
      NothingReads(d, i, i);
    } else {
      AlikeAt(c, p, d, i, n + 1, 0);
      AlikeAt(c, p, d, i, n + 1, 1);
      if d[i] != '\\' {
        PlainReads(c, p, p + n);
        PlainReads(d, i, i + n);
        AlikeFrom(c, p, d, i, n + 1, 1);
        UnescapedAlike(c, p + 1, d, i + 1, n - 1);
      } else if d[i + 1] != 'u' {
        ShortReads(c, p, p + n);
        ShortReads(d, i, i + n);
        if n >= 2 {
          AlikeFrom(c, p, d, i, n + 1, 2);
          UnescapedAlike(c, p + 2, d, i + 2, n - 2);
        } else {
          NothingReads(c, p + 2, p + n);
          NothingReads(d, i + 2, i + n);
        }
      } else {
        CodesAlike(c, p, d, i, n);
        CodeReads(c, p, p + n);
        CodeReads(d, i, i + n);
        var r := Utf16(d, i, i + n);
        if r.Ok? {
          AlikeFrom(c, p, d, i, n + 1, r.next - i);
          UnescapedAlike(c, p + (r.next - i), d, r.next, n - (r.next - i));
        }
      }
    }
  }

  lemma BodyReads(c: string, o: nat, raw: string)
    requires Terminated(c) && IsBody(raw) && StartsAt(c, o, Quoting(raw))
    ensures o + |raw| + 2 <= |c| && c[o] == '\"' && ParseString(c, o) == Ok(BodyValue(raw), o + |raw| + 2)
  {
    hide CloseQuote, Unescaped;
    var d := raw + "\"";
    StartsSplit(c, o, "\"", d);
    StartsWith(c, o, "\"", 0);
    assert Alike(c, o + 1, d, 0, |d|) by {
      assert d[0..|d|] == d;
    }
    ClosesAlike(c, o + 1, d, 0, |raw|);
    StartsWith(c, o + 1, d, |raw|);
    StartsWithin(c, o + 1, d);
    UnescapedAlike(c, o + 1, d, 0, |raw|);
  }

  // ---- every text is read ------------------------------------------------------------------

  lemma {:induction false} RunIsNumber(c: string, o: nat, t: string, n: nat)
    requires IsNumber(t) && StartsAt(c, o, t) && o + |t| < |c| && !NumberChar(c[o + |t|]) && n <= |t|
    ensures NumberRun(c, o, n) == |t|
    decreases |t| - n
  {
    hide Converted;
    if n < |t| {
      StartsWith(c, o, t, n);
      RunIsNumber(c, o, t, n + 1);
    }
  }

  lemma NumberReads(c: string, o: nat, t: string, depth: nat)
    requires Terminated(c) && IsNumber(t) && StartsAt(c, o, t) && o + |t| < |c| && !NumberChar(c[o + |t|])
    ensures ParseValue(c, o, depth) == Ok(Number(t), o + |t|)
  {
    hide Converted, NumberRun, ParseArray, ParseObject, ParseString;
    StartsWith(c, o, t, 0);
    NotStarting(c, o, "null");
    NotStarting(c, o, "false");
    NotStarting(c, o, "true");
    RunIsNumber(c, o, t, 0);
    assert t[..|t|] == t;
  }

  lemma SpellingOpens(s: Spelling)
    requires Legal(s)
    ensures |Spelled(s)| > 0 && Opener(Spelled(s)[0])
  {
    hide ItemTexts, EntryTexts, Converted, IsBody;
  }

  /** Up to what follows white space. */
  lemma BlanksSkip(c: string, o: nat, blanks: string, rest: string)
    requires Blanks(blanks) && StartsAt(c, o, blanks + rest) && |rest| > 0 && rest[0] > ' '
    ensures
      var p := o + |blanks|;
      o <= p < |c| && StartsAt(c, p, rest) && c[p] == rest[0] && Skip(c, o) == p && Skip(c, p) == p
  {
    hide Skip, StartsAt;
    StartsSplit(c, o, blanks, rest);
    StartsWith(c, o + |blanks|, rest, 0);
    StartsWithin(c, o + |blanks|, rest);
    SkipBlanks(c, o, blanks);
    SkipNone(c, o + |blanks|);
  }

  /** What follows a value: white space or a delimiter, which no number runs on into. */
  lemma DelimiterEnds(after: string, rest: string)
    requires Blanks(after) && |rest| > 0 && rest[0] in [',', ']', '}']
    ensures |after + rest| > 0 && !NumberChar((after + rest)[0])
  {}

  lemma OpenerShows(x: char)
    requires Opener(x)
    ensures x > ' ' && x != ']' && x != '}'
  {}

  /** A text of a value is read to its end, and gives the value it means. */
  lemma {:induction false} SpelledReads(s: Spelling, c: string, o: nat, depth: nat)
    requires Terminated(c) && Legal(s) && depth <= NESTING_LIMIT
    requires StartsAt(c, o, Spelled(s)) && o + |Spelled(s)| < |c| && !NumberChar(c[o + |Spelled(s)|])
    ensures ParseValue(c, o, depth)
      == Expect(depth + Nesting(Meaning(s)) <= NESTING_LIMIT, Meaning(s), o + |Spelled(s)|)
    decreases s, 0
  {
    hide IsNumber, IsBody, ItemTexts, EntryTexts, ParseArray, ParseObject, ParseString, Skip, ParseValue, StartsAt;
    match s
    case Atom(v) => AtomReads(v, c, o, depth);
    case Literal(raw) =>
      BodyReads(c, o, raw);
      FirstDecides(c, o, depth);
    case List(blanks, items) =>
      ListReads(blanks, items, c, o, depth);
      FirstDecides(c, o, depth);
    case Record(blanks, members) =>
      RecordReads(blanks, members, c, o, depth);
      FirstDecides(c, o, depth);
  }

  lemma FirstDecides(c: string, o: nat, depth: nat)
    requires Terminated(c) && o < |c|
    ensures c[o] == '[' ==> ParseValue(c, o, depth) == ParseArray(c, o, depth)
    ensures c[o] == '{' ==> ParseValue(c, o, depth) == ParseObject(c, o, depth)
    ensures c[o] == '\"' ==>
      ParseValue(c, o, depth) == match ParseString(c, o) case Fail => Fail case Ok(t, next) => Ok(String(t), next)
  {
    hide ParseArray, ParseObject, ParseString;
    if c[o] == '\"' || c[o] == '[' || c[o] == '{' {
      NotWord(c, o);
    }
  }

  lemma AtomReads(v: Value, c: string, o: nat, depth: nat)
    requires Terminated(c) && IsAtom(v)
    requires StartsAt(c, o, Text(v, false, 0)) && o + |Text(v, false, 0)| < |c|
    requires !NumberChar(c[o + |Text(v, false, 0)|])
    ensures ParseValue(c, o, depth) == Ok(v, o + |Text(v, false, 0)|)
  {
    hide IsNumber, ParseArray, ParseObject, ParseString, NumberRun;
    match v
    case Null =>
    case False => StartsWith(c, o, "false", 0); NotStarting(c, o, "null");
    case True => StartsWith(c, o, "true", 0); NotStarting(c, o, "null"); NotStarting(c, o, "false");
    case Number(token) => NumberReads(c, o, token, depth);
  }

  /** A value between white space, up to a delimiter. */
  lemma ItemReads(x: Item, rest: string, c: string, o: nat, depth: nat)
    requires Terminated(c) && LegalItem(x) && depth <= NESTING_LIMIT
    requires StartsAt(c, o, ItemText(x) + rest) && |rest| > 0 && rest[0] in [',', ']', '}']
    ensures
      var q, e := o + |x.before| + |Spelled(x.value)|, o + |ItemText(x)|;
      && o < q <= e < |c| && StartsAt(c, e, rest) && c[e] == rest[0] && Skip(c, q) == e
      && c[Skip(c, o)] != ']' && c[Skip(c, o)] != '}'
      && ParseValue(c, Skip(c, o), depth)
         == Expect(depth + Nesting(Meaning(x.value)) <= NESTING_LIMIT, Meaning(x.value), q)
    decreases x, 1
  {
    hide StartsAt, Skip, Legal, Spelled, Meaning, Nesting, NumberChar, Opener, Blanks, ParseValue;
    var text, tail := Spelled(x.value), x.after + rest;
    assert ItemText(x) + rest == x.before + (text + tail);
    SpellingOpens(x.value);
    OpenerShows(text[0]);
    BlanksSkip(c, o, x.before, text + tail);
    var p := o + |x.before|;
    StartsSplit(c, p, text, tail);
    DelimiterEnds(x.after, rest);
    StartsWith(c, p + |text|, tail, 0);
    StartsWithin(c, p + |text|, tail);
    SpelledReads(x.value, c, p, depth);
    BlanksSkip(c, p + |text|, x.after, rest);
  }

  lemma ItemsFromFront(items: seq<Item>)
    requires |items| > 0
    ensures ItemTexts(items) + "]" == ItemText(items[0])
      + (if |items| == 1 then "]" else "," + (ItemTexts(items[1..]) + "]"))
  {
    hide ItemText;
  }

  lemma {:induction false} ItemsAreRead(items: seq<Item>, c: string, o: nat, depth: nat)
    requires Terminated(c) && |items| > 0 && (forall i :: 0 <= i < |items| ==> LegalItem(items[i]))
    requires depth <= NESTING_LIMIT && StartsAt(c, o, ItemTexts(items) + "]")
    ensures o < |c| && c[Skip(c, o)] != ']'
    ensures ParseItems(c, o, depth)
      == Expect(depth + Deepest(Meanings(items)) <= NESTING_LIMIT, Meanings(items), o + |ItemTexts(items)| + 1)
    decreases items, 0
  {
    hide StartsAt, Skip, ItemText, ItemTexts, LegalItem, Spelled, Meaning, Nesting, ParseValue, ParseItems;
    var x, tail := items[0], items[1..];
    var rest := if |items| == 1 then "]" else "," + (ItemTexts(tail) + "]");
    var v, q, e := Meaning(x.value), o + |x.before| + |Spelled(x.value)|, o + |ItemText(x)|;
    var fits := depth + Nesting(v) <= NESTING_LIMIT;
    ItemsFromFront(items);
    ItemReads(x, rest, c, o, depth);
    if |items| == 1 {
      assert Meanings(tail) == [] && Meanings(items) == [v];
      OnlyDeepest(v);
      LastItem(c, o, q, depth, fits, v);
    } else {
      StartsSplit(c, e, ",", ItemTexts(tail) + "]");
      StartsWithin(c, e + 1, ItemTexts(tail) + "]");
      ItemsAreRead(tail, c, e + 1, depth);
      MoreItems(c, o, q, e + 1, depth, fits, v, depth + Deepest(Meanings(tail)) <= NESTING_LIMIT, Meanings(tail),
                e + 1 + |ItemTexts(tail)| + 1);
      DeepestFirst(v, Meanings(tail));
    }
  }

  lemma OnlyDeepest(v: Value)
    ensures Deepest([v]) == Nesting(v)
  {
    hide Nesting;
    DeepestFirst(v, []);
    assert [v] + [] == [v];
  }

  lemma DeepestFirst(v: Value, rest: seq<Value>)
    ensures Deepest([v] + rest) == if Nesting(v) > Deepest(rest) then Nesting(v) else Deepest(rest)
  {
    hide Nesting;
    assert ([v] + rest)[1..] == rest;
  }

  lemma {:induction false} ListReads(blanks: string, items: seq<Item>, c: string, o: nat, depth: nat)
    requires Terminated(c) && Legal(List(blanks, items)) && depth <= NESTING_LIMIT
    requires StartsAt(c, o, Spelled(List(blanks, items)))
    ensures o < |c| && c[o] == '['
    ensures ParseArray(c, o, depth)
      == Expect(depth + 1 + Deepest(Meanings(items)) <= NESTING_LIMIT, Array(Meanings(items)),
                o + |Spelled(List(blanks, items))|)
    decreases items, 1
  {
    hide StartsAt, Skip, ItemTexts, LegalItem, Blanks, Meanings, Deepest, ParseItems;
    var inner := if |items| == 0 then blanks else ItemTexts(items);
    StartsSplit(c, o, "[", inner + "]");
    StartsWith(c, o, "[", 0);
    StartsWithin(c, o + 1, inner + "]");
    if |items| == 0 {
      BlanksSkip(c, o + 1, blanks, "]");
      NoMeanings(items);
    } else if depth < NESTING_LIMIT {
      ItemsAreRead(items, c, o + 1, depth + 1);
      ItemsSkip(c, o + 1, depth + 1);
    } else {
      ItemsAreRead(items, c, o + 1, depth);
    }
  }

  lemma NoMeanings(items: seq<Item>)
    requires |items| == 0
    ensures Meanings(items) == [] && Deepest(Meanings(items)) == 0
  {}

  lemma ItemsSkip(c: string, o: nat, depth: nat)
    requires Terminated(c) && o < |c|
    ensures ParseItems(c, Skip(c, o), depth) == ParseItems(c, o, depth)
  {
    hide Skip, ParseValue;
    SkipTwice(c, o);
  }

  // ---- members -----------------------------------------------------------------------------

  lemma EntryReads(e: Entry, rest: string, c: string, o: nat, depth: nat)
    requires Terminated(c) && LegalEntry(e) && depth <= NESTING_LIMIT
    requires StartsAt(c, o, EntryText(e) + rest) && |rest| > 0 && rest[0] in [',', ']', '}']
    ensures
      var q, end := o + |EntryText(e)| - |e.item.after|, o + |EntryText(e)|;
      && o < q <= end < |c| && StartsAt(c, end, rest) && c[end] == rest[0] && Skip(c, q) == end
      && c[Skip(c, o)] != '}'
      && ParseMember(c, o, depth)
         == Expect(depth + Nesting(Meaning(e.item.value)) <= NESTING_LIMIT, EntryMeaning(e), q)
    decreases e, 1
  {
    hide StartsAt, Skip, LegalItem, Spelled, ItemText, Meaning, Nesting, Blanks, ParseValue, ParseString, IsBody,
      ParseMember, BodyValue;
    var name, item := Quoting(e.raw), ItemText(e.item);
    assert EntryText(e) + rest == e.before + (name + (e.after + (":" + (item + rest))));
    BlanksSkip(c, o, e.before, name + (e.after + (":" + (item + rest))));
    var k := o + |e.before|;
    StartsSplit(c, k, name, e.after + (":" + (item + rest)));
    BodyReads(c, k, e.raw);
    var q := k + |name|;
    BlanksSkip(c, q, e.after, ":" + (item + rest));
    var colon := q + |e.after|;
    StartsSplit(c, colon, ":", item + rest);
    ItemReads(e.item, rest, c, colon + 1, depth);
    ItemLength(e.item);
    EntryCompose(c, o, k, q, colon, depth, depth + Nesting(Meaning(e.item.value)) <= NESTING_LIMIT, EntryMeaning(e),
                 colon + 1 + |item| - |e.item.after|);
  }

  lemma ItemLength(x: Item)
    ensures |ItemText(x)| == |x.before| + |Spelled(x.value)| + |x.after|
  {}

  lemma EntryCompose(c: string, o: nat, k: nat, q: nat, colon: nat, depth: nat, fits: bool, m: Member, n: nat)
    requires Terminated(c) && o < |c| && Skip(c, o) == k && ParseString(c, k) == Ok(m.key, q)
    requires q <= colon && colon + 1 < |c| && Skip(c, q) == colon && c[colon] == ':'
    requires ParseValue(c, Skip(c, colon + 1), depth) == Expect(fits, m.value, n)
    ensures ParseMember(c, o, depth) == Expect(fits, m, n)
  {
    hide ParseString, ParseValue, Skip;
  }

  lemma EntriesFromFront(members: seq<Entry>)
    requires |members| > 0
    ensures EntryTexts(members) + "}"
      == EntryText(members[0]) + (if |members| == 1 then "}" else "," + (EntryTexts(members[1..]) + "}"))
  {
    hide EntryText;
  }

  lemma {:induction false} EntriesAreRead(members: seq<Entry>, c: string, o: nat, depth: nat)
    requires Terminated(c) && |members| > 0 && (forall i :: 0 <= i < |members| ==> LegalEntry(members[i]))
    requires depth <= NESTING_LIMIT && StartsAt(c, o, EntryTexts(members) + "}")
    ensures o < |c| && c[Skip(c, o)] != '}'
    ensures ParseMembers(c, o, depth)
      == Expect(depth + DeepestMember(EntryMeanings(members)) <= NESTING_LIMIT, EntryMeanings(members),
                o + |EntryTexts(members)| + 1)
    decreases members, 0
  {
    hide StartsAt, Skip, EntryText, EntryTexts, LegalEntry, Spelled, Meaning, Nesting, ParseMember, ParseMembers;
    var x, tail := members[0], members[1..];
    var rest := if |members| == 1 then "}" else "," + (EntryTexts(tail) + "}");
    var m, q, e := EntryMeaning(x), o + |EntryText(x)| - |x.item.after|, o + |EntryText(x)|;
    var fits := depth + Nesting(m.value) <= NESTING_LIMIT;
    EntriesFromFront(members);
    EntryReads(x, rest, c, o, depth);
    if |members| == 1 {
      assert EntryMeanings(tail) == [] && EntryMeanings(members) == [m];
      DeepestMemberFirst(m, []);
      LastMember(c, o, q, depth, fits, m);
    } else {
      StartsSplit(c, e, ",", EntryTexts(tail) + "}");
      StartsWithin(c, e + 1, EntryTexts(tail) + "}");
      EntriesAreRead(tail, c, e + 1, depth);
      MoreMembers(c, o, q, e + 1, depth, fits, m, depth + DeepestMember(EntryMeanings(tail)) <= NESTING_LIMIT,
                  EntryMeanings(tail), e + 1 + |EntryTexts(tail)| + 1);
      DeepestMemberFirst(m, EntryMeanings(tail));
    }
  }

  lemma DeepestMemberFirst(m: Member, rest: seq<Member>)
    ensures DeepestMember([m] + rest)
      == if Nesting(m.value) > DeepestMember(rest) then Nesting(m.value) else DeepestMember(rest)
    ensures [m] + [] == [m] && DeepestMember([]) == 0
  {
    hide Nesting;
    assert ([m] + rest)[1..] == rest;
  }

  lemma {:induction false} RecordReads(blanks: string, members: seq<Entry>, c: string, o: nat, depth: nat)
    requires Terminated(c) && Legal(Record(blanks, members)) && depth <= NESTING_LIMIT
    requires StartsAt(c, o, Spelled(Record(blanks, members)))
    ensures o < |c| && c[o] == '{'
    ensures ParseObject(c, o, depth)
      == Expect(depth + 1 + DeepestMember(EntryMeanings(members)) <= NESTING_LIMIT, Object(EntryMeanings(members)),
                o + |Spelled(Record(blanks, members))|)
    decreases members, 1
  {
    hide StartsAt, Skip, EntryTexts, LegalEntry, Blanks, EntryMeanings, DeepestMember, ParseMembers;
    var inner := if |members| == 0 then blanks else EntryTexts(members);
    StartsSplit(c, o, "{", inner + "}");
    StartsWith(c, o, "{", 0);
    StartsWithin(c, o + 1, inner + "}");
    if |members| == 0 {
      BlanksSkip(c, o + 1, blanks, "}");
      NoEntryMeanings(members);
    } else if depth < NESTING_LIMIT {
      EntriesAreRead(members, c, o + 1, depth + 1);
      SkipTwice(c, o + 1);
      MembersSkip(c, o + 1, Skip(c, o + 1), depth + 1);
    } else {
      EntriesAreRead(members, c, o + 1, depth);
    }
  }

  lemma NoEntryMeanings(members: seq<Entry>)
    requires |members| == 0
    ensures EntryMeanings(members) == [] && DeepestMember(EntryMeanings(members)) == 0
  {}

  // ---- whatever is read is such a text -----------------------------------------------------

  /** A C string: nothing but its last byte is NUL. */
  predicate OneNul(c: string) {
    Terminated(c) && NoNul(c[..|c| - 1])
  }

  lemma {:induction false} SkipPasses(c: string, o: nat)
    requires OneNul(c) && o < |c|
    ensures Blanks(c[o..Skip(c, o)])
    decreases |c| - o
  {
    if c[o] <= ' ' && o + 1 < |c| {
      SkipPasses(c, o + 1);
      assert c[o] == c[..|c| - 1][o];
      assert c[o..Skip(c, o)] == [c[o]] + c[o + 1..Skip(c, o)];
    }
  }

  /** The white space that is skipped, and where it is. */
  lemma Gap(c: string, o: nat) returns (blanks: string)
    requires OneNul(c) && o < |c|
    ensures Blanks(blanks) && StartsAt(c, o, blanks) && o + |blanks| == Skip(c, o)
  {
    SkipPasses(c, o);
    blanks := c[o..Skip(c, o)];
  }

  lemma StringSpelled(c: string, o: nat) returns (raw: string)
    requires OneNul(c) && o < |c| && ParseString(c, o).Ok?
    ensures IsBody(raw) && BodyValue(raw) == ParseString(c, o).value
    ensures StartsAt(c, o, Quoting(raw)) && o + |Quoting(raw)| == ParseString(c, o).next
  {
    hide CloseQuote, Unescaped;
    var end := CloseQuote(c, o + 1).next;
    raw := c[o + 1..end];
    assert NoNul(raw) by {
      assert raw == c[..|c| - 1][o + 1..end];
    }
    var d := raw + "\"";
    assert Alike(d, 0, c, o + 1, |d|) by {
      assert d[0..|d|] == c[o + 1..o + 1 + |d|];
    }
    OkUnit(CloseQuote(c, o + 1));
    ClosesAlike(d, 0, c, o + 1, |raw|);
    UnescapedAlike(d, 0, c, o + 1, |raw|);
    assert c[o..end + 1] == Quoting(raw);
  }

  lemma OkUnit(r: Parsed<()>)
    requires r.Ok?
    ensures r == Ok((), r.next)
  {
    assert r.value == ();
  }

  lemma {:induction false} DigitsOfPrefix(s: string, n: nat)
    requires Digits(s) <= n <= |s|
    ensures Digits(s[..n]) == Digits(s)
  {
    if |s| > 0 && Digit(s[0]) {
      assert s[..n][1..] == s[1..][..n - 1];
      DigitsOfPrefix(s[1..], n - 1);
    }
  }

  lemma ExponentOfPrefix(s: string)
    ensures Exponent(s[..Exponent(s)]) == Exponent(s)
  {
    var n := Exponent(s);
    if n > 0 {
      var t := s[..n];
      assert t[1..] == s[1..][..n - 1];
      var k := 1 + Sign(s[1..]);
      assert t[k..] == s[k..][..n - k];
      DigitsOfPrefix(s[k..], n - k);
    }
  }

  /** What is converted of a number is converted whole. */
  lemma ConvertedTwice(s: string)
    ensures Converted(s[..Converted(s)]) == Converted(s)
  {
    hide Digits, Exponent;
    var n, sign := Converted(s), Sign(s);
    var t, whole := s[..n], Digits(s[sign..]);
    if n > 0 {
      var point := if sign + whole < |s| && s[sign + whole] == '.' then 1 else 0;
      var fraction := if point == 1 then Digits(s[sign + whole + 1..]) else 0;
      var mantissa := sign + whole + (if point == 1 then 1 + fraction else 0);
      assert Sign(t) == sign;
      assert t[sign..] == s[sign..][..n - sign];
      DigitsOfPrefix(s[sign..], n - sign);
      if point == 1 {
        assert t[sign + whole + 1..] == s[sign + whole + 1..][..n - (sign + whole + 1)];
        DigitsOfPrefix(s[sign + whole + 1..], n - (sign + whole + 1));
      } else {
        NoPoint(s, sign + whole, n);
      }
      assert t[mantissa..] == s[mantissa..][..Exponent(s[mantissa..])];
      ExponentOfPrefix(s[mantissa..]);
    }
  }

  lemma NoPoint(s: string, k: nat, n: nat)
    requires k <= n <= |s| && !(k < |s| && s[k] == '.')
    ensures !(k < |s[..n]| && s[..n][k] == '.')
  {}

  lemma {:induction false} RunHasNumberChars(c: string, o: nat, n: nat)
    requires n <= 63 && o + n <= |c| && forall i :: o <= i < o + n ==> NumberChar(c[i])
    ensures forall i :: o <= i < o + NumberRun(c, o, n) ==> NumberChar(c[i])
    decreases 63 - n
  {
    if n < 63 && o + n < |c| && NumberChar(c[o + n]) {
      RunHasNumberChars(c, o, n + 1);
    }
  }

  lemma NumberSpelled(c: string, o: nat) returns (s: Spelling)
    requires OneNul(c) && o < |c| && (c[o] == '-' || Digit(c[o])) && ParseNumber(c, o).Ok?
    ensures Legal(s) && Meaning(s) == ParseNumber(c, o).value
    ensures StartsAt(c, o, Spelled(s)) && o + |Spelled(s)| == ParseNumber(c, o).next
  {
    hide Converted, NumberRun;
    RunBeforeNul(c, o, 0);
    RunHasNumberChars(c, o, 0);
    var run := c[o..o + NumberRun(c, o, 0)];
    var token := run[..Converted(run)];
    ConvertedTwice(run);
    assert forall i :: 0 <= i < |token| ==> token[i] == c[o + i];
    assert token == c[o..o + |token|];
    s := Atom(Number(token));
  }

  /** What the parser makes a value of is a text that means this value. */
  lemma {:induction false} ValueSpelled(c: string, o: nat, depth: nat) returns (s: Spelling)
    requires OneNul(c) && o < |c| && ParseValue(c, o, depth).Ok?
    ensures Legal(s) && Meaning(s) == ParseValue(c, o, depth).value
    ensures StartsAt(c, o, Spelled(s)) && o + |Spelled(s)| == ParseValue(c, o, depth).next
    decreases |c| - o, 1
  {
    hide StartsAt, Skip, Legal, Spelled, Meaning, ParseArray, ParseObject, ParseString, ParseNumber, OneNul;
    if StartsAt(c, o, "null") {
      s := WordSpelled(Null);
    } else if StartsAt(c, o, "false") {
      s := WordSpelled(False);
    } else if StartsAt(c, o, "true") {
      s := WordSpelled(True);
    } else if c[o] == '\"' {
      var raw := StringSpelled(c, o);
      s := LiteralSpelled(raw);
    } else if c[o] == '-' || Digit(c[o]) {
      s := NumberSpelled(c, o);
    } else if c[o] == '[' {
      s := ListSpelled(c, o, depth);
    } else {
      s := RecordSpelled(c, o, depth);
    }
  }

  lemma WordSpelled(v: Value) returns (s: Spelling)
    requires v.Null? || v.False? || v.True?
    ensures Legal(s) && Meaning(s) == v
    ensures Spelled(s) == if v.Null? then "null" else if v.False? then "false" else "true"
  {
    s := Atom(v);
  }

  lemma LiteralSpelled(raw: string) returns (s: Spelling)
    requires IsBody(raw)
    ensures Legal(s) && Meaning(s) == String(BodyValue(raw)) && Spelled(s) == Quoting(raw)
  {
    s := Literal(raw);
  }

  lemma {:induction false} ListSpelled(c: string, o: nat, depth: nat) returns (s: Spelling)
    requires OneNul(c) && o < |c| && c[o] == '[' && ParseArray(c, o, depth).Ok?
    ensures Legal(s) && Meaning(s) == ParseArray(c, o, depth).value
    ensures StartsAt(c, o, Spelled(s)) && o + |Spelled(s)| == ParseArray(c, o, depth).next
    decreases |c| - o, 0
  {
    hide StartsAt, Skip, ParseItems, LegalItem, Blanks, ItemTexts, Meanings;
    NulEnds(c, o);
    OneStarts(c, o);
    var p := Skip(c, o + 1);
    if c[p] == ']' {
      var blanks := Gap(c, o + 1);
      OneStarts(c, p);
      s := List(blanks, []);
      StartsSplit(c, o + 1, blanks, "]");
      StartsSplit(c, o, "[", blanks + "]");
      NoMeanings([]);
    } else {
      ItemsSkip(c, o + 1, depth + 1);
      var items := ItemsSpelled(c, o + 1, depth + 1);
      s := List("", items);
      StartsSplit(c, o, "[", ItemTexts(items) + "]");
    }
  }

  /** A character other than NUL is not the last. */
  lemma NulEnds(c: string, o: nat)
    requires OneNul(c) && o < |c| && c[o] != '\0'
    ensures o + 1 < |c|
  {}

  lemma OneStarts(c: string, o: nat)
    requires o < |c|
    ensures StartsAt(c, o, [c[o]])
  {}

  lemma {:induction false} ItemsSpelled(c: string, o: nat, depth: nat) returns (items: seq<Item>)
    requires OneNul(c) && o < |c| && ParseItems(c, o, depth).Ok?
    ensures |items| > 0 && (forall i :: 0 <= i < |items| ==> LegalItem(items[i]))
    ensures Meanings(items) == ParseItems(c, o, depth).value
    ensures StartsAt(c, o, ItemTexts(items) + "]") && o + |ItemTexts(items)| + 1 == ParseItems(c, o, depth).next
    decreases |c| - o, 2
  {
    hide StartsAt, Skip, ParseValue, Legal, Blanks, Spelled, Meaning, ItemTexts, Meanings, ItemText, OneNul;
    var k := Skip(c, o);
    var before := Gap(c, o);
    var s := ValueSpelled(c, k, depth);
    var q := k + |Spelled(s)|;
    var after := Gap(c, q);
    var e := Skip(c, q);
    var x := Item(before, s, after);
    ItemStands(c, o, x);
    OneStarts(c, e);
    assert LegalItem(x);
    if c[e] == ',' {
      var tail := ItemsSpelled(c, e + 1, depth);
      items := [x] + tail;
      assert items[1..] == tail;
      StartsSplit(c, e, ",", ItemTexts(tail) + "]");
      StartsSplit(c, o, ItemText(x), "," + (ItemTexts(tail) + "]"));
      ItemsFromFront(items);
      MeaningsFromFront(items);
    } else {
      items := [x];
      assert items[1..] == [];
      StartsSplit(c, o, ItemText(x), "]");
      ItemsFromFront(items);
      MeaningsFromFront(items);
      NoMeanings([]);
    }
  }

  lemma MeaningsFromFront(items: seq<Item>)
    requires |items| > 0
    ensures Meanings(items) == [Meaning(items[0].value)] + Meanings(items[1..])
  {
    hide Meaning;
  }

  lemma ItemStands(c: string, o: nat, x: Item)
    requires StartsAt(c, o, x.before) && StartsAt(c, o + |x.before|, Spelled(x.value))
    requires StartsAt(c, o + |x.before| + |Spelled(x.value)|, x.after)
    ensures StartsAt(c, o, ItemText(x)) && |ItemText(x)| == |x.before| + |Spelled(x.value)| + |x.after|
  {
    hide StartsAt, Spelled;
    StartsSplit(c, o + |x.before|, Spelled(x.value), x.after);
    StartsSplit(c, o, x.before, Spelled(x.value) + x.after);
  }

  lemma {:induction false} RecordSpelled(c: string, o: nat, depth: nat) returns (s: Spelling)
    requires OneNul(c) && o < |c| && c[o] == '{' && ParseObject(c, o, depth).Ok?
    ensures Legal(s) && Meaning(s) == ParseObject(c, o, depth).value
    ensures StartsAt(c, o, Spelled(s)) && o + |Spelled(s)| == ParseObject(c, o, depth).next
    decreases |c| - o, 0
  {
    hide StartsAt, Skip, ParseMembers, LegalEntry, Blanks, EntryTexts, EntryMeanings;
    NulEnds(c, o);
    OneStarts(c, o);
    var p := Skip(c, o + 1);
    if c[p] == '}' {
      var blanks := Gap(c, o + 1);
      OneStarts(c, p);
      s := Record(blanks, []);
      StartsSplit(c, o + 1, blanks, "}");
      StartsSplit(c, o, "{", blanks + "}");
      NoEntryMeanings([]);
    } else {
      SkipTwice(c, o + 1);
      MembersSkip(c, o + 1, p, depth + 1);
      var members := EntriesSpelled(c, o + 1, depth + 1);
      s := Record("", members);
      StartsSplit(c, o, "{", EntryTexts(members) + "}");
    }
  }

  lemma {:induction false} EntriesSpelled(c: string, o: nat, depth: nat) returns (members: seq<Entry>)
    requires OneNul(c) && o < |c| && ParseMembers(c, o, depth).Ok?
    ensures |members| > 0 && (forall i :: 0 <= i < |members| ==> LegalEntry(members[i]))
    ensures EntryMeanings(members) == ParseMembers(c, o, depth).value
    ensures StartsAt(c, o, EntryTexts(members) + "}") && o + |EntryTexts(members)| + 1 == ParseMembers(c, o, depth).next
    decreases |c| - o, 3
  {
    hide StartsAt, Skip, ParseMember, LegalEntry, EntryMeaning, EntryTexts, EntryMeanings, EntryText, OneNul;
    var x, e := EntrySpelled(c, o, depth);
    OneStarts(c, e);
    if c[e] == ',' {
      var tail := EntriesSpelled(c, e + 1, depth);
      members := [x] + tail;
      assert members[1..] == tail;
      StartsSplit(c, e, ",", EntryTexts(tail) + "}");
      StartsSplit(c, o, EntryText(x), "," + (EntryTexts(tail) + "}"));
      EntriesFromFront(members);
      EntryMeaningsFromFront(members);
    } else {
      members := [x];
      assert members[1..] == [];
      StartsSplit(c, o, EntryText(x), "}");
      EntriesFromFront(members);
      EntryMeaningsFromFront(members);
      NoEntryMeanings([]);
    }
  }

  lemma EntryMeaningsFromFront(members: seq<Entry>)
    requires |members| > 0
    ensures EntryMeanings(members) == [EntryMeaning(members[0])] + EntryMeanings(members[1..])
  {
    hide EntryMeaning;
  }

  lemma {:induction false} EntrySpelled(c: string, o: nat, depth: nat) returns (x: Entry, e: nat)
    requires OneNul(c) && o < |c| && ParseMember(c, o, depth).Ok?
    ensures LegalEntry(x) && EntryMeaning(x) == ParseMember(c, o, depth).value
    ensures e == Skip(c, ParseMember(c, o, depth).next)
    ensures StartsAt(c, o, EntryText(x)) && o + |EntryText(x)| == e
    decreases |c| - o, 2
  {
    hide StartsAt, Skip, ParseValue, ParseString, Legal, Blanks, Spelled, Meaning, ItemText, OneNul, IsBody, Quoting,
      BodyValue;
    var k := Skip(c, o);
    var before := Gap(c, o);
    var raw := StringSpelled(c, k);
    var q := k + |Quoting(raw)|;
    var after := Gap(c, q);
    var colon := Skip(c, q);
    OneStarts(c, colon);
    var p := Skip(c, colon + 1);
    var lead := Gap(c, colon + 1);
    var s := ValueSpelled(c, p, depth);
    var trail := Gap(c, p + |Spelled(s)|);
    var item := Item(lead, s, trail);
    ItemStands(c, colon + 1, item);
    x := Entry(before, raw, after, item);
    e := Skip(c, p + |Spelled(s)|);
    assert LegalItem(item);
    StartsSplit(c, colon, ":", ItemText(item));
    StartsSplit(c, q, after, ":" + ItemText(item));
    StartsSplit(c, k, Quoting(raw), after + (":" + ItemText(item)));
    StartsSplit(c, o, before, Quoting(raw) + (after + (":" + ItemText(item))));
  }

  // ---- whole texts -------------------------------------------------------------------------

  lemma BlanksNoNul(blanks: string)
    requires Blanks(blanks)
    ensures NoNul(blanks)
  {}

  lemma {:induction false} SpelledNoNul(s: Spelling)
    requires Legal(s)
    ensures NoNul(Spelled(s))
    decreases s, 0
  {
    hide ItemTexts, EntryTexts, LegalItem, LegalEntry, IsBody;
    match s
    case Atom(v) => AtomNoNul(v);
    case Literal(raw) => assert NoNul(raw) by { BodyNoNul(raw); }
    case List(blanks, items) => if |items| > 0 { ItemsNoNulEither(items); } else { BlanksNoNul(blanks); }
    case Record(blanks, members) => if |members| > 0 { EntriesNoNul(members); } else { BlanksNoNul(blanks); }
  }

  lemma AtomNoNul(v: Value)
    requires IsAtom(v)
    ensures NoNul(Text(v, false, 0))
  {
    hide Converted;
  }

  lemma BodyNoNul(raw: string)
    requires IsBody(raw)
    ensures NoNul(raw)
  {}

  lemma {:induction false} ItemNoNul(x: Item)
    requires LegalItem(x)
    ensures NoNul(ItemText(x))
    decreases x, 1
  {
    hide Spelled, Legal;
    BlanksNoNul(x.before);
    SpelledNoNul(x.value);
    BlanksNoNul(x.after);
  }

  lemma {:induction false} ItemsNoNulEither(items: seq<Item>)
    requires forall i :: 0 <= i < |items| ==> LegalItem(items[i])
    ensures NoNul(ItemTexts(items))
    decreases items, 0
  {
    hide ItemText, LegalItem;
    if |items| > 0 {
      ItemNoNul(items[0]);
      ItemsNoNulEither(items[1..]);
    }
  }

  lemma {:induction false} EntriesNoNul(members: seq<Entry>)
    requires forall i :: 0 <= i < |members| ==> LegalEntry(members[i])
    ensures NoNul(EntryTexts(members))
    decreases members, 0
  {
    hide EntryText, LegalEntry;
    if |members| > 0 {
      EntryNoNul(members[0]);
      EntriesNoNul(members[1..]);
    }
  }

  lemma {:induction false} EntryNoNul(e: Entry)
    requires LegalEntry(e)
    ensures NoNul(EntryText(e))
    decreases e, 1
  {
    hide ItemText, LegalItem, IsBody;
    BlanksNoNul(e.before);
    BodyNoNul(e.raw);
    BlanksNoNul(e.after);
    ItemNoNul(e.item);
  }

  lemma {:induction false} SkipToLast(c: string, o: nat)
    requires |c| > 0 && o < |c| && Blanks(c[o..|c| - 1]) && c[|c| - 1] == '\0'
    ensures Skip(c, o) == |c| - 1
    decreases |c| - o
  {
    if o + 1 < |c| {
      assert c[o] == c[o..|c| - 1][0];
      assert c[o + 1..|c| - 1] == c[o..|c| - 1][1..];
      SkipToLast(c, o + 1);
    }
  }

  /** A text is a value between white space, with or without a byte order mark. */
  function Whole(mark: bool, x: Item): string {
    (if mark then BYTE_ORDER_MARK else "") + ItemText(x)
  }

  /** Any text of a value gives the value, exactly if it is nested at most as deep as the parser goes. */
  lemma SpelledParses(mark: bool, x: Item)
    requires LegalItem(x)
    ensures NoNul(Whole(mark, x))
    ensures
      var r, v := Parse(Whole(mark, x), true), Meaning(x.value);
      if Nesting(v) <= NESTING_LIMIT then r.Ok? && r.value == v else r == Fail
  {
    hide Skip, Legal, Spelled, Meaning, Nesting, NumberChar, ParseValue, StartsAt, Blanks;
    var text := Whole(mark, x);
    ItemNoNul(x);
    var c := text + "\0";
    var o := if mark then 3 else 0;
    assert StartsAt(c, o, ItemText(x)) by {
      assert c[o..o + |ItemText(x)|] == ItemText(x);
      StartsHere(c, o, ItemText(x));
    }
    MarkFound(mark, x, c);
    LastItemReads(x, c, o);
  }

  lemma StartsHere(c: string, o: nat, t: string)
    requires o + |t| <= |c| && c[o..o + |t|] == t
    ensures StartsAt(c, o, t)
  {}

  lemma MarkFound(mark: bool, x: Item, c: string)
    requires LegalItem(x) && c == Whole(mark, x) + "\0"
    ensures (4 < |c| && StartsAt(c, 0, BYTE_ORDER_MARK)) <==> mark
  {
    hide Legal, Spelled, Opener;
    SpellingOpens(x.value);
    if mark {
      assert c[0..3] == BYTE_ORDER_MARK;
      ItemLength(x);
    } else {
      FirstIsNoMark(x);
      assert c[0] == ItemText(x)[0];
      NotStarting(c, 0, BYTE_ORDER_MARK);
    }
  }

  lemma FirstIsNoMark(x: Item)
    requires LegalItem(x)
    ensures |ItemText(x)| > 0 && ItemText(x)[0] != BYTE_ORDER_MARK[0]
  {
    hide Legal, Spelled;
    SpellingOpens(x.value);
  }

  /** A value that only white space follows. */
  lemma LastItemReads(x: Item, c: string, o: nat)
    requires LegalItem(x) && StartsAt(c, o, ItemText(x)) && |c| == o + |ItemText(x)| + 1 && c[|c| - 1] == '\0'
    ensures
      var r, v := ParseValue(c, Skip(c, o), 0), Meaning(x.value);
      && r == Expect(Nesting(v) <= NESTING_LIMIT, v, o + |x.before| + |Spelled(x.value)|)
      && Skip(c, o + |x.before| + |Spelled(x.value)|) == |c| - 1
  {
    hide Skip, Legal, Spelled, Meaning, Nesting, NumberChar, ParseValue, StartsAt, Blanks, Opener;
    var text, tail := Spelled(x.value), x.after + "\0";
    var p, q := o + |x.before|, o + |x.before| + |Spelled(x.value)|;
    SpellingOpens(x.value);
    OpenerShows(text[0]);
    assert ItemText(x) == x.before + (text + x.after);
    StartsSplit(c, o, x.before, text + x.after);
    StartsSplit(c, p, text, x.after);
    StartsWith(c, p, text, 0);
    SkipBlanksTo(c, o, x.before);
    AfterIsBlank(c, q, x.after);
    SpelledReads(x.value, c, p, 0);
    SkipToLast(c, q);
  }

  lemma SkipBlanksTo(c: string, o: nat, blanks: string)
    requires Blanks(blanks) && StartsAt(c, o, blanks) && o + |blanks| < |c| && c[o + |blanks|] > ' '
    ensures Skip(c, o) == o + |blanks|
  {
    SkipBlanks(c, o, blanks);
  }

  lemma AfterIsBlank(c: string, q: nat, after: string)
    requires Blanks(after) && StartsAt(c, q, after) && |c| == q + |after| + 1 && c[|c| - 1] == '\0'
    ensures !NumberChar(c[q]) && Blanks(c[q..|c| - 1])
  {
    assert c[q..|c| - 1] == after;
    if |after| > 0 {
      assert c[q] == after[0];
    }
  }

  /** And whatever is taken as a whole is a text of the value it is taken for. */
  lemma ParsedIsSpelled(text: string) returns (mark: bool, x: Item)
    requires NoNul(text) && Parse(text, true).Ok?
    ensures LegalItem(x) && text == Whole(mark, x) && Meaning(x.value) == Parse(text, true).value
  {
    hide Skip, Legal, Spelled, Meaning, ParseValue, Blanks, StartsAt, ItemText;
    var c := text + "\0";
    assert c[..|c| - 1] == text;
    mark := 4 < |c| && StartsAt(c, 0, BYTE_ORDER_MARK);
    var o := if mark then 3 else 0;
    var p := Skip(c, o);
    var before := Gap(c, o);
    var s := ValueSpelled(c, p, 0);
    var q := p + |Spelled(s)|;
    var after := Gap(c, q);
    x := Item(before, s, after);
    ItemStands(c, o, x);
    OnlyNul(c, Skip(c, q));
    WholeStands(text, mark, x);
  }

  /** A text, from the byte order mark on, of a value. */
  predicate Spells(text: string, mark: bool, x: Item, v: Value) {
    LegalItem(x) && text == Whole(mark, x) && Meaning(x.value) == v
  }

  /** The whole of what the parser takes, and for what. */
  lemma ParsedIffSpelled(text: string, v: Value)
    requires NoNul(text)
    ensures Parse(text, true).Ok? && Parse(text, true).value == v
      <==> Nesting(v) <= NESTING_LIMIT && exists mark: bool, x: Item :: Spells(text, mark, x, v)
  {
    hide Parse, LegalItem, Meaning, Whole, Nesting;
    if Parse(text, true).Ok? {
      var mark, x := ParsedIsSpelled(text);
      SpelledParses(mark, x);
      assert Spells(text, mark, x, Parse(text, true).value);
    }
    forall mark, x | Spells(text, mark, x, v)
      ensures Nesting(v) <= NESTING_LIMIT ==> Parse(text, true).Ok? && Parse(text, true).value == v
    {
      SpelledParses(mark, x);
    }
  }

  lemma WholeStands(text: string, mark: bool, x: Item)
    requires mark ==> StartsAt(text + "\0", 0, BYTE_ORDER_MARK)
    requires var o := if mark then 3 else 0; StartsAt(text + "\0", o, ItemText(x)) && o + |ItemText(x)| == |text|
    ensures text == Whole(mark, x)
  {
    hide ItemText;
    var c, o := text + "\0", if mark then 3 else 0;
    assert c[..|text|] == text;
    assert c[..|text|] == c[0..o] + c[o..o + |ItemText(x)|];
  }

  lemma OnlyNul(c: string, e: nat)
    requires OneNul(c) && e < |c| && c[e] == '\0'
    ensures e == |c| - 1
  {
    NotNulBefore(c, |c| - 1, e);
  }

  lemma NotNulBefore(c: string, n: nat, i: nat)
    requires n <= |c| && NoNul(c[..n])
    ensures i < n ==> c[i] != '\0'
  {
    if i < n {
      assert c[..n][i] == c[i];
    }
  }
}
