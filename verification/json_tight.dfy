/** Minifying any text that the parser takes keeps the value it is taken for. */
module JsonTight {
  import opened JsonText
  import opened JsonGrammar
  import opened JsonRoundTrip
  import opened JsonSpelling
  import JsonMinify

  /** White space without the four characters that the minifier takes out. */
  function Unblanked(s: string): string {
    if |s| == 0 then ""
    else (if JsonMinify.Blank(s[0]) then "" else [s[0]]) + Unblanked(s[1..])
  }

  /** The spelling without that white space. */
  function Tight(s: Spelling): Spelling
    decreases s
  {
    match s
    case Atom(v) => s
    case Literal(raw) => s
    case List(blanks, items) => List(Unblanked(blanks), TightItems(items))
    case Record(blanks, members) => Record(Unblanked(blanks), TightEntries(members))
  }

  function TightItem(x: Item): Item
    decreases x
  {
    Item(Unblanked(x.before), Tight(x.value), Unblanked(x.after))
  }

  function TightItems(items: seq<Item>): (r: seq<Item>)
    ensures |r| == |items|
    decreases items
  {
    if |items| == 0 then [] else [TightItem(items[0])] + TightItems(items[1..])
  }

  function TightEntry(e: Entry): Entry
    decreases e
  {
    Entry(Unblanked(e.before), e.raw, Unblanked(e.after), TightItem(e.item))
  }

  function TightEntries(members: seq<Entry>): (r: seq<Entry>)
    ensures |r| == |members|
    decreases members
  {
    if |members| == 0 then [] else [TightEntry(members[0])] + TightEntries(members[1..])
  }

  // ---- it is legal and means the same ------------------------------------------------------

  lemma {:induction false} UnblankedIsBlanks(s: string)
    requires Blanks(s)
    ensures Blanks(Unblanked(s))
  {
    if |s| > 0 {
      UnblankedIsBlanks(s[1..]);
    }
  }

  lemma {:induction false} TightMeans(s: Spelling)
    requires Legal(s)
    ensures Legal(Tight(s)) && Meaning(Tight(s)) == Meaning(s)
    decreases s, 0
  {
    hide IsBody, BodyValue, IsAtom, Blanks, LegalItem, LegalEntry, Meanings, EntryMeanings, TightItems, TightEntries;
    match s
    case Atom(_) =>
    case Literal(_) =>
    case List(blanks, items) =>
      TightItemsMean(items);
      if |items| == 0 {
        UnblankedIsBlanks(blanks);
      }
    case Record(blanks, members) =>
      TightEntriesMean(members);
      if |members| == 0 {
        UnblankedIsBlanks(blanks);
      }
  }

  lemma {:induction false} TightItemMeans(x: Item)
    requires LegalItem(x)
    ensures LegalItem(TightItem(x)) && Meaning(TightItem(x).value) == Meaning(x.value)
    decreases x, 0
  {
    hide Legal, Meaning, Tight, Blanks;
    UnblankedIsBlanks(x.before);
    TightMeans(x.value);
    UnblankedIsBlanks(x.after);
  }

  lemma {:induction false} TightItemsMean(items: seq<Item>)
    requires forall i :: 0 <= i < |items| ==> LegalItem(items[i])
    ensures forall i :: 0 <= i < |items| ==> LegalItem(TightItems(items)[i])
    ensures Meanings(TightItems(items)) == Meanings(items)
    decreases items, 0
  {
    hide LegalItem, Meaning, TightItem, Meanings;
    if |items| == 0 {
      NoMeanings(items);
      NoMeanings(TightItems(items));
    } else {
      TightItemMeans(items[0]);
      TightItemsMean(items[1..]);
      var tight := TightItems(items);
      assert tight[1..] == TightItems(items[1..]);
      MeaningsFromFront(items);
      MeaningsFromFront(tight);
    }
  }

  lemma {:induction false} TightEntryMeans(e: Entry)
    requires LegalEntry(e)
    ensures LegalEntry(TightEntry(e)) && EntryMeaning(TightEntry(e)) == EntryMeaning(e)
    decreases e, 0
  {
    hide LegalItem, Meaning, TightItem, Blanks, IsBody, BodyValue;
    UnblankedIsBlanks(e.before);
    UnblankedIsBlanks(e.after);
    TightItemMeans(e.item);
  }

  lemma {:induction false} TightEntriesMean(members: seq<Entry>)
    requires forall i :: 0 <= i < |members| ==> LegalEntry(members[i])
    ensures forall i :: 0 <= i < |members| ==> LegalEntry(TightEntries(members)[i])
    ensures EntryMeanings(TightEntries(members)) == EntryMeanings(members)
    decreases members, 0
  {
    hide LegalEntry, EntryMeaning, TightEntry, EntryMeanings;
    if |members| == 0 {
      NoEntryMeanings(members);
      NoEntryMeanings(TightEntries(members));
    } else {
      TightEntryMeans(members[0]);
      TightEntriesMean(members[1..]);
      var tight := TightEntries(members);
      assert tight[1..] == TightEntries(members[1..]);
      EntryMeaningsFromFront(members);
      EntryMeaningsFromFront(tight);
    }
  }

  // ---- it is what the minifier leaves ------------------------------------------------------

  lemma {:induction false} GapKept(c: string, p: nat, s: string)
    requires StartsAt(c, p, s) && Blanks(s)
    ensures JsonMinify.Keeps(c, p, p + |s|, Unblanked(s))
    decreases |s|
  {
    hide JsonMinify.Minified;
    if |s| == 0 {
      JsonMinify.KeepsNothing(c, p);
    } else {
      assert s == s[..1] + s[1..];
      StartsSplit(c, p, s[..1], s[1..]);
      GapKept(c, p + 1, s[1..]);
      hide JsonMinify.Keeps;
      if JsonMinify.Blank(s[0]) {
        JsonMinify.BlanksDropped(c, p, s[..1]);
        JsonMinify.KeepsBoth(c, p, p + 1, p + |s|, "", Unblanked(s[1..]));
      } else {
        JsonMinify.PlainKept(c, p, s[..1]);
        assert s[..1] == [s[0]];
        JsonMinify.KeepsBoth(c, p, p + 1, p + |s|, s[..1], Unblanked(s[1..]));
      }
    }
  }

  lemma AtomKept(c: string, p: nat, v: Value)
    requires IsAtom(v) && StartsAt(c, p, Text(v, false, 0))
    ensures JsonMinify.Keeps(c, p, p + |Text(v, false, 0)|, Text(v, false, 0))
  {
    hide Converted, StartsAt, JsonMinify.Keeps;
    JsonMinify.PlainKept(c, p, Text(v, false, 0));
  }

  lemma BodyKept(c: string, p: nat, raw: string)
    requires IsBody(raw) && StartsAt(c, p, Quoting(raw))
    ensures JsonMinify.Keeps(c, p, p + |Quoting(raw)|, Quoting(raw))
  {
    hide CloseQuote, Unescaped, JsonMinify.Literal;
    var d := raw + "\"";
    StartsSplit(c, p, "\"", d);
    StartsWith(c, p, "\"", 0);
    assert Alike(c, p + 1, d, 0, |d|) by {
      assert d[0..|d|] == d;
    }
    ClosesAlike(c, p + 1, d, 0, |raw|);
    assert c[p + 1..p + 1 + |raw|] == raw by {
      StartsSplit(c, p + 1, raw, "\"");
    }
    JsonMinify.LiteralCloses(c, p + 1, p + 1 + |raw|);
  }

  lemma {:induction false} TightKept(c: string, p: nat, s: Spelling)
    requires Legal(s) && StartsAt(c, p, Spelled(s))
    ensures JsonMinify.Keeps(c, p, p + |Spelled(s)|, Spelled(Tight(s)))
    decreases s, 0
  {
    hide IsBody, IsAtom, Blanks, LegalItem, LegalEntry, ItemTexts, EntryTexts, TightItems, TightEntries, StartsAt,
      JsonMinify.Keeps;
    match s
    case Atom(v) => AtomKept(c, p, v);
    case Literal(raw) => BodyKept(c, p, raw);
    case List(blanks, items) =>
      var inner := if |items| == 0 then blanks else ItemTexts(items);
      StartsSplit(c, p, "[", inner + "]");
      StartsSplit(c, p + 1, inner, "]");
      if |items| == 0 {
        GapKept(c, p + 1, blanks);
      } else {
        TightItemsKept(c, p + 1, items);
      }
      Bracketed(c, p, "[", "]", inner, if |items| == 0 then Unblanked(blanks) else ItemTexts(TightItems(items)));
    case Record(blanks, members) =>
      var inner := if |members| == 0 then blanks else EntryTexts(members);
      StartsSplit(c, p, "{", inner + "}");
      StartsSplit(c, p + 1, inner, "}");
      if |members| == 0 {
        GapKept(c, p + 1, blanks);
      } else {
        TightEntriesKept(c, p + 1, members);
      }
      Bracketed(c, p, "{", "}", inner, if |members| == 0 then Unblanked(blanks) else EntryTexts(TightEntries(members)));
  }

  lemma Bracketed(c: string, p: nat, open: string, close: string, inner: string, tight: string)
    requires (open == "[" && close == "]") || (open == "{" && close == "}")
    requires StartsAt(c, p, open) && StartsAt(c, p + 1 + |inner|, close)
    requires JsonMinify.Keeps(c, p + 1, p + 1 + |inner|, tight)
    ensures JsonMinify.Keeps(c, p, p + |open + (inner + close)|, open + (tight + close))
  {
    hide StartsAt, JsonMinify.Keeps;
    JsonMinify.PlainKept(c, p, open);
    JsonMinify.PlainKept(c, p + 1 + |inner|, close);
    JsonMinify.KeepsBoth(c, p, p + 1, p + 1 + |inner|, open, tight);
    JsonMinify.KeepsBoth(c, p, p + 1 + |inner|, p + 2 + |inner|, open + tight, close);
    assert (open + tight) + close == open + (tight + close);
  }

  lemma {:induction false} TightItemKept(c: string, p: nat, x: Item)
    requires LegalItem(x) && StartsAt(c, p, ItemText(x))
    ensures JsonMinify.Keeps(c, p, p + |ItemText(x)|, ItemText(TightItem(x)))
    decreases x, 0
  {
    hide Legal, Spelled, Tight, Blanks, StartsAt, JsonMinify.Keeps;
    var b, t, a := x.before, Spelled(x.value), x.after;
    StartsSplit(c, p, b, t + a);
    StartsSplit(c, p + |b|, t, a);
    GapKept(c, p, b);
    TightKept(c, p + |b|, x.value);
    GapKept(c, p + |b| + |t|, a);
    var u := Spelled(Tight(x.value));
    JsonMinify.KeepsBoth(c, p + |b|, p + |b| + |t|, p + |b| + |t| + |a|, u, Unblanked(a));
    JsonMinify.KeepsBoth(c, p, p + |b|, p + |b| + |t| + |a|, Unblanked(b), u + Unblanked(a));
  }

  lemma CommaKept(c: string, p: nat, before: string, tail: string, a: string, b: string)
    requires StartsAt(c, p, before + ("," + tail))
    requires JsonMinify.Keeps(c, p, p + |before|, a)
    requires StartsAt(c, p + |before| + 1, tail) ==>
      JsonMinify.Keeps(c, p + |before| + 1, p + |before| + 1 + |tail|, b)
    ensures JsonMinify.Keeps(c, p, p + |before + ("," + tail)|, a + ("," + b))
  {
    hide StartsAt, JsonMinify.Keeps;
    var q := p + |before|;
    StartsSplit(c, p, before, "," + tail);
    StartsSplit(c, q, ",", tail);
    JsonMinify.PlainKept(c, q, ",");
    JsonMinify.KeepsBoth(c, q, q + 1, q + 1 + |tail|, ",", b);
    JsonMinify.KeepsBoth(c, p, q, q + 1 + |tail|, a, "," + b);
  }

  lemma {:induction false} TightItemsKept(c: string, p: nat, items: seq<Item>)
    requires |items| > 0 && (forall i :: 0 <= i < |items| ==> LegalItem(items[i])) && StartsAt(c, p, ItemTexts(items))
    ensures JsonMinify.Keeps(c, p, p + |ItemTexts(items)|, ItemTexts(TightItems(items)))
    decreases items, 0
  {
    hide LegalItem, ItemText, TightItem, StartsAt, JsonMinify.Keeps;
    var first, tight := ItemText(items[0]), TightItems(items);
    if |items| == 1 {
      assert tight == [TightItem(items[0])];
      TightItemKept(c, p, items[0]);
    } else {
      var tail := ItemTexts(items[1..]);
      assert tight[1..] == TightItems(items[1..]);
      StartsSplit(c, p, first, "," + tail);
      StartsSplit(c, p + |first|, ",", tail);
      TightItemKept(c, p, items[0]);
      TightItemsKept(c, p + |first| + 1, items[1..]);
      CommaKept(c, p, first, tail, ItemText(tight[0]), ItemTexts(tight[1..]));
    }
  }

  lemma {:induction false} TightEntryKept(c: string, p: nat, e: Entry)
    requires LegalEntry(e) && StartsAt(c, p, EntryText(e))
    ensures JsonMinify.Keeps(c, p, p + |EntryText(e)|, EntryText(TightEntry(e)))
    decreases e, 0
  {
    hide LegalItem, ItemText, TightItem, Blanks, IsBody, Quoting, StartsAt, JsonMinify.Keeps;
    var b, k, a, t := e.before, Quoting(e.raw), e.after, ItemText(e.item);
    var q := p + |b|;
    var r := q + |k|;
    var s := r + |a|;
    StartsSplit(c, p, b, k + (a + (":" + t)));
    StartsSplit(c, q, k, a + (":" + t));
    StartsSplit(c, r, a, ":" + t);
    StartsSplit(c, s, ":", t);
    GapKept(c, p, b);
    BodyKept(c, q, e.raw);
    GapKept(c, r, a);
    JsonMinify.PlainKept(c, s, ":");
    TightItemKept(c, s + 1, e.item);
    var u, v, w := Unblanked(b), Unblanked(a), ItemText(TightItem(e.item));
    JsonMinify.KeepsBoth(c, s, s + 1, s + 1 + |t|, ":", w);
    JsonMinify.KeepsBoth(c, r, s, s + 1 + |t|, v, ":" + w);
    JsonMinify.KeepsBoth(c, q, r, s + 1 + |t|, k, v + (":" + w));
    JsonMinify.KeepsBoth(c, p, q, s + 1 + |t|, u, k + (v + (":" + w)));
  }

  lemma {:induction false} TightEntriesKept(c: string, p: nat, members: seq<Entry>)
    requires |members| > 0 && (forall i :: 0 <= i < |members| ==> LegalEntry(members[i]))
    requires StartsAt(c, p, EntryTexts(members))
    ensures JsonMinify.Keeps(c, p, p + |EntryTexts(members)|, EntryTexts(TightEntries(members)))
    decreases members, 0
  {
    hide LegalEntry, EntryText, TightEntry, StartsAt, JsonMinify.Keeps;
    var first, tight := EntryText(members[0]), TightEntries(members);
    if |members| == 1 {
      assert tight == [TightEntry(members[0])];
      TightEntryKept(c, p, members[0]);
    } else {
      var tail := EntryTexts(members[1..]);
      assert tight[1..] == TightEntries(members[1..]);
      StartsSplit(c, p, first, "," + tail);
      StartsSplit(c, p + |first|, ",", tail);
      TightEntryKept(c, p, members[0]);
      TightEntriesKept(c, p + |first| + 1, members[1..]);
      CommaKept(c, p, first, tail, EntryText(tight[0]), EntryTexts(tight[1..]));
    }
  }

  // ---- the whole ---------------------------------------------------------------------------

  /** Any text that is parsed as a whole can be minified, and then parses as a whole to the same value. */
  lemma MinifiedMeansSame(text: string)
    requires NoNul(text) && Parse(text, true).Ok?
    ensures
      var m := JsonMinify.Minified(text + "\0", 0);
      && m.Ok? && NoNul(m.value)
      && Parse(m.value, true).Ok? && Parse(m.value, true).value == Parse(text, true).value
  {
    hide JsonMinify.Minified, Parse, LegalItem, ItemText, TightItem, Meaning, Nesting;
    var mark, x := ParsedIsSpelled(text);
    SpelledParses(mark, x);
    WholeKept(mark, x);
    TightItemMeans(x);
    SpelledParses(mark, TightItem(x));
  }

  lemma WholeKept(mark: bool, x: Item)
    requires LegalItem(x)
    ensures JsonMinify.Minified(Whole(mark, x) + "\0", 0) == Ok(Whole(mark, TightItem(x)), |Whole(mark, x)|)
  {
    hide LegalItem, ItemText, TightItem, StartsAt, JsonMinify.Keeps;
    var c, m := Whole(mark, x) + "\0", if mark then BYTE_ORDER_MARK else "";
    var t := ItemText(x);
    StartsHere(c, 0, m);
    assert c[|m|..|m| + |t|] == t;
    StartsHere(c, |m|, t);
    JsonMinify.PlainKept(c, 0, m);
    TightItemKept(c, |m|, x);
    JsonMinify.KeepsBoth(c, 0, |m|, |m| + |t|, m, ItemText(TightItem(x)));
    KeptToEnd(c, |m| + |t|, m + ItemText(TightItem(x)));
  }

  lemma KeptToEnd(c: string, e: nat, kept: string)
    requires JsonMinify.Keeps(c, 0, e, kept) && e < |c| && c[e] == '\0'
    ensures JsonMinify.Minified(c, 0) == Ok(kept, e)
  {
    assert JsonMinify.Minified(c, e) == Ok("", e);
    assert kept + "" == kept;
  }

  /** A buffer starts with a C string that parses to a value. */
  predicate Means(buffer: string, text: string, v: Value) {
    text + "\0" <= buffer && NoNul(text) && Parse(text, true).Ok? && Parse(text, true).value == v
  }

  /** So the text in a buffer keeps its value when it is minified there. */
  method MinifyText(json: array<char>, ghost text: string)
    requires json[..] == text + "\0" && NoNul(text) && Parse(text, true).Ok?
    modifies json
    ensures exists m: string :: Means(json[..], m, Parse(text, true).value)
  {
    hide Parse, JsonMinify.Minified;
    MinifiedMeansSame(text);
    ghost var m := JsonMinify.Minified(json[..], 0).value;
    JsonMinify.Minify(json);
    assert json[..|m| + 1] == m + "\0";
    assert Means(json[..], m, Parse(text, true).value);
  }
}
