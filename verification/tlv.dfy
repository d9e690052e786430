/** TLV8: values longer than 255 bytes are cut into chunks, and chunks of one type are put together again. */
module Tlv {
  import opened Options

  type byte = b: int | 0 <= b < 256

  datatype Item = Item(kind: byte, value: seq<byte>)

  /** The chunks of a value: full ones, then one for what is left; one empty chunk for an empty value. */
  function Chunks(kind: byte, v: seq<byte>): (c: seq<byte>)
    ensures |c| >= 2 && c[0] == kind && (c[1] == 0 <==> |v| == 0)
    decreases |v|
  {
    if |v| <= 255 then [kind, |v| as byte] + v else [kind, 255] + v[..255] + Chunks(kind, v[255..])
  }

  function Formatted(items: seq<Item>): seq<byte> {
    if |items| == 0 then [] else Chunks(items[0].kind, items[0].value) + Formatted(items[1..])
  }

  /** Where the first chunk ends. */
  function ChunkEnd(s: seq<byte>): (n: nat)
    requires |s| >= 2
    ensures 2 <= n <= 257
  {
    s[1] as int + 2
  }

  /** Every chunk lies wholly within the bytes. */
  predicate Whole(s: seq<byte>)
    decreases |s|
  {
    |s| == 0 || (|s| >= 2 && |s| >= ChunkEnd(s) && Whole(s[ChunkEnd(s)..]))
  }

  /** A chunk is continued by the next if it is full and that has the same type and is not empty. */
  predicate Continued(s: seq<byte>)
    requires Whole(s) && |s| > 0
  {
    s[1] == 255 && |s| > 258 && s[257] == s[0] && s[258] > 0
  }

  /** The first value of the bytes, and the bytes after it. */
  function First(s: seq<byte>): (r: (seq<byte>, seq<byte>))
    requires Whole(s) && |s| > 0
    ensures Whole(r.1) && |r.1| < |s|
    decreases |s|
  {
    if Continued(s) then (s[2..257] + First(s[257..]).0, First(s[257..]).1)
    else (s[2..ChunkEnd(s)], s[ChunkEnd(s)..])
  }

  function Parsed(s: seq<byte>): seq<Item>
    requires Whole(s)
    decreases |s|
  {
    if |s| == 0 then [] else [Item(s[0], First(s).0)] + Parsed(First(s).1)
  }

  /** The second value is taken for a continuation of the first. */
  predicate Runs(a: Item, b: Item) {
    |a.value| > 0 && |a.value| % 255 == 0 && a.kind == b.kind && |b.value| > 0
  }

  /** No value runs into the next. */
  predicate Separated(items: seq<Item>) {
    forall i :: 0 <= i < |items| - 1 ==> !Runs(items[i], items[i + 1])
  }

  /** What a list becomes when values that run into each other are put together. */
  function Merged(items: seq<Item>): (m: seq<Item>)
    ensures |m| <= |items| && (|items| > 0 ==> |m| > 0)
    ensures |items| > 0 ==> m[0].kind == items[0].kind && (|m[0].value| == 0 <==> |items[0].value| == 0)
  {
    if |items| == 0 then []
    else
      var rest := Merged(items[1..]);
      if |items| > 1 && Runs(items[0], items[1]) then
        [Item(items[0].kind, items[0].value + rest[0].value)] + rest[1..]
      else [items[0]] + rest
  }

  lemma SeparatedTail(items: seq<Item>)
    requires |items| > 1
    ensures Separated(items) <==> !Runs(items[0], items[1]) && Separated(items[1..])
  {
    var rest := items[1..];
    if Separated(rest) && !Runs(items[0], items[1]) {
      forall i | 0 <= i < |items| - 1
        ensures !Runs(items[i], items[i + 1])
      {
        if i > 0 {
          assert !Runs(rest[i - 1], rest[i - 1 + 1]);
        }
      }
    }
    if Separated(items) {
      forall i | 0 <= i < |rest| - 1
        ensures !Runs(rest[i], rest[i + 1])
      {
        assert !Runs(items[i + 1], items[i + 1 + 1]);
      }
    }
  }

  lemma {:induction false} MergedIsSame(items: seq<Item>)
    ensures Merged(items) == items <==> Separated(items)
  {
    if |items| > 1 {
      MergedIsSame(items[1..]);
      var rest := items[1..];
      if Runs(items[0], items[1]) {
        assert Merged(items)[0].value != items[0].value;
      } else {
        assert Merged(items)[1..] == Merged(rest) && items == [items[0]] + rest;
        SeparatedTail(items);
      }
    }
  }

  /** How many chunks a value takes. */
  function ChunkCount(n: nat): nat {
    if n <= 255 then 1 else (n + 254) / 255
  }

  function ChunkSize(n: nat, k: nat): int {
    if k == ChunkCount(n) - 1 then n - 255 * k else 255
  }

  /** At its place there are the type, the length, and that many bytes of the value. */
  predicate ChunkLies(c: seq<byte>, kind: byte, v: seq<byte>, k: nat, n: int) {
    && 0 <= n <= 255 && 257 * k + 2 + n <= |c| && 255 * k + n <= |v|
    && c[257 * k] == kind && c[257 * k + 1] == n && c[257 * k + 2..257 * k + 2 + n] == v[255 * k..255 * k + n]
  }

  /** All chunks but the last have 255 bytes, and from one to the next it is 257 places. */
  lemma {:induction false} ChunksLie(kind: byte, v: seq<byte>, k: nat)
    requires k < ChunkCount(|v|)
    ensures |Chunks(kind, v)| == |v| + 2 * ChunkCount(|v|)
    ensures ChunkLies(Chunks(kind, v), kind, v, k, ChunkSize(|v|, k))
    decreases |v|
  {
    if |v| > 255 {
      hide ChunkLies, ChunkCount, ChunkSize;
      var rest := v[255..];
      OneChunkMore(|v|, k);
      ChunksLie(kind, rest, if k == 0 then 0 else k - 1);
      if k == 0 {
        FirstLies(kind, v[..255], Chunks(kind, rest), rest);
      } else {
        Shifted([kind, 255] + v[..255], v[..255], Chunks(kind, rest), kind, rest, k - 1, ChunkSize(|rest|, k - 1));
      }
      assert v == v[..255] + rest;
    } else {
      assert 0 < ChunkCount(|v|) <= 1;
    }
  }

  lemma OneChunkMore(n: nat, k: nat)
    requires n > 255
    ensures ChunkCount(n) == ChunkCount(n - 255) + 1 && ChunkCount(n - 255) > 0
    ensures k < ChunkCount(n) ==> ChunkSize(n, k) == if k == 0 then 255 else ChunkSize(n - 255, k - 1)
  {}

  lemma FirstLies(kind: byte, front: seq<byte>, c: seq<byte>, v: seq<byte>)
    requires |front| == 255
    ensures ChunkLies([kind, 255] + front + c, kind, front + v, 0, 255)
  {}

  lemma Shifted(head: seq<byte>, front: seq<byte>, c: seq<byte>, kind: byte, v: seq<byte>, k: nat, n: int)
    requires |head| == 257 && |front| == 255 && ChunkLies(c, kind, v, k, n)
    ensures ChunkLies(head + c, kind, front + v, k + 1, n)
  {
    var o, i := 257 * k, 255 * k;
    var d, w := head + c, front + v;
    assert 257 * (k + 1) == 257 + o && 255 * (k + 1) == 255 + i;
    assert d[257 + o + 2..257 + o + 2 + n] == c[o + 2..o + 2 + n];
    assert w[255 + i..255 + i + n] == v[i..i + n];
  }

  lemma {:induction false} ChunksWhole(kind: byte, v: seq<byte>, tail: seq<byte>)
    requires Whole(tail)
    ensures Whole(Chunks(kind, v) + tail)
    decreases |v|
  {
    var s := Chunks(kind, v) + tail;
    if |v| <= 255 {
      assert s[ChunkEnd(s)..] == tail;
    } else {
      ChunksWhole(kind, v[255..], tail);
      assert s[257..] == Chunks(kind, v[255..]) + tail;
    }
  }

  lemma {:induction false} FormattedWhole(items: seq<Item>)
    ensures Whole(Formatted(items))
  {
    if |items| > 0 {
      FormattedWhole(items[1..]);
      ChunksWhole(items[0].kind, items[0].value, Formatted(items[1..]));
    }
  }

  /** The first value read from chunks: the value itself, and what it runs into. */
  lemma {:induction false} FirstOfChunks(kind: byte, v: seq<byte>, tail: seq<byte>)
    requires Whole(tail)
    ensures Whole(Chunks(kind, v) + tail)
    ensures First(Chunks(kind, v) + tail)
      == if |v| > 0 && |v| % 255 == 0 && |tail| > 0 && tail[0] == kind && tail[1] > 0
         then (v + First(tail).0, First(tail).1) else (v, tail)
    decreases |v|
  {
    hide First, Chunks;
    ChunksWhole(kind, v, tail);
    if |v| <= 255 {
      FirstOfOne(kind, v, tail);
    } else {
      ChunksWhole(kind, v[255..], tail);
      FirstOfChunks(kind, v[255..], tail);
      FirstOfMore(kind, v, tail);
      assert v == v[..255] + v[255..];
      if |v| % 255 == 0 && |tail| > 0 && tail[0] == kind && tail[1] > 0 {
        assert v[..255] + (v[255..] + First(tail).0) == v + First(tail).0;
      }
    }
  }

  lemma FirstOfOne(kind: byte, v: seq<byte>, tail: seq<byte>)
    requires Whole(tail) && |v| <= 255 && Whole(Chunks(kind, v) + tail)
    ensures First(Chunks(kind, v) + tail)
      == if |v| == 255 && |tail| > 0 && tail[0] == kind && tail[1] > 0
         then (v + First(tail).0, First(tail).1) else (v, tail)
  {
    var s := Chunks(kind, v) + tail;
    assert s[ChunkEnd(s)..] == tail && s[2..ChunkEnd(s)] == v;
  }

  lemma FirstOfMore(kind: byte, v: seq<byte>, tail: seq<byte>)
    requires |v| > 255 && Whole(Chunks(kind, v) + tail) && Whole(Chunks(kind, v[255..]) + tail)
    ensures
      var r := First(Chunks(kind, v[255..]) + tail);
      First(Chunks(kind, v) + tail) == (v[..255] + r.0, r.1)
  {
    var s := Chunks(kind, v) + tail;
    assert s[257..] == Chunks(kind, v[255..]) + tail && s[2..257] == v[..255];
  }

  /** Parsing what was formatted gives the list back, up to values that run into each other. */
  lemma {:induction false} ParsedFormatted(items: seq<Item>)
    ensures Whole(Formatted(items)) && Parsed(Formatted(items)) == Merged(items)
  {
    if |items| > 0 {
      var x, rest := items[0], items[1..];
      FormattedWhole(items);
      ParsedFormatted(rest);
      FirstOfChunks(x.kind, x.value, Formatted(rest));
      if |rest| > 0 {
        var tail := Formatted(rest);
        assert tail[0] == rest[0].kind && (tail[1] == 0 <==> |rest[0].value| == 0);
        assert Merged(rest) == [Item(tail[0], First(tail).0)] + Parsed(First(tail).1);
      }
    }
  }

  /** The list comes back exactly if no value runs into the next: that is, if none of a positive multiple of
      255 bytes is followed by one of the same type that is not empty. */
  lemma RoundTrip(items: seq<Item>)
    ensures Whole(Formatted(items))
    ensures Parsed(Formatted(items)) == items <==> Separated(items)
  {
    ParsedFormatted(items);
    MergedIsSame(items);
  }

  function FirstOf(items: seq<Item>, kind: byte): Option<seq<byte>> {
    if |items| == 0 then None else if items[0].kind == kind then Some(items[0].value) else FirstOf(items[1..], kind)
  }

  /** How many bytes the format takes. */
  function Required(items: seq<Item>): nat {
    if |items| == 0 then 0
    else
      var n := |items[0].value|;
      (if n > 0 then n + 2 * ((n + 254) / 255) else 2) + Required(items[1..])
  }

  lemma {:induction false} ChunksLength(kind: byte, v: seq<byte>)
    ensures |Chunks(kind, v)| == if |v| > 0 then |v| + 2 * ((|v| + 254) / 255) else 2
    decreases |v|
  {
    if |v| > 255 {
      ChunksLength(kind, v[255..]);
    }
  }

  lemma {:induction false} RequiredIsLength(items: seq<Item>)
    ensures Required(items) == |Formatted(items)|
  {
    if |items| > 0 {
      ChunksLength(items[0].kind, items[0].value);
      RequiredIsLength(items[1..]);
    }
  }

  /** A list of values, as it is built, sent and received. */
  class Values {
    var items: seq<Item>

    constructor ()
      ensures items == []
    {
      items := [];
    }

    method Add(kind: byte, value: seq<byte>)
      modifies this
      ensures items == old(items) + [Item(kind, value)]
    {
      items := items + [Item(kind, value)];
    }

    /** Formats the list. With too little room it writes nothing and says how much it takes. */
    method Format(buffer: array<byte>, size: nat) returns (r: int, used: nat)
      requires size <= buffer.Length
      modifies buffer
      ensures used == |Formatted(items)|
      ensures r == if size < used then -1 else 0
      ensures r == 0 ==> buffer[..used] == Formatted(items)
      ensures buffer[if r == 0 then used else 0..] == old(buffer[if r == 0 then used else 0..])
    {
      hide Chunks;
      used := RequiredSize();
      if size < used {
        return -1, used;
      }
      ghost var all := Formatted(items);
      var at, i := 0, 0;
      while i < |items|
        invariant 0 <= i <= |items| && 0 <= at <= used
        invariant buffer[..at] + Formatted(items[i..]) == all
        invariant buffer[used..] == old(buffer[used..])
      {
        FormattedNext(items, i);
        at := FormatItem(items[i], buffer, at, used, all, Formatted(items[i + 1..]));
        i := i + 1;
      }
      r := 0;
      assert items[|items|..] == [];
    }

    method RequiredSize() returns (size: nat)
      ensures size == |Formatted(items)|
    {
      size := 0;
      RequiredIsLength(items);
      for i := 0 to |items|
        invariant size + Required(items[i..]) == Required(items)
      {
        assert items[i..][1..] == items[i + 1..];
        var n := |items[i].value|;
        if n > 0 {
          size := size + n + 2 * ((n + 254) / 255);
        } else {
          size := size + 2;
        }
      }
    }

    /** The first value of a type. */
    method GetValue(kind: byte) returns (found: Option<seq<byte>>)
      ensures found == FirstOf(items, kind)
    {
      assert items[0..] == items;
      for i := 0 to |items|
        invariant FirstOf(items, kind) == FirstOf(items[i..], kind)
      {
        assert items[i..][1..] == items[i + 1..];
        if items[i].kind == kind {
          return Some(items[i].value);
        }
      }
      found := None;
    }

    /** Reads values and appends them. Fewer than two bytes are an error. The bytes must be whole chunks: the
        lengths in them are trusted. */
    method Parse(buffer: seq<byte>) returns (r: int)
      requires |buffer| >= 2 ==> Whole(buffer)
      modifies this
      ensures r == if |buffer| < 2 then -1 else 0
      ensures items == old(items) + if r == 0 then Parsed(buffer) else []
    {
      hide First, Whole;
      if |buffer| < 2 {
        return -1;
      }
      var i := 0;
      ghost var done := [];
      assert buffer[0..] == buffer;
      while i < |buffer|
        invariant 0 <= i <= |buffer| && Whole(buffer[i..])
        invariant items == old(items) + done && done + Parsed(buffer[i..]) == Parsed(buffer)
        decreases |buffer| - i
      {
        ghost var x := Item(buffer[i], First(buffer[i..]).0);
        ParsedNext(buffer[i..]);
        var kind := buffer[i];
        var size := ScanSize(buffer, i);
        var value;
        value, i := Gather(buffer, i, size);
        Add(kind, value);
        assert done + ([x] + Parsed(buffer[i..])) == (done + [x]) + Parsed(buffer[i..]);
        done := done + [x];
      }
      r := 0;
    }

    /** Adds a list as a value of another: the first call asks for the size. */
    method AddTlvValue(kind: byte, value: Values) returns (r: int)
      modifies this
      ensures r == 0 && items == old(items) + [Item(kind, Formatted(old(value.items)))]
    {
      var nothing := new byte[0];
      var s, tlvSize := value.Format(nothing, 0);
      var data := new byte[tlvSize];
      r, tlvSize := value.Format(data, tlvSize);
      if r != 0 {
        return;
      }
      Add(kind, data[..tlvSize]);
    }

    /** Reads a value as a list. */
    method GetTlvValue(kind: byte) returns (found: Option<Values>)
      requires match FirstOf(items, kind) case None => true case Some(v) => |v| >= 2 ==> Whole(v)
      ensures match FirstOf(items, kind)
              case None => found == None
              case Some(v) => if |v| < 2 then found == None else found.Some? && found.value.items == Parsed(v)
    {
      var t := GetValue(kind);
      if t == None {
        return None;
      }
      var value := new Values();
      var r := value.Parse(t.value);
      if r != 0 {
        return None;
      }
      assert [] + Parsed(t.value) == Parsed(t.value);
      found := Some(value);
    }
  }

  /** A list put into another that has nothing of its type comes back exactly if it is not empty and no value
      of it runs into the next. */
  method NestedRoundTrip(outer: Values, kind: byte, inner: Values) returns (back: Option<Values>)
    requires outer != inner && FirstOf(outer.items, kind) == None
    modifies outer
    ensures back.Some? <==> inner.items != []
    ensures back.Some? ==> (back.value.items == inner.items <==> Separated(inner.items))
  {
    ghost var was := outer.items;
    var r := outer.AddTlvValue(kind, inner);
    RoundTrip(inner.items);
    FirstAppended(was, Item(kind, Formatted(inner.items)));
    back := outer.GetTlvValue(kind);
  }

  lemma {:induction false} FirstAppended(items: seq<Item>, x: Item)
    requires FirstOf(items, x.kind) == None
    ensures FirstOf(items + [x], x.kind) == Some(x.value)
  {
    if |items| > 0 {
      FirstAppended(items[1..], x);
      assert (items + [x])[1..] == items[1..] + [x];
    }
  }

  lemma ParsedNext(s: seq<byte>)
    requires Whole(s) && |s| > 0
    ensures Parsed(s) == [Item(s[0], First(s).0)] + Parsed(First(s).1)
  {}

  /** The total size of the chunks of one type from here on, up to one that is not full. */
  ghost function Run(s: seq<byte>, kind: byte): nat
    requires Whole(s)
    decreases |s|
  {
    if |s| == 0 || s[0] != kind then 0 else if s[1] == 255 then 255 + Run(s[257..], kind) else s[1] as nat
  }

  lemma {:induction false} RunIsFirst(s: seq<byte>)
    requires Whole(s) && |s| > 0
    ensures Run(s, s[0]) == |First(s).0|
    decreases |s|
  {
    if Continued(s) {
      RunIsFirst(s[257..]);
    }
  }

  lemma WholeStep(s: seq<byte>)
    requires Whole(s) && |s| > 0
    ensures |s| >= ChunkEnd(s) && Whole(s[ChunkEnd(s)..])
  {}

  /** The scan ahead over the chunks of one value. */
  method ScanSize(buffer: seq<byte>, i: nat) returns (size: nat)
    requires i < |buffer| && Whole(buffer[i..])
    ensures size == |First(buffer[i..]).0|
  {
    hide First, Whole;
    var kind := buffer[i];
    RunIsFirst(buffer[i..]);
    size := 0;
    var j := i;
    while j < |buffer| && buffer[j] == kind && ByteAt(buffer, j) == 255
      invariant i <= j <= |buffer| && Whole(buffer[j..])
      invariant Run(buffer[i..], kind) == size + Run(buffer[j..], kind)
      decreases |buffer| - j
    {
      WholeStep(buffer[j..]);
      assert buffer[j..][257..] == buffer[j + 257..];
      size := size + 255;
      j := j + 257;
    }
    if j < |buffer| {
      WholeStep(buffer[j..]);
      assert buffer[j..][0] == buffer[j] && buffer[j..][1] == buffer[j + 1];
    }
    if j < |buffer| && buffer[j] == kind {
      size := size + ByteAt(buffer, j);
    }
  }

  /** The length byte of the chunk at `j`. */
  function ByteAt(buffer: seq<byte>, j: nat): nat
    requires j < |buffer| && Whole(buffer[j..])
  {
    WholeStep(buffer[j..]);
    buffer[j + 1] as nat
  }

  /** Copies the chunks of one value into a buffer of their total size. */
  method Gather(buffer: seq<byte>, start: nat, size: nat) returns (value: seq<byte>, i: nat)
    requires start < |buffer| && Whole(buffer[start..]) && size == |First(buffer[start..]).0|
    ensures start < i <= |buffer|
    ensures (value, buffer[i..]) == First(buffer[start..])
  {
    hide First, Whole, Gathered;
    i := start;
    FirstStep(buffer, i);
    if size == 0 {
      WholeStep(buffer[i..]);
      i := i + 2;
      return [], i;
    }
    var data := new byte[size];
    var p, remaining := 0, size;
    GatherStart(buffer, start, data[..0]);
    while remaining > 0
      invariant p + remaining == size && start <= i && (remaining == 0 ==> start < i)
      invariant Gathered(First(buffer[start..]), data[..p], buffer, i, remaining)
      decreases remaining
    {
      GatherChunk(First(buffer[start..]), data[..p], buffer, i, remaining);
      var chunkSize := ByteAt(buffer, i);
      CopyChunk(buffer, i + 2, chunkSize, data, p);
      p := p + chunkSize;
      i := i + chunkSize + 2;
      remaining := remaining - chunkSize;
    }
    GatherEnd(First(buffer[start..]), data[..p], buffer, i);
    value := data[..p];
  }

  lemma Regrouped(a: seq<byte>, b: seq<byte>, c: seq<byte>)
    ensures a + (b + c) == (a + b) + c
  {}

  /** Of the value `first` the bytes `done` are copied, and its chunks from `i` on are not. */
  ghost predicate Gathered(first: (seq<byte>, seq<byte>), done: seq<byte>, buffer: seq<byte>, i: nat, remaining: nat) {
    && i <= |buffer|
    && if remaining == 0 then first == (done, buffer[i..])
       else
         && i < |buffer| && Whole(buffer[i..]) && |First(buffer[i..]).0| == remaining
         && first == (done + First(buffer[i..]).0, First(buffer[i..]).1)
  }

  lemma GatherStart(buffer: seq<byte>, start: nat, done: seq<byte>)
    requires start < |buffer| && Whole(buffer[start..]) && |First(buffer[start..]).0| > 0 && done == []
    ensures Gathered(First(buffer[start..]), done, buffer, start, |First(buffer[start..]).0|)
  {
    hide First, Whole;
    assert done + First(buffer[start..]).0 == First(buffer[start..]).0;
  }

  lemma GatherChunk(first: (seq<byte>, seq<byte>), done: seq<byte>, buffer: seq<byte>, i: nat, remaining: nat)
    requires Gathered(first, done, buffer, i, remaining) && remaining > 0
    ensures i + 1 < |buffer| && Whole(buffer[i..])
    ensures
      var n := buffer[i + 1] as nat;
      && 0 < n <= remaining && i + 2 + n <= |buffer|
      && Gathered(first, done + buffer[i + 2..i + 2 + n], buffer, i + 2 + n, remaining - n)
  {
    hide First, Whole;
    FirstStep(buffer, i);
    var n := buffer[i + 1] as nat;
    if n < remaining {
      Regrouped(done, buffer[i + 2..i + 2 + n], First(buffer[i + 2 + n..]).0);
    }
  }

  lemma GatherEnd(first: (seq<byte>, seq<byte>), done: seq<byte>, buffer: seq<byte>, i: nat)
    requires Gathered(first, done, buffer, i, 0)
    ensures i <= |buffer| && first == (done, buffer[i..])
  {}

  method CopyChunk(buffer: seq<byte>, from: nat, n: nat, data: array<byte>, p: nat)
    requires from + n <= |buffer| && p + n <= data.Length
    modifies data
    ensures data[..p + n] == old(data[..p]) + buffer[from..from + n]
  {
    for k := 0 to n
      invariant data[..p + k] == old(data[..p]) + buffer[from..from + k]
    {
      data[p + k] := buffer[from + k];
    }
  }

  /** The chunk at `i`: nothing of a value, the end of one, or a part with more to come. */
  lemma FirstStep(buffer: seq<byte>, i: nat)
    requires i < |buffer| && Whole(buffer[i..])
    ensures i + 1 < |buffer|
    ensures
      var n := buffer[i + 1] as nat;
      var next := i + 2 + n;
      var r := First(buffer[i..]);
      && next <= |buffer| && Whole(buffer[next..]) && n <= |r.0| && (n == 0 <==> |r.0| == 0)
      && (|r.0| == n ==> r == (buffer[i + 2..next], buffer[next..]))
      && (|r.0| > n ==>
            && next < |buffer| && r == (buffer[i + 2..next] + First(buffer[next..]).0, First(buffer[next..]).1))
  {
    var s := buffer[i..];
    var n := s[1] as nat;
    assert s[ChunkEnd(s)..] == buffer[i + 2 + n..] && s[2..ChunkEnd(s)] == buffer[i + 2..i + 2 + n];
    if Continued(s) {
      FirstNonempty(s[257..]);
    }
  }

  lemma FirstNonempty(s: seq<byte>)
    requires Whole(s) && |s| > 0
    ensures |First(s).0| > 0 <==> s[1] > 0
  {}

  lemma FormattedNext(items: seq<Item>, i: nat)
    requires i < |items|
    ensures Formatted(items[i..]) == Chunks(items[i].kind, items[i].value) + Formatted(items[i + 1..])
  {
    hide Chunks;
    assert items[i..][1..] == items[i + 1..];
  }

  /** Writes the chunks of one value. */
  method FormatItem(x: Item, buffer: array<byte>, start: nat, ghost used: nat, ghost all: seq<byte>,
                    ghost rest: seq<byte>)
    returns (at: nat)
    requires start <= used == |all| <= buffer.Length
    requires buffer[..start] + (Chunks(x.kind, x.value) + rest) == all
    modifies buffer
    ensures start <= at <= used && buffer[..at] + rest == all
    ensures buffer[used..] == old(buffer[used..])
  {
    hide Chunks;
    at := start;
    if |x.value| == 0 {
      OneChunk(x.kind, x.value);
      at := PutChunk(x.kind, x.value, buffer, at, used, all, rest);
      return;
    }
    var remaining, data := |x.value|, x.value;
    while remaining > 0
      invariant remaining == |data| && start <= at <= used
      invariant remaining > 0 ==> buffer[..at] + (Chunks(x.kind, data) + rest) == all
      invariant remaining == 0 ==> buffer[..at] + rest == all
      invariant buffer[used..] == old(buffer[used..])
    {
      var chunkSize := if remaining > 255 then 255 else remaining;
      if remaining > 255 {
        MoreChunks(x.kind, data, rest);
        at := PutChunk(x.kind, data[..255], buffer, at, used, all, Chunks(x.kind, data[255..]) + rest);
      } else {
        OneChunk(x.kind, data);
        assert data[..remaining] == data;
        at := PutChunk(x.kind, data, buffer, at, used, all, rest);
      }
      remaining := remaining - chunkSize;
      data := data[chunkSize..];
    }
  }

  lemma OneChunk(kind: byte, v: seq<byte>)
    requires |v| <= 255
    ensures Chunks(kind, v) == [kind, |v| as byte] + v
  {}

  lemma MoreChunks(kind: byte, v: seq<byte>, rest: seq<byte>)
    requires |v| > 255
    ensures Chunks(kind, v) + rest == ([kind, 255] + v[..255]) + (Chunks(kind, v[255..]) + rest)
  {}

  lemma Cut(s: seq<byte>, a: nat, b: nat)
    requires a <= b <= |s|
    ensures s[..b] == s[..a] + s[a..b]
  {}

  method PutChunk(kind: byte, v: seq<byte>, buffer: array<byte>, start: nat, ghost used: nat, ghost all: seq<byte>,
                  ghost rest: seq<byte>)
    returns (at: nat)
    requires |v| <= 255 && start <= used == |all| <= buffer.Length
    requires buffer[..start] + (([kind, |v| as byte] + v) + rest) == all
    modifies buffer
    ensures at == start + 2 + |v| <= used && buffer[..at] + rest == all
    ensures buffer[used..] == old(buffer[used..])
  {
    ghost var before := buffer[..start];
    buffer[start] := kind;
    buffer[start + 1] := |v|;
    for k := 0 to |v|
      invariant buffer[..start + 2] == before + [kind, |v| as byte]
      invariant buffer[start + 2..start + 2 + k] == v[..k]
      invariant buffer[used..] == old(buffer[used..])
    {
      buffer[start + 2 + k] := v[k];
    }
    at := start + 2 + |v|;
    ghost var head := [kind, |v| as byte];
    assert v[..|v|] == v;
    Cut(buffer[..], start + 2, at);
    Regrouped(before, head, v);
    Regrouped(before, head + v, rest);
  }

  /** A value of 255 bytes and another of its type, as the parser reads them: one value. */
  lemma FullValueRunsOn(kind: byte)
    ensures
      var full: seq<byte> := seq(255, _ => 0);
      var bytes := Formatted([Item(kind, full), Item(kind, [1])]);
      Whole(bytes) && Parsed(bytes) == [Item(kind, full + [1])]
  {
    var full: seq<byte> := seq(255, _ => 0);
    var items := [Item(kind, full), Item(kind, [1])];
    ParsedFormatted(items);
    assert items[1..] == [Item(kind, [1])] && items[1..][1..] == [];
    assert Merged([]) == [] && Merged(items[1..]) == [Item(kind, [1])];
  }

  // ---- what the parser reads ---------------------------------------------------------------

  /** The scan ahead over chunks of one type looks at no byte behind the end. */
  predicate ScanInside(s: seq<byte>, kind: byte)
    decreases |s|
  {
    if |s| == 0 || s[0] != kind then true
    else if |s| == 1 then false
    else s[1] == 255 && |s| > 257 ==> ScanInside(s[257..], kind)
  }

  /** The size it finds. */
  function ScannedSize(s: seq<byte>, kind: byte): nat
    decreases |s|
  {
    if |s| < 2 || s[0] != kind then 0
    else if s[1] != 255 then s[1]
    else 255 + if |s| > 257 then ScannedSize(s[257..], kind) else 0
  }

  /** What is left once chunks were copied until `n` bytes are there; nothing if a chunk is cut short by the end. */
  function AfterCopy(s: seq<byte>, n: nat): Option<seq<byte>>
    decreases n
  {
    if n == 0 then Some(s)
    else if |s| < 2 || |s| < ChunkEnd(s) || s[1] == 0 || s[1] > n then None
    else AfterCopy(s[ChunkEnd(s)..], n - s[1])
  }

  /** Every read that the parser's loop makes is inside the buffer. */
  predicate ReadsInside(s: seq<byte>)
    decreases |s|
  {
    if |s| == 0 then true
    else if !ScanInside(s, s[0]) then false
    else
      var n := ScannedSize(s, s[0]);
      if n == 0 then ReadsInside(s[2..])
      else
        match AfterCopy(s, n)
        case None => false
        case Some(rest) => |rest| < |s| && ReadsInside(rest)
  }

  lemma {:induction false} WholeIsScanned(s: seq<byte>, kind: byte)
    requires Whole(s)
    ensures ScanInside(s, kind)
    decreases |s|
  {
    if |s| > 257 && s[0] == kind && s[1] == 255 {
      WholeIsScanned(s[257..], kind);
    }
  }

  /** The copy takes whole chunks, and the bytes are whole chunks exactly if those after them are. */
  lemma {:induction false} CopyKeepsWhole(s: seq<byte>, kind: byte)
    requires |s| > 0 && s[0] == kind && ScannedSize(s, kind) > 0
    ensures
      match AfterCopy(s, ScannedSize(s, kind))
      case None => !Whole(s)
      case Some(rest) => |rest| < |s| && (Whole(s) <==> Whole(rest))
    decreases |s|
  {
    var n := ScannedSize(s, kind);
    if s[1] == 255 && |s| >= 257 {
      var t := s[257..];
      assert AfterCopy(s, n) == AfterCopy(t, n - 255);
      if n > 255 {
        CopyKeepsWhole(t, kind);
      }
    } else if |s| >= ChunkEnd(s) {
      assert AfterCopy(s, n) == AfterCopy(s[ChunkEnd(s)..], 0);
    }
  }

  /** Its loop stays inside the buffer exactly if that is made of whole chunks. */
  lemma {:induction false} LoopInsideIffWhole(s: seq<byte>)
    ensures ReadsInside(s) <==> Whole(s)
    decreases |s|
  {
    if |s| > 0 {
      var n := ScannedSize(s, s[0]);
      if Whole(s) {
        WholeIsScanned(s, s[0]);
      }
      if n == 0 {
        if |s| >= 2 {
          LoopInsideIffWhole(s[2..]);
        }
      } else {
        CopyKeepsWhole(s, s[0]);
        match AfterCopy(s, n)
        case None =>
        case Some(rest) => LoopInsideIffWhole(rest);
      }
    }
  }

  /** `tlv_parse` returns before its loop if there are fewer than two bytes. */
  predicate ParseInside(s: seq<byte>) {
    |s| >= 2 ==> ReadsInside(s)
  }

  /** The parser, which trusts the lengths it reads, stays inside the buffer exactly if that is too short to be looked
      at or made of whole chunks. */
  lemma InsideIffWhole(s: seq<byte>)
    ensures ParseInside(s) <==> |s| < 2 || Whole(s)
  {
    LoopInsideIffWhole(s);
  }
}
