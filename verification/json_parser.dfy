/** The parser: an offset advanced over the text, and strings decoded into buffers sized beforehand. */
module JsonParser {
  import opened JsonText
  import opened JsonGrammar
  import opened JsonRoundTrip
  import JsonPrinter
  import opened Options

  /** The backslashes at or after `p` that scanning from `q` for the closing quote takes as escapes. */
  ghost function Heads(c: string, q: nat, end: nat, p: nat): nat
    requires end <= |c|
    decreases end - q
  {
    if q >= end then 0
    else if c[q] == '\\' then (if q >= p then 1 else 0) + Heads(c, q + 2, end, p)
    else Heads(c, q + 1, end, p)
  }

  lemma {:induction false} HeadsAll(c: string, q: nat, end: nat, p: nat, r: nat)
    requires end <= |c| && p <= q && r <= q
    ensures Heads(c, q, end, p) == Heads(c, q, end, r)
    decreases end - q
  {
    if q < end {
      HeadsAll(c, if c[q] == '\\' then q + 2 else q + 1, end, p, r);
    }
  }

  /** Two places in a row hold at most one escape. */
  lemma {:induction false} HeadsInTwo(c: string, q: nat, end: nat, p: nat)
    requires end <= |c|
    ensures Heads(c, q, end, p) <= Heads(c, q, end, p + 2) + 1
    decreases end - q
  {
    if q < end {
      if c[q] == '\\' {
        if p <= q {
          HeadsAll(c, q + 2, end, p, if q < p + 2 then p + 2 else q + 2);
          HeadsAll(c, q + 2, end, p + 2, q + 2);
        } else {
          HeadsInTwo(c, q + 2, end, p);
        }
      } else {
        HeadsInTwo(c, q + 1, end, p);
      }
    }
  }

  lemma {:induction false} HeadsInOne(c: string, q: nat, end: nat, p: nat)
    requires end <= |c| && p < |c| && c[p] != '\\'
    ensures Heads(c, q, end, p) == Heads(c, q, end, p + 1)
    decreases end - q
  {
    if q < end {
      HeadsInOne(c, if c[q] == '\\' then q + 2 else q + 1, end, p);
    }
  }

  lemma {:induction false} HeadsFew(c: string, q: nat, end: nat, p: nat)
    requires end <= |c| && p <= end + 1
    ensures Heads(c, q, end, p) <= end + 1 - p
    decreases end + 1 - p
  {
    if p >= end {
      NoHeads(c, q, end, p);
    } else {
      HeadsInTwo(c, q, end, p);
      if p + 2 <= end + 1 {
        HeadsFew(c, q, end, p + 2);
      }
    }
  }

  lemma {:induction false} NoHeads(c: string, q: nat, end: nat, p: nat)
    requires end <= |c| && p >= end
    ensures Heads(c, q, end, p) == 0
    decreases end - q
  {
    if q < end {
      NoHeads(c, if c[q] == '\\' then q + 2 else q + 1, end, p);
    }
  }

  /** The room there is: as many characters as the literal has, less one for each escape. */
  ghost predicate Fits(c: string, start: nat, end: nat, skipped: nat, p: nat, written: nat)
    requires end <= |c|
  {
    start <= p <= end + 1 && written + skipped <= (p - start) + Heads(c, start, end, p)
  }

  lemma FitsInRoom(c: string, start: nat, end: nat, skipped: nat, p: nat, written: nat)
    requires end <= |c| && Fits(c, start, end, skipped, p, written)
    ensures written + skipped <= end + 1 - start
  {
    HeadsFew(c, start, end, p);
  }

  lemma PlainFits(c: string, start: nat, end: nat, skipped: nat, p: nat, written: nat)
    requires end < |c| && Fits(c, start, end, skipped, p, written) && p < end && c[p] != '\\'
    ensures Fits(c, start, end, skipped, p + 1, written + 1)
  {
    HeadsInOne(c, start, end, p);
  }

  lemma EscapeFits(c: string, start: nat, end: nat, skipped: nat, p: nat, written: nat)
    requires end < |c| && Fits(c, start, end, skipped, p, written) && p < end
    ensures Fits(c, start, end, skipped, p + 2, written + 1)
  {
    HeadsInTwo(c, start, end, p);
  }

  lemma CodeFits(c: string, start: nat, end: nat, skipped: nat, p: nat, written: nat, next: nat, n: nat)
    requires end < |c| && Fits(c, start, end, skipped, p, written) && next <= end
    requires (next == p + 6 && n <= 3) || (next == p + 12 && n <= 4)
    ensures Fits(c, start, end, skipped, next, written + n)
  {
    HeadsInTwo(c, start, end, p);
    HeadsInTwo(c, start, end, p + 2);
    HeadsInTwo(c, start, end, p + 4);
    if next == p + 12 {
      HeadsInTwo(c, start, end, p + 6);
      HeadsInTwo(c, start, end, p + 8);
      HeadsInTwo(c, start, end, p + 10);
    }
  }

  lemma BeforeTwice<T>(a: seq<T>, b: seq<T>, r: Parsed<seq<T>>)
    ensures Before(a, Before(b, r)) == Before(a + b, r)
  {
    if r.Ok? {
      assert a + (b + r.value) == (a + b) + r.value;
    }
  }

  lemma BeforeNothing<T>(r: Parsed<seq<T>>)
    ensures Before([], r) == r
  {
    if r.Ok? {
      assert [] + r.value == r.value;
    }
  }

  function SixBitsOff(code: nat, n: nat): nat {
    if n == 0 then code else SixBitsOff(code, n - 1) / 64
  }

  /** The bytes of UTF-8 from the last to the first. */
  lemma Utf8Later(code: nat, k: nat)
    requires code < 0x110000 && 1 <= k < |Utf8(code)|
    ensures Utf8(code)[k] == (0x80 + SixBitsOff(code, |Utf8(code)| - 1 - k) % 64) as char
  {
    assert SixBitsOff(code, 1) == code / 64;
    assert SixBitsOff(code, 2) == code / 64 / 64;
  }

  function Mark(n: nat): nat {
    if n == 2 then 0xC0 else if n == 3 then 0xE0 else if n == 4 then 0xF0 else 0
  }

  lemma Utf8First(code: nat)
    requires code < 0x110000
    ensures
      var n := |Utf8(code)|;
      Mark(n) + SixBitsOff(code, n - 1) < 256 && Utf8(code)[0] == (Mark(n) + SixBitsOff(code, n - 1)) as char
  {
    assert SixBitsOff(code, 1) == code / 64;
    assert SixBitsOff(code, 2) == code / 64 / 64;
    assert SixBitsOff(code, 3) == code / 64 / 64 / 64;
  }

  /** The decoder of strings: literals are read at `content`, characters written to a buffer of their own. */
  class ParseBuffer {
    const content: string
    var offset: nat
    var depth: nat

    predicate Valid()
      reads this
    {
      Terminated(content) && offset < |content|
    }

    /** The outcome agrees with the grammar: the same value and end, or a failure on both sides. */
    ghost predicate Agrees<T>(item: Option<T>, r: Parsed<T>)
      reads this
    {
      match r
      case Ok(v, next) => item == Some(v) && offset == next
      case Fail => item == None
    }

    constructor (content: string)
      requires Terminated(content)
      ensures Valid() && this.content == content && offset == 0 && depth == 0
    {
      this.content, offset, depth := content, 0, 0;
    }

    method SkipWhitespace()
      requires Valid()
      modifies `offset
      ensures Valid() && offset == Skip(content, old(offset))
    {
      while offset < |content| && content[offset] <= ' '
        invariant offset <= |content|
        invariant Skip(content, old(offset)) == if offset < |content| then Skip(content, offset) else |content| - 1
      {
        offset := offset + 1;
      }
      if offset == |content| {
        offset := offset - 1;
      }
    }

    /** Copies number characters into a buffer of 64, its last place for the terminator. */
    method CollectNumber() returns (run: string)
      requires Valid()
      ensures run == content[offset..offset + NumberRun(content, offset, 0)]
    {
      hide NumberChar;
      var numberCString := new char[64];
      var i := 0;
      while i < 63 && offset + i < |content| && NumberChar(content[offset + i])
        invariant i <= 63 && offset + i <= |content|
        invariant NumberRun(content, offset, 0) == NumberRun(content, offset, i)
        invariant numberCString[..i] == content[offset..offset + i]
      {
        numberCString[i] := content[offset + i];
        i := i + 1;
      }
      numberCString[i] := '\0';
      run := numberCString[..i];
    }

    /** Takes as much of the number characters as converts. */
    method ParseNumber() returns (item: Option<Value>)
      requires Valid()
      modifies `offset
      ensures Agrees(item, JsonGrammar.ParseNumber(content, old(offset)))
      ensures item.Some? ==> Valid()
    {
      hide Converted, NumberRun;
      RunBeforeNul(content, offset, 0);
      var run := CollectNumber();
      var n := Converted(run);
      if n == 0 {
        return None;
      }
      item := Some(Number(run[..n]));
      offset := offset + n;
    }

    /** The first pass: where the literal ends, and how many escapes it has. */
    method FindEnd() returns (inputEnd: nat, skipped: nat, ok: bool)
      requires Valid()
      ensures ok <==> CloseQuote(content, offset + 1).Ok?
      ensures ok ==> CloseQuote(content, offset + 1) == Ok((), inputEnd)
      ensures ok ==> offset < inputEnd < |content| && skipped == Heads(content, offset + 1, inputEnd, offset + 1)
    {
      inputEnd, skipped := offset + 1, 0;
      ghost var r := CloseQuote(content, offset + 1);
      ghost var e := if r.Ok? then r.next else |content|;
      while inputEnd < |content| && content[inputEnd] != '\"'
        invariant offset < inputEnd <= |content|
        invariant CloseQuote(content, offset + 1) == CloseQuote(content, inputEnd)
        invariant Heads(content, offset + 1, e, offset + 1) == skipped + Heads(content, inputEnd, e, offset + 1)
      {
        if content[inputEnd] == '\\' {
          if inputEnd + 1 >= |content| {
            return inputEnd, skipped, false;
          }
          skipped := skipped + 1;
          inputEnd := inputEnd + 1;
        }
        inputEnd := inputEnd + 1;
      }
      ok := inputEnd < |content| && content[inputEnd] == '\"';
    }

    /** Four hexadecimal digits; 0 as soon as one is not. */
    static method ParseHex4(content: string, input: nat) returns (h: nat)
      requires input + 4 <= |content|
      ensures h == Hex4(content, input)
    {
      hide HexValue;
      h := 0;
      for i := 0 to 4
        invariant i > 0 ==> HexValue(content[input]) >= 0
        invariant i > 1 ==> HexValue(content[input + 1]) >= 0
        invariant i > 2 ==> HexValue(content[input + 2]) >= 0
        invariant i == 0 ==> h == 0
        invariant i == 1 ==> h == 16 * HexValue(content[input])
        invariant i == 2 ==> h == 16 * (16 * HexValue(content[input]) + HexValue(content[input + 1]))
        invariant i == 3 ==> h == 16 * (16 * (16 * HexValue(content[input]) + HexValue(content[input + 1]))
                                        + HexValue(content[input + 2]))
        invariant i == 4 ==> h == Hex4(content, input)
      {
        var digit := HexValue(content[input + i]);
        if digit < 0 {
          return 0;
        }
        h := h + digit;
        if i < 3 {
          h := h * 16;
        }
      }
    }

    /** The code point of one or two `\u` sequences, and their length; 0 if they are none. */
    static method ReadLiteral(content: string, inputPointer: nat, inputEnd: nat)
      returns (codepoint: nat, sequenceLength: nat)
      requires inputPointer <= inputEnd < |content|
      ensures match Utf16(content, inputPointer, inputEnd)
              case Fail => sequenceLength == 0
              case Ok(code, end) => codepoint == code && sequenceLength == end - inputPointer
    {
      hide Hex4;
      if inputEnd - inputPointer < 6 {
        return 0, 0;
      }
      var firstCode := ParseHex4(content, inputPointer + 2);
      if 0xDC00 <= firstCode <= 0xDFFF {
        return 0, 0;
      }
      if 0xD800 <= firstCode <= 0xDBFF {
        var secondSequence := inputPointer + 6;
        if inputEnd - secondSequence < 6 {
          return 0, 0;
        }
        if content[secondSequence] != '\\' || content[secondSequence + 1] != 'u' {
          return 0, 0;
        }
        var secondCode := ParseHex4(content, secondSequence + 2);
        if secondCode < 0xDC00 || secondCode > 0xDFFF {
          return 0, 0;
        }
        return 0x10000 + firstCode % 0x400 * 0x400 + secondCode % 0x400, 12;
      }
      return firstCode, 6;
    }

    static method Utf8Length(code: nat) returns (utf8Length: nat, firstByteMark: nat)
      requires code < 0x110000
      ensures utf8Length == |Utf8(code)| && firstByteMark == Mark(utf8Length)
    {
      if code < 0x80 {
        return 1, 0;
      } else if code < 0x800 {
        return 2, 0xC0;
      } else if code < 0x10000 {
        return 3, 0xE0;
      }
      return 4, 0xF0;
    }

    /** Writes a code point as UTF-8, from the last byte to the first. */
    static method WriteUtf8(code: nat, output: array<char>, outputPointer: nat) returns (next: nat)
      requires code < 0x110000 && outputPointer + |Utf8(code)| <= output.Length
      modifies output
      ensures next == outputPointer + |Utf8(code)|
      ensures output[..outputPointer] == old(output[..outputPointer])
      ensures output[outputPointer..next] == Utf8(code)
    {
      hide Utf8, Mark;
      var utf8Length, firstByteMark := Utf8Length(code);
      Utf8First(code);
      ghost var u := Utf8(code);
      var codepoint, utf8Position := code, utf8Length - 1;
      while utf8Position > 0
        invariant 0 <= utf8Position < utf8Length
        invariant codepoint == SixBitsOff(code, utf8Length - 1 - utf8Position)
        invariant output[..outputPointer] == old(output[..outputPointer])
        invariant output[outputPointer + utf8Position + 1..outputPointer + utf8Length] == u[utf8Position + 1..]
      {
        Utf8Later(code, utf8Position);
        output[outputPointer + utf8Position] := (0x80 + codepoint % 64) as char;
        codepoint := codepoint / 64;
        utf8Position := utf8Position - 1;
      }
      output[outputPointer] := (firstByteMark + codepoint) as char;
      next := outputPointer + utf8Length;
      assert output[outputPointer..next] == [u[0]] + u[1..];
    }

    /** The loop over a literal: plain characters are copied, escapes resolved. The buffer, sized by the
        first pass, is never exceeded, whatever the escapes are. */
    method Decode(inputEnd: nat, skipped: nat, output: array<char>) returns (ok: bool, length: nat)
      requires Valid() && offset < inputEnd < |content|
      requires skipped == Heads(content, offset + 1, inputEnd, offset + 1)
      requires output.Length == inputEnd - offset - skipped + 1
      modifies output
      ensures ok ==> length < output.Length
      ensures match Unescaped(content, offset + 1, inputEnd)
              case Fail => !ok
              case Ok(text, _) => ok && output[..length] == text
    {
      hide Unescaped, Utf16, Utf8;
      var inputPointer := offset + 1;
      ghost var start := inputPointer;
      length := 0;
      assert output[..0] == [];
      BeforeNothing(Unescaped(content, start, inputEnd));
      while inputPointer < inputEnd
        invariant Fits(content, start, inputEnd, skipped, inputPointer, length)
        invariant length <= output.Length
        invariant Unescaped(content, start, inputEnd)
          == Before(output[..length], Unescaped(content, inputPointer, inputEnd))
        decreases inputEnd - inputPointer
      {
        ok, inputPointer, length := DecodeOne(start, inputPointer, inputEnd, skipped, output, length);
        if !ok {
          return;
        }
      }
      FitsInRoom(content, start, inputEnd, skipped, inputPointer, length);
      DecodedAll(content, inputPointer, inputEnd);
      assert output[..length] + "" == output[..length];
      ok := true;
    }

    method DecodeOne(ghost start: nat, inputPointer: nat, inputEnd: nat, ghost skipped: nat,
                     output: array<char>, length: nat)
      returns (ok: bool, next: nat, longer: nat)
      requires inputPointer < inputEnd < |content| && start == offset + 1
      requires output.Length + skipped == inputEnd + 2 - start && length <= output.Length
      requires Fits(content, start, inputEnd, skipped, inputPointer, length)
      requires Unescaped(content, start, inputEnd)
        == Before(output[..length], Unescaped(content, inputPointer, inputEnd))
      modifies output
      ensures !ok ==> Unescaped(content, start, inputEnd).Fail?
      ensures ok ==> inputPointer < next && longer <= output.Length
      ensures ok ==> Fits(content, start, inputEnd, skipped, next, longer)
      ensures ok ==>
        Unescaped(content, start, inputEnd) == Before(output[..longer], Unescaped(content, next, inputEnd))
    {
      hide Utf16, Utf8, Fits;
      if content[inputPointer] != '\\' {
        ok, next := true, inputPointer + 1;
        PlainFits(content, start, inputEnd, skipped, inputPointer, length);
        longer := PutOne(start, next, inputEnd, skipped, output, length, content[inputPointer]);
        return;
      }
      if content[inputPointer + 1] == 'u' {
        ok, next, longer := DecodeLiteral(start, inputPointer, inputEnd, skipped, output, length);
        return;
      }
      ok, next := true, inputPointer + 2;
      EscapeFits(content, start, inputEnd, skipped, inputPointer, length);
      var c;
      match content[inputPointer + 1] {
        case 'b' => c := BACKSPACE;
        case 'f' => c := FORM_FEED;
        case 'n' => c := '\n';
        case 'r' => c := '\r';
        case 't' => c := '\t';
        case '\"' => c := '\"';
        case '\\' => c := '\\';
        case '/' => c := '/';
        case _ => return false, 0, 0;
      }
      longer := PutOne(start, next, inputEnd, skipped, output, length, c);
    }

    /** Writes one character, for which there is room. */
    method PutOne(ghost start: nat, ghost next: nat, ghost inputEnd: nat, ghost skipped: nat,
                  output: array<char>, length: nat, c: char)
      returns (longer: nat)
      requires inputEnd < |content| && output.Length + skipped == inputEnd + 2 - start && length <= output.Length
      requires Fits(content, start, inputEnd, skipped, next, length + 1)
      requires Unescaped(content, start, inputEnd)
        == Before(output[..length], Before([c], Unescaped(content, next, inputEnd)))
      modifies output
      ensures longer == length + 1 < output.Length
      ensures Unescaped(content, start, inputEnd)
        == Before(output[..longer], Unescaped(content, next, inputEnd))
    {
      hide Unescaped, Before;
      FitsInRoom(content, start, inputEnd, skipped, next, length + 1);
      ghost var was := output[..length];
      BeforeTwice(was, [c], Unescaped(content, next, inputEnd));
      output[length] := c;
      longer := length + 1;
      assert output[..longer] == was + [c];
    }

    /** A `\u` sequence. */
    method DecodeLiteral(ghost start: nat, inputPointer: nat, inputEnd: nat, ghost skipped: nat,
                         output: array<char>, length: nat)
      returns (ok: bool, next: nat, longer: nat)
      requires inputPointer < inputEnd < |content|
      requires content[inputPointer] == '\\' && content[inputPointer + 1] == 'u'
      requires output.Length + skipped == inputEnd + 2 - start && length <= output.Length
      requires Fits(content, start, inputEnd, skipped, inputPointer, length)
      requires Unescaped(content, start, inputEnd)
        == Before(output[..length], Unescaped(content, inputPointer, inputEnd))
      modifies output
      ensures !ok ==> Unescaped(content, start, inputEnd).Fail?
      ensures ok ==> inputPointer < next && longer <= output.Length
      ensures ok ==> Fits(content, start, inputEnd, skipped, next, longer)
      ensures ok ==>
        Unescaped(content, start, inputEnd) == Before(output[..longer], Unescaped(content, next, inputEnd))
    {
      hide Utf16, Utf8, Fits;
      var code, sequenceLength := ReadLiteral(content, inputPointer, inputEnd);
      if sequenceLength == 0 {
        return false, 0, 0;
      }
      ok, next := true, inputPointer + sequenceLength;
      CodeFits(content, start, inputEnd, skipped, inputPointer, length, next, |Utf8(code)|);
      FitsInRoom(content, start, inputEnd, skipped, next, length + |Utf8(code)|);
      ghost var was := output[..length];
      BeforeTwice(was, Utf8(code), Unescaped(content, next, inputEnd));
      longer := WriteUtf8(code, output, length);
      assert output[..longer] == was + Utf8(code);
    }

    /** Finds the end of a literal, then decodes it. The result is read as a C string. */
    method ParseString() returns (text: Option<string>)
      requires Valid()
      modifies `offset
      ensures Agrees(text, JsonGrammar.ParseString(content, old(offset)))
      ensures text.Some? ==> Valid()
    {
      hide Unescaped, CloseQuote, Heads, CString;
      if content[offset] != '\"' {
        return None;
      }
      var inputEnd, skipped, found := FindEnd();
      if !found {
        return None;
      }
      HeadsFew(content, offset + 1, inputEnd, offset + 1);
      var output := new char[inputEnd - offset - skipped + 1];
      var ok, length := Decode(inputEnd, skipped, output);
      if !ok {
        return None;
      }
      output[length] := '\0';
      text := Some(CString(output[..length]));
      offset := inputEnd + 1;
    }

    /** Whether a word stands at the offset. */
    predicate CanRead(word: string)
      reads this
    {
      offset + |word| <= |content| && content[offset..offset + |word|] == word
    }

    method ParseValue() returns (item: Option<Value>)
      requires Valid()
      modifies this
      ensures Agrees(item, JsonGrammar.ParseValue(content, old(offset), old(depth)))
      ensures item.Some? ==> Valid() && depth == old(depth)
      decreases |content| - offset, 1
    {
      hide JsonGrammar.ParseString, JsonGrammar.ParseNumber, JsonGrammar.ParseArray, JsonGrammar.ParseObject;
      if CanRead("null") {
        offset := offset + 4;
        return Some(Null);
      }
      if CanRead("false") {
        offset := offset + 5;
        return Some(False);
      }
      if CanRead("true") {
        offset := offset + 4;
        return Some(True);
      }
      if content[offset] == '\"' {
        var text := ParseString();
        return if text.Some? then Some(String(text.value)) else None;
      }
      if content[offset] == '-' || Digit(content[offset]) {
        item := ParseNumber();
        return;
      }
      if content[offset] == '[' {
        item := ParseArray();
        return;
      }
      if content[offset] == '{' {
        item := ParseObject();
        return;
      }
      item := None;
    }

    method ParseArray() returns (item: Option<Value>)
      requires Valid() && content[offset] == '['
      modifies this
      ensures Agrees(item, JsonGrammar.ParseArray(content, old(offset), old(depth)))
      ensures item.Some? ==> Valid() && depth == old(depth)
      decreases |content| - offset, 0
    {
      hide JsonGrammar.ParseItems, Skip;
      if depth >= NESTING_LIMIT {
        return None;
      }
      depth := depth + 1;
      offset := offset + 1;
      SkipWhitespace();
      var items := [];
      if content[offset] != ']' {
        offset := offset - 1;
        var ok;
        ok, items := ParseElements();
        if !ok {
          return None;
        }
      }
      depth := depth - 1;
      item := Some(Array(items));
      offset := offset + 1;
    }

    /** The loop over the elements, from before the first to the closing bracket. */
    method ParseElements() returns (ok: bool, items: seq<Value>)
      requires Valid() && offset + 1 < |content|
      modifies this
      ensures match JsonGrammar.ParseItems(content, old(offset) + 1, old(depth))
              case Fail => !ok
              case Ok(all, next) => ok && items == all && offset + 1 == next
      ensures ok ==> Valid() && depth == old(depth)
      decreases |content| - offset - 1, 3
    {
      hide JsonGrammar.ParseItems, JsonGrammar.ParseValue, Skip;
      ghost var r := JsonGrammar.ParseItems(content, offset + 1, depth);
      items := [];
      BeforeNothing(r);
      var more := true;
      while more
        invariant Valid() && depth == old(depth) && old(offset) <= offset
        invariant more ==> offset + 1 < |content|
        invariant more ==> r == Before(items, JsonGrammar.ParseItems(content, offset + 1, depth))
        invariant !more ==> r == if content[offset] == ']' then Ok(items, offset + 1) else Fail
        decreases |content| - offset, more
      {
        offset := offset + 1;
        ghost var o, d := offset, depth;
        ElementNext(content, o, d);
        SkipWhitespace();
        var v := ParseValue();
        if v.None? {
          return false, [];
        }
        SkipWhitespace();
        BeforeTwice(items, [v.value],
                    JsonGrammar.ParseItems(content, if content[offset] == ',' then offset + 1 else 0, d));
        items := items + [v.value];
        more := content[offset] == ',';
      }
      ok := content[offset] == ']';
    }

    method ParseObject() returns (item: Option<Value>)
      requires Valid() && content[offset] == '{'
      modifies this
      ensures Agrees(item, JsonGrammar.ParseObject(content, old(offset), old(depth)))
      ensures item.Some? ==> Valid() && depth == old(depth)
      decreases |content| - offset, 0
    {
      hide JsonGrammar.ParseMembers, Skip;
      if depth >= NESTING_LIMIT {
        return None;
      }
      depth := depth + 1;
      offset := offset + 1;
      SkipWhitespace();
      var members := [];
      if content[offset] != '}' {
        offset := offset - 1;
        var ok;
        ok, members := ParseMemberList();
        if !ok {
          return None;
        }
      }
      depth := depth - 1;
      item := Some(Object(members));
      offset := offset + 1;
    }

    /** The loop over the members, from before the first to the closing brace. */
    method ParseMemberList() returns (ok: bool, members: seq<Member>)
      requires Valid() && offset + 1 < |content|
      modifies this
      ensures match JsonGrammar.ParseMembers(content, old(offset) + 1, old(depth))
              case Fail => !ok
              case Ok(all, next) => ok && members == all && offset + 1 == next
      ensures ok ==> Valid() && depth == old(depth)
      decreases |content| - offset - 1, 4
    {
      hide JsonGrammar.ParseMembers, JsonGrammar.ParseMember, Skip;
      ghost var r := JsonGrammar.ParseMembers(content, offset + 1, depth);
      members := [];
      BeforeNothing(r);
      var more := true;
      while more
        invariant Valid() && depth == old(depth) && old(offset) <= offset
        invariant more ==> offset + 1 < |content|
        invariant more ==> r == Before(members, JsonGrammar.ParseMembers(content, offset + 1, depth))
        invariant !more ==> r == if content[offset] == '}' then Ok(members, offset + 1) else Fail
        decreases |content| - offset, more
      {
        offset := offset + 1;
        ghost var o, d := offset, depth;
        MemberNext(content, o, d);
        var m := ParseMember();
        if m.None? {
          return false, [];
        }
        SkipWhitespace();
        BeforeTwice(members, [m.value],
                    JsonGrammar.ParseMembers(content, if content[offset] == ',' then offset + 1 else 0, d));
        members := members + [m.value];
        more := content[offset] == ',';
      }
      ok := content[offset] == '}';
    }

    /** A name, a colon and a value, with white space before each. */
    method ParseMember() returns (m: Option<Member>)
      requires Valid()
      modifies this
      ensures Agrees(m, JsonGrammar.ParseMember(content, old(offset), old(depth)))
      ensures m.Some? ==> Valid() && depth == old(depth)
      decreases |content| - offset, 2
    {
      hide JsonGrammar.ParseString, JsonGrammar.ParseValue, Skip;
      SkipWhitespace();
      var key := ParseString();
      if key.None? {
        return None;
      }
      SkipWhitespace();
      if content[offset] != ':' {
        return None;
      }
      offset := offset + 1;
      SkipWhitespace();
      var v := ParseValue();
      if v.None? {
        return None;
      }
      m := Some(Member(key.value, v.value));
    }
  }

  lemma DecodedAll(c: string, p: nat, end: nat)
    requires end <= p && end < |c|
    ensures Unescaped(c, p, end) == Ok("", p)
  {}

  /** One element of the list of values, in terms of where it ends. */
  lemma ElementNext(c: string, o: nat, depth: nat)
    requires Terminated(c) && o < |c|
    ensures
      match ParseValue(c, Skip(c, o), depth)
      case Fail => ParseItems(c, o, depth) == Fail
      case Ok(v, q) =>
        ParseItems(c, o, depth) ==
        if c[Skip(c, q)] == ',' then Before([v], ParseItems(c, Skip(c, q) + 1, depth))
        else if c[Skip(c, q)] == ']' then Ok([v], Skip(c, q) + 1)
        else Fail
  {
    hide ParseValue, Skip;
  }

  lemma MemberNext(c: string, o: nat, depth: nat)
    requires Terminated(c) && o < |c|
    ensures
      match ParseMember(c, o, depth)
      case Fail => ParseMembers(c, o, depth) == Fail
      case Ok(m, q) =>
        ParseMembers(c, o, depth) ==
        if c[Skip(c, q)] == ',' then Before([m], ParseMembers(c, Skip(c, q) + 1, depth))
        else if c[Skip(c, q)] == '}' then Ok([m], Skip(c, q) + 1)
        else Fail
  {
    hide ParseMember, Skip;
  }

  /** `cJSON_rsf_ParseWithOpts`, and `cJSON_rsf_Parse` if the whole text is not asked for. */
  method Parse(text: string, requireNullTerminated: bool) returns (item: Option<Value>)
    requires NoNul(text)
    ensures match JsonGrammar.Parse(text, requireNullTerminated)
            case Fail => item == None
            case Ok(v, _) => item == Some(v)
  {
    hide ParseValue, Skip;
    var b := new ParseBuffer(text + "\0");
    if 4 < |b.content| && b.CanRead(BYTE_ORDER_MARK) {
      b.offset := 3;
    }
    b.SkipWhitespace();
    item := b.ParseValue();
    if item.Some? && requireNullTerminated {
      b.SkipWhitespace();
      if b.content[b.offset] != '\0' {
        return None;
      }
    }
  }

  /** What is printed and then parsed is the same tree. */
  method PrintThenParse(v: Value, format: bool, requireNullTerminated: bool) returns (back: Option<Value>)
    requires Good(v) && |Text(v, format, 0)| + 2 <= JsonPrinter.INT_MAX
    ensures back == if Nesting(v) <= NESTING_LIMIT then Some(v) else None
  {
    var printed := JsonPrinter.Print(v, format);
    RoundTrip(v, format, requireNullTerminated);
    ghost var text := Text(v, format, 0);
    var chars := printed.value[..];
    assert chars[..|chars| - 1] == text;
    back := Parse(chars[..|chars| - 1], requireNullTerminated);
  }
}
