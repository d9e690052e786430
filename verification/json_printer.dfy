/** The printer: text written into a buffer that grows, or that must not. */
module JsonPrinter {
  import opened JsonText
  import opened Options

  const INT_MAX: nat := 0x7FFF_FFFF

  /** `format` and `noalloc` never change during a print; `buffer` does when it grows. */
  class PrintBuffer {
    var buffer: array<char>
    var offset: nat
    var depth: nat
    const noalloc: bool
    const format: bool

    ghost predicate Valid()
      reads this
    {
      buffer.Length <= INT_MAX && (offset < buffer.Length || offset == buffer.Length == 0)
    }

    /** How large the buffer may become. */
    ghost function Cap(): nat
      reads this
    {
      if noalloc then buffer.Length else INT_MAX
    }

    ghost function Before(): string
      requires Valid()
      reads this, buffer
    {
      buffer[..offset]
    }

    /** What is written so far and what is still to be written make up the whole. */
    ghost predicate Going(whole: string, rest: string)
      reads this, buffer
    {
      Valid() && Before() + rest == whole
    }

    /** The text stands in the buffer after what was there before, with its terminator; the offset is
        somewhere within it. */
    ghost predicate Printed(before: string, text: string)
      reads this, buffer
    {
      && Valid()
      && |before| <= offset <= |before| + |text| < buffer.Length
      && buffer[..|before| + |text|] == before + text
      && buffer[|before| + |text|] == '\0'
    }

    /** The outcome of printing a text: it fits, with two bytes to spare, or the print fails. */
    twostate predicate Result(ok: bool, text: string)
      requires old(Valid())
      reads this, buffer
    {
      && Valid()
      && Same()
      && ok == (old(offset) + |text| + 2 <= old(Cap()))
      && (ok ==> depth == old(depth) && Printed(old(Before()), text))
    }

    /** The buffer is the one there was, or a new one if that is allowed. */
    twostate predicate Same()
      reads this
    {
      buffer == old(buffer) || (!noalloc && fresh(buffer))
    }

    constructor (buffer: array<char>, noalloc: bool, format: bool)
      requires buffer.Length <= INT_MAX
      ensures Valid() && this.buffer == buffer && this.noalloc == noalloc && this.format == format
      ensures offset == 0 && depth == 0
    {
      this.buffer, this.noalloc, this.format := buffer, noalloc, format;
      offset, depth := 0, 0;
    }

    /** Makes room for `needed` more bytes and a terminator. */
    method Ensure(needed: nat) returns (ok: bool)
      requires buffer.Length <= INT_MAX
      modifies `buffer
      ensures buffer.Length <= INT_MAX && Same()
      ensures ok == ((old(buffer.Length) == 0 || offset < old(buffer.Length)) && offset + needed + 1 <= old(Cap()))
      ensures ok ==> offset + needed < buffer.Length
      ensures old(buffer.Length) <= buffer.Length && buffer[..old(buffer.Length)] == old(buffer[..])
    {
      if buffer.Length > 0 && offset >= buffer.Length {
        return false;
      }
      if needed > INT_MAX {
        return false;
      }
      var total := needed + offset + 1;
      if total <= buffer.Length {
        return true;
      }
      if noalloc {
        return false;
      }
      var newSize;
      if total > INT_MAX / 2 {
        if total <= INT_MAX {
          newSize := INT_MAX;
        } else {
          return false;
        }
      } else {
        newSize := total * 2;
      }
      var larger := new char[newSize];
      forall i | 0 <= i < buffer.Length {
        larger[i] := buffer[i];
      }
      buffer := larger;
      ok := true;
    }

    /** Room for a piece of the rest; without it, the whole does not fit. */
    method Room(needed: nat, ghost whole: string, ghost rest: string) returns (ok: bool)
      requires Going(whole, rest) && needed <= |rest| + 1
      modifies `buffer
      ensures Going(whole, rest) && Same()
      ensures ok == (offset + needed + 1 <= old(Cap()))
      ensures !ok ==> |whole| + 2 > old(Cap())
      ensures ok ==> offset + needed < buffer.Length
    {
      ok := Ensure(needed);
      assert buffer[..offset] == buffer[..old(buffer.Length)][..offset];
    }

    /** Writes some characters and advances. */
    method Append(s: string, ghost whole: string, ghost rest: string)
      requires Going(whole, s + rest) && offset + |s| < buffer.Length
      modifies `offset, buffer
      ensures Going(whole, rest) && offset == old(offset) + |s|
    {
      Put(s);
      assert buffer[..offset + |s|] == old(buffer[..offset]) + s;
      offset := offset + |s|;
      assert (old(buffer[..offset]) + s) + rest == old(buffer[..offset]) + (s + rest);
    }

    /** Writes some characters without advancing. */
    method Put(s: string)
      requires offset + |s| <= buffer.Length
      modifies buffer
      ensures buffer[..offset] == old(buffer[..offset])
      ensures buffer[offset..offset + |s|] == s
      ensures buffer[offset + |s|..] == old(buffer[offset + |s|..])
    {
      for i := 0 to |s|
        invariant buffer[..offset] == old(buffer[..offset])
        invariant buffer[offset..offset + i] == s[..i]
        invariant buffer[offset + |s|..] == old(buffer[offset + |s|..])
      {
        buffer[offset + i] := s[i];
      }
    }

    /** Writes the last characters and the terminator, without advancing. */
    method Finish(s: string, ghost before: string, ghost text: string)
      requires Going(before + text, s) && |before| <= offset && offset + |s| < buffer.Length
      modifies buffer
      ensures Printed(before, text)
    {
      Put(s);
      buffer[offset + |s|] := '\0';
      assert buffer[..offset + |s|] == old(buffer[..offset]) + s;
    }

    /** Advances over what was printed, by the terminator found. */
    method UpdateOffset(ghost before: string, ghost text: string)
      requires Printed(before, text) && NoNul(text)
      modifies `offset
      ensures offset == |before| + |text| && Valid() && Before() == before + text
    {
      forall i | |before| <= i < |before| + |text|
        ensures buffer[i] != '\0'
      {
        assert buffer[i] == buffer[..|before| + |text|][i] == (before + text)[i] == text[i - |before|];
      }
      var length := 0;
      while buffer[offset + length] != '\0'
        invariant offset + length <= |before| + |text|
        decreases |before| + |text| - length
      {
        length := length + 1;
      }
      offset := offset + length;
    }

    /** A literal, copied with its terminator. */
    method PrintWord(word: string) returns (ok: bool)
      requires Valid()
      modifies `buffer, buffer
      ensures Result(ok, word)
    {
      ok := Ensure(|word| + 1);
      if ok {
        assert buffer[..offset] == old(Before()) by {
          assert buffer[..offset] == buffer[..old(buffer.Length)][..offset];
        }
        assert Before() + word == old(Before()) + word;
        Finish(word, old(Before()), word);
      }
    }

    method PrintNumber(token: string) returns (ok: bool)
      requires Valid()
      modifies `buffer, `offset, buffer
      ensures |token| > 25 ==> !ok
      ensures |token| <= 25 ==> Result(ok, token)
    {
      if |token| > 25 {
        return false;
      }
      ghost var before := Before();
      ok := Ensure(|token| + 1);
      if ok {
        assert buffer[..offset] == before by {
          assert buffer[..offset] == buffer[..old(buffer.Length)][..offset];
        }
        assert token + "" == token;
        Append(token, before + token, "");
        buffer[offset] := '\0';
      }
    }

    /** Counts the characters that escaping adds, reserves room and writes the string between quotes. */
    method PrintStringPtr(input: string) returns (ok: bool)
      requires Valid()
      modifies `buffer, buffer
      ensures Result(ok, Quoted(input))
    {
      hide Escape, Escaped;
      var escapeCharacters := CountEscapes(input);
      var outputLength := |input| + escapeCharacters;
      ghost var before := Before();
      ok := Ensure(outputLength + 3);
      if !ok {
        return;
      }
      assert buffer[..offset] == before by {
        assert buffer[..offset] == buffer[..old(buffer.Length)][..offset];
      }
      Fill(input, escapeCharacters);
      assert buffer[..offset + |Quoted(input)|] == buffer[..offset] + buffer[offset..offset + |Quoted(input)|];
    }

    /** Writes the string between quotes, in one copy if nothing needs escaping. */
    method Fill(input: string, escapeCharacters: nat)
      requires |input| + escapeCharacters == |Escaped(input)|
      requires offset + |Quoted(input)| < buffer.Length
      modifies buffer
      ensures buffer[..offset] == old(buffer[..offset])
      ensures buffer[offset..offset + |Quoted(input)|] == Quoted(input)
      ensures buffer[offset + |Quoted(input)|] == '\0'
    {
      hide Escape, Escaped;
      var outputLength := |input| + escapeCharacters;
      buffer[offset] := '\"';
      label Opened:
      if escapeCharacters == 0 {
        NothingEscaped(input);
        CopyPlain(input);
      } else {
        CopyEscaped(input);
      }
      buffer[offset + outputLength + 1] := '\"';
      buffer[offset + outputLength + 2] := '\0';
      Between(buffer[..], old@Opened(buffer[..]), offset, Escaped(input));
      assert buffer[..offset] == old(buffer[..offset]) by {
        assert old@Opened(buffer[..offset]) == old(buffer[..offset]);
      }
    }

    /** Prints a value at the current depth. It succeeds exactly if the whole text fits with two bytes to
        spare, one of them for the terminator. */
    method PrintValue(v: Value) returns (ok: bool)
      requires Valid() && Good(v)
      modifies this, buffer
      ensures Result(ok, Text(v, format, old(depth)))
      decreases v, 2
    {
      hide Items, Members, Quoted, Converted;
      match v
      case Null => ok := PrintWord("null");
      case False => ok := PrintWord("false");
      case True => ok := PrintWord("true");
      case Number(token) => ok := PrintNumber(token);
      case String(text) => ok := PrintStringPtr(text);
      case Array(items) => ok := PrintArray(items);
      case Object(members) => ok := PrintObject(members);
    }

    /** Prints a value that the whole has next, and advances over it. */
    method PrintPart(v: Value, ghost whole: string, ghost rest: string) returns (ok: bool)
      requires Good(v) && Going(whole, Text(v, format, depth) + rest)
      modifies this, buffer
      ensures Valid() && Same()
      ensures ok ==> depth == old(depth) && offset >= old(offset) && Going(whole, rest)
      ensures !ok ==> |whole| + 2 > old(Cap())
      decreases v, 3
    {
      hide Text;
      ghost var before, text := Before(), Text(v, format, depth);
      ok := PrintValue(v);
      assert before + (text + rest) == whole;
      if ok {
        TextNoNul(v, format, depth);
        UpdateOffset(before, text);
        assert (before + text) + rest == whole;
      }
    }

    method PrintArray(items: seq<Value>) returns (ok: bool)
      requires Valid() && Good(Array(items))
      modifies this, buffer
      ensures Result(ok, Text(Array(items), format, old(depth)))
      decreases items, 2
    {
      hide Items, Good;
      ghost var before := Before();
      ghost var inner := Items(items, format, depth + 1);
      ghost var whole := before + Text(Array(items), format, depth);
      assert Text(Array(items), format, depth) == "[" + (inner + "]");
      ok := PutPiece("[", 1, false, whole, inner + "]");
      if !ok {
        return;
      }
      depth := depth + 1;
      ok := PrintItems(items, whole);
      if !ok {
        return;
      }
      ok := PutEnd("]", 2, before, Text(Array(items), format, old(depth)));
    }

    /** The loop over the elements. */
    method PrintItems(items: seq<Value>, ghost whole: string) returns (ok: bool)
      requires Good(Array(items)) && Going(whole, Items(items, format, depth) + "]")
      modifies this, buffer
      ensures Valid() && Same()
      ensures ok ==> depth == old(depth) && offset >= old(offset) && Going(whole, "]")
      ensures !ok ==> |whole| + 2 > old(Cap())
      decreases items, 1
    {
      hide Items, Good;
      var i := 0;
      while i < |items|
        invariant i <= |items| && Same() && depth == old(depth) && offset >= old(offset)
        invariant Going(whole, Items(items[i..], format, depth) + "]")
      {
        ok := PrintItem(items, i, whole);
        if !ok {
          return;
        }
        i := i + 1;
      }
      NoItemsLeft(items, format, depth);
      ok := true;
    }

    /** One element, and a comma if another follows. */
    method PrintItem(items: seq<Value>, i: nat, ghost whole: string) returns (ok: bool)
      requires i < |items| && Good(Array(items)) && Going(whole, Items(items[i..], format, depth) + "]")
      modifies this, buffer
      ensures Valid() && Same()
      ensures ok ==> depth == old(depth) && offset >= old(offset)
                     && Going(whole, Items(items[i + 1..], format, depth) + "]")
      ensures !ok ==> |whole| + 2 > old(Cap())
      decreases items, 0
    {
      hide Items, Text;
      ghost var more := Items(items[i + 1..], format, depth) + "]";
      ghost var rest := if i + 1 < |items| then Comma(format) + more else more;
      ItemsNext(items, i, format, depth);
      ok := PrintPart(items[i], whole, rest);
      if ok && i + 1 < |items| {
        ok := PutComma(whole, more);
      }
    }

    method PutComma(ghost whole: string, ghost rest: string) returns (ok: bool)
      requires Going(whole, Comma(format) + rest) && |rest| > 0
      modifies `buffer, `offset, buffer
      ensures Valid() && Same()
      ensures ok ==> offset >= old(offset) && Going(whole, rest)
      ensures !ok ==> |whole| + 2 > old(Cap())
    {
      ok := Room(|Comma(format)| + 1, whole, Comma(format) + rest);
      if ok {
        Append(Comma(format), whole, rest);
        buffer[offset] := '\0';
      }
    }

    method PrintObject(members: seq<Member>) returns (ok: bool)
      requires Valid() && Good(Object(members))
      modifies this, buffer
      ensures Result(ok, Text(Object(members), format, old(depth)))
      decreases members, 3
    {
      hide Members, Good, Closing, Opening;
      ghost var before := Before();
      ghost var inner, close := Members(members, format, depth + 1), Closing(format, depth);
      ghost var whole := before + Text(Object(members), format, depth);
      assert Text(Object(members), format, depth) == Opening(format) + (inner + close);
      ok := PutPiece(Opening(format), |Opening(format)| + 1, false, whole, inner + close);
      if !ok {
        return;
      }
      depth := depth + 1;
      ok := PrintMembers(members, whole);
      if !ok {
        return;
      }
      EndLength(format, depth - 1);
      ok := PutEnd(Closing(format, depth - 1), if format then depth + 1 else 2, before,
                   Text(Object(members), format, old(depth)));
    }

    /** What ends an array or object: it goes one level up without advancing. */
    method PutEnd(s: string, needed: nat, ghost before: string, ghost text: string) returns (ok: bool)
      requires depth > 0 && |before| <= offset && Going(before + text, s) && needed == |s| + 1
      modifies this, buffer
      ensures Valid() && Same()
      ensures ok == (|before + text| + 2 <= old(Cap()))
      ensures ok ==> depth == old(depth) - 1 && Printed(before, text)
    {
      ok := Room(needed, before + text, s);
      if ok {
        Finish(s, before, text);
        depth := depth - 1;
      }
    }

    /** The loop over the members. */
    method PrintMembers(members: seq<Member>, ghost whole: string) returns (ok: bool)
      requires depth > 0 && Good(Object(members))
      requires Going(whole, Members(members, format, depth) + Closing(format, depth - 1))
      modifies this, buffer
      ensures Valid() && Same()
      ensures ok ==> depth == old(depth) && offset >= old(offset) && Going(whole, Closing(format, depth - 1))
      ensures !ok ==> |whole| + 2 > old(Cap())
      decreases members, 2
    {
      hide Members, Good, Closing;
      var i := 0;
      while i < |members|
        invariant i <= |members| && Same() && depth == old(depth) && offset >= old(offset)
        invariant Going(whole, Members(members[i..], format, depth) + Closing(format, depth - 1))
      {
        ok := PrintMember(members, i, whole);
        if !ok {
          return;
        }
        i := i + 1;
      }
      NoMembersLeft(members, format, depth);
      ok := true;
    }

    /** One member: indentation, name, colon, value, and what ends it. */
    method PrintMember(members: seq<Member>, i: nat, ghost whole: string) returns (ok: bool)
      requires i < |members| && depth > 0 && Good(Object(members))
      requires Going(whole, Members(members[i..], format, depth) + Closing(format, depth - 1))
      modifies this, buffer
      ensures Valid() && Same()
      ensures ok ==> depth == old(depth) && offset >= old(offset)
                     && Going(whole, Members(members[i + 1..], format, depth) + Closing(format, depth - 1))
      ensures !ok ==> |whole| + 2 > old(Cap())
      decreases members, 1
    {
      var m := members[i];
      assert Good(m.value) && NoNul(m.key);
      hide Members, Text, Indent, Quoted, Colon, Ending, Closing, Good;
      ghost var d := depth;
      ghost var more := Members(members[i + 1..], format, d) + Closing(format, d - 1);
      ghost var rest := Ending(format, i + 1 < |members|) + more;
      MembersNext(members, i, format, d, Closing(format, d - 1));
      ok := PrintName(m.key, whole, Text(m.value, format, d) + rest);
      if !ok {
        return;
      }
      ok := PrintPart(m.value, whole, rest);
      if !ok {
        return;
      }
      ok := PutPiece(Ending(format, i + 1 < |members|), |Ending(format, i + 1 < |members|)| + 1, true, whole, more);
    }

    method PrintName(key: string, ghost whole: string, ghost rest: string) returns (ok: bool)
      requires NoNul(key) && Going(whole, Indent(format, depth) + (Quoted(key) + (Colon(format) + rest)))
      modifies `buffer, `offset, buffer
      ensures Valid() && Same()
      ensures ok ==> offset >= old(offset) && Going(whole, rest)
      ensures !ok ==> |whole| + 2 > old(Cap())
    {
      hide Indent, Quoted, Colon;
      ok := PutIndent(whole, Quoted(key) + (Colon(format) + rest));
      if !ok {
        return;
      }
      ok := PrintKey(key, whole, Colon(format) + rest);
      if !ok {
        return;
      }
      ok := PutPiece(Colon(format), |Colon(format)|, false, whole, rest);
    }

    method PutIndent(ghost whole: string, ghost rest: string) returns (ok: bool)
      requires Going(whole, Indent(format, depth) + rest)
      modifies `buffer, `offset, buffer
      ensures Valid() && Same()
      ensures ok ==> offset >= old(offset) && Going(whole, rest)
      ensures !ok ==> |whole| + 2 > old(Cap())
    {
      ok := true;
      if format {
        ok := Room(depth, whole, Indent(format, depth) + rest);
        if ok {
          Append(Tabs(depth), whole, rest);
        }
      } else {
        assert Indent(format, depth) + rest == rest;
      }
    }

    method PrintKey(key: string, ghost whole: string, ghost rest: string) returns (ok: bool)
      requires NoNul(key) && Going(whole, Quoted(key) + rest)
      modifies `buffer, `offset, buffer
      ensures Valid() && Same()
      ensures ok ==> offset >= old(offset) && Going(whole, rest)
      ensures !ok ==> |whole| + 2 > old(Cap())
    {
      hide Quoted;
      ghost var before := Before();
      assert before + (Quoted(key) + rest) == whole;
      ok := PrintStringPtr(key);
      if ok {
        EscapedNoNul(key);
        UpdateOffset(before, Quoted(key));
        assert (before + Quoted(key)) + rest == whole;
      }
    }

    /** Reserves room for some characters and writes them, with a terminator if there is room for it. */
    method PutPiece(s: string, needed: nat, terminate: bool, ghost whole: string, ghost rest: string)
      returns (ok: bool)
      requires Going(whole, s + rest) && |s| <= needed <= |s| + |rest| + 1
      modifies `buffer, `offset, buffer
      ensures Valid() && Same()
      ensures ok ==> offset >= old(offset) && Going(whole, rest)
      ensures !ok ==> |whole| + 2 > old(Cap())
    {
      ok := Room(needed, whole, s + rest);
      if ok {
        Append(s, whole, rest);
        if terminate {
          buffer[offset] := '\0';
        }
      }
    }

    method CopyPlain(input: string)
      requires offset + 1 + |input| <= buffer.Length
      modifies buffer
      ensures buffer[..offset + 1] == old(buffer[..offset + 1])
      ensures buffer[offset + 1..offset + 1 + |input|] == input
    {
      for i := 0 to |input|
        invariant buffer[..offset + 1] == old(buffer[..offset + 1])
        invariant buffer[offset + 1..offset + 1 + i] == input[..i]
      {
        buffer[offset + 1 + i] := input[i];
      }
    }

    method CopyEscaped(input: string)
      requires offset + 2 + |Escaped(input)| <= buffer.Length
      modifies buffer
      ensures buffer[..offset + 1] == old(buffer[..offset + 1])
      ensures buffer[offset + 1..offset + 1 + |Escaped(input)|] == Escaped(input)
    {
      hide Escape, Escaped;
      ghost var all, first := Escaped(input), offset + 1;
      var at := offset + 1;
      for i := 0 to |input|
        invariant first <= at <= first + |all|
        invariant buffer[..first] == old(buffer[..first])
        invariant buffer[first..at] + Escaped(input[i..]) == all
      {
        EscapedNext(input, i);
        ghost var was, from := buffer[..], at;
        at := PutEscape(at, input[i]);
        CopyStep(was, buffer[..], first, from, at, Escape(input[i]), Escaped(input[i + 1..]));
      }
      NothingLeft(input);
    }

    /** Writes a character as it appears between quotes. */
    method PutEscape(at: nat, c: char) returns (next: nat)
      requires at + |Escape(c)| < buffer.Length
      modifies buffer
      ensures next == at + |Escape(c)|
      ensures buffer[..at] == old(buffer[..at]) && buffer[at..next] == Escape(c)
    {
      if c > '\U{001F}' && c != '\"' && c != '\\' {
        buffer[at] := c;
        next := at + 1;
      } else {
        buffer[at] := '\\';
        next := PutSpecial(at + 1, c);
        assert buffer[at..next] == [buffer[at]] + buffer[at + 1..next];
      }
    }

    /** What comes after the backslash. The code point form also leaves a terminator behind it. */
    method PutSpecial(at: nat, c: char) returns (next: nat)
      requires c <= '\U{001F}' || c == '\"' || c == '\\'
      requires at + |Escape(c)| <= buffer.Length
      modifies buffer
      ensures next == at + |Escape(c)| - 1
      ensures buffer[..at] == old(buffer[..at]) && buffer[at..next] == Escape(c)[1..]
    {
      next := at + 1;
      match c
      case '\\' => buffer[at] := '\\';
      case '\"' => buffer[at] := '\"';
      case '\U{0008}' => buffer[at] := 'b';
      case '\U{000C}' => buffer[at] := 'f';
      case '\n' => buffer[at] := 'n';
      case '\r' => buffer[at] := 'r';
      case '\t' => buffer[at] := 't';
      case _ => next := PutCode(at, c);
    }

    method PutCode(at: nat, c: char) returns (next: nat)
      requires c <= '\U{001F}' && at + 5 < buffer.Length
      modifies buffer
      ensures next == at + 5 && buffer[..at] == old(buffer[..at])
      ensures buffer[at..next] == ['u', '0', '0', HexDigit(c as nat / 16), HexDigit(c as nat % 16)]
    {
      buffer[at], buffer[at + 1], buffer[at + 2] := 'u', '0', '0';
      buffer[at + 3], buffer[at + 4] := HexDigit(c as nat / 16), HexDigit(c as nat % 16);
      buffer[at + 5] := '\0';
      next := at + 5;
    }
  }

  lemma ItemsNext(items: seq<Value>, i: nat, format: bool, depth: nat)
    requires i < |items|
    ensures
      var more := Items(items[i + 1..], format, depth) + "]";
      Items(items[i..], format, depth) + "]"
      == Text(items[i], format, depth) + (if i + 1 < |items| then Comma(format) + more else more)
  {
    hide Text, Comma;
    assert items[i..][1..] == items[i + 1..];
  }

  lemma NoItemsLeft(items: seq<Value>, format: bool, depth: nat)
    ensures Items(items[|items|..], format, depth) + "]" == "]"
  {}

  lemma NoMembersLeft(members: seq<Member>, format: bool, depth: nat)
    ensures forall s: string :: Members(members[|members|..], format, depth) + s == s
  {
    assert Members(members[|members|..], format, depth) == "";
  }

  lemma MembersNext(members: seq<Member>, i: nat, format: bool, depth: nat, close: string)
    requires i < |members|
    ensures
      var m := members[i];
      var more := Members(members[i + 1..], format, depth) + close;
      Members(members[i..], format, depth) + close
      == Indent(format, depth) + (Quoted(m.key) + (Colon(format) + (Text(m.value, format, depth)
           + (Ending(format, i + 1 < |members|) + more))))
  {
    hide Text, Indent, Quoted, Colon, Ending;
    assert members[i..][1..] == members[i + 1..];
  }

  lemma EndLength(format: bool, depth: nat)
    ensures |Closing(format, depth)| == if format then depth + 1 else 1
  {}

  lemma EscapedNext(s: string, i: nat)
    requires i < |s|
    ensures Escaped(s[i..]) == Escape(s[i]) + Escaped(s[i + 1..])
  {
    assert s[i..][1..] == s[i + 1..];
  }

  lemma NothingLeft(s: string)
    ensures Escaped(s[|s|..]) == ""
  {}

  lemma CopyStep(was: string, now: string, first: nat, at: nat, next: nat, e: string, rest: string)
    requires first <= at <= next <= |now| == |was| && was[..at] == now[..at] && now[at..next] == e
    ensures now[..first] == was[..first]
    ensures now[first..next] + rest == was[first..at] + (e + rest)
  {
    assert now[..first] == now[..at][..first] && was[..first] == was[..at][..first];
    assert now[first..at] == now[..at][first..] && was[first..at] == was[..at][first..];
    assert now[first..next] == now[first..at] + now[at..next];
  }

  lemma Between(now: string, was: string, offset: nat, inner: string)
    requires offset + |inner| + 2 < |now| == |was|
    requires now[offset + 1..offset + 1 + |inner|] == inner && now[..offset + 1] == was[..offset + 1]
    requires was[offset] == '\"' && now[offset + 1 + |inner|] == '\"'
    ensures now[..offset] == was[..offset]
    ensures now[offset..offset + |inner| + 2] == "\"" + inner + "\""
  {
    assert now[..offset] == now[..offset + 1][..offset] && was[..offset] == was[..offset + 1][..offset];
    assert now[offset] == now[..offset + 1][offset] == was[..offset + 1][offset];
    assert now[offset..offset + |inner| + 2]
      == [now[offset]] + now[offset + 1..offset + 1 + |inner|] + [now[offset + 1 + |inner|]];
  }

  lemma {:induction false} NothingEscaped(s: string)
    requires |Escaped(s)| == |s|
    ensures Escaped(s) == s
  {
    if |s| > 0 {
      EscapedNoShorter(s[1..]);
      OneIsPlain(s[0]);
      hide Escape;
      NothingEscaped(s[1..]);
      assert s == [s[0]] + s[1..];
    }
  }

  lemma OneIsPlain(c: char)
    ensures |Escape(c)| == 1 ==> Escape(c) == [c]
  {}

  lemma {:induction false} EscapedNoShorter(s: string)
    ensures |Escaped(s)| >= |s|
  {
    if |s| > 0 {
      EscapedNoShorter(s[1..]);
    }
  }

  method CountEscapes(input: string) returns (escapeCharacters: nat)
    ensures |input| + escapeCharacters == |Escaped(input)|
  {
    escapeCharacters := 0;
    for i := 0 to |input|
      invariant i + escapeCharacters + |Escaped(input[i..])| == |Escaped(input)|
    {
      assert input[i..][1..] == input[i + 1..];
      match input[i]
      case '\"' => escapeCharacters := escapeCharacters + 1;
      case '\\' => escapeCharacters := escapeCharacters + 1;
      case '\U{0008}' => escapeCharacters := escapeCharacters + 1;
      case '\U{000C}' => escapeCharacters := escapeCharacters + 1;
      case '\n' => escapeCharacters := escapeCharacters + 1;
      case '\r' => escapeCharacters := escapeCharacters + 1;
      case '\t' => escapeCharacters := escapeCharacters + 1;
      case _ =>
        if input[i] < '\U{0020}' {
          escapeCharacters := escapeCharacters + 5;
        }
    }
  }

  /** The text a C string in a buffer stands for. */
  predicate Holds(a: seq<char>, text: string) {
    |text| < |a| && a[..|text|] == text && a[|text|] == '\0'
  }

  method Shrink(buffer: array<char>, size: nat) returns (exact: array<char>)
    requires size <= buffer.Length
    ensures fresh(exact) && exact[..] == buffer[..size]
  {
    exact := new char[size];
    forall i | 0 <= i < size {
      exact[i] := buffer[i];
    }
  }

  /** `cJSON_rsf_Print` and `cJSON_rsf_PrintUnformatted`: a buffer of 256 bytes that grows, and in the end
      shrinks to what is used. */
  method Print(v: Value, format: bool) returns (printed: Option<array<char>>)
    requires Good(v)
    ensures printed.Some? <==> |Text(v, format, 0)| + 2 <= INT_MAX
    ensures printed.Some? ==> fresh(printed.value) && printed.value[..] == Text(v, format, 0) + "\0"
  {
    hide Text;
    var buffer := new char[256];
    var p := new PrintBuffer(buffer, false, format);
    var ok := p.PrintValue(v);
    if !ok {
      return None;
    }
    TextNoNul(v, format, 0);
    assert [] + Text(v, format, 0) == Text(v, format, 0);
    p.UpdateOffset([], Text(v, format, 0));
    var exact := Shrink(p.buffer, p.offset + 1);
    assert exact[..] == p.buffer[..p.offset] + "\0";
    printed := Some(exact);
  }

  /** `cJSON_rsf_PrintBuffered`: the same text whatever size the buffer starts with. */
  method PrintBuffered(v: Value, prebuffer: int, format: bool) returns (printed: Option<array<char>>)
    requires Good(v) && prebuffer <= INT_MAX
    ensures printed.Some? <==> prebuffer >= 0 && |Text(v, format, 0)| + 2 <= INT_MAX
    ensures printed.Some? ==> Holds(printed.value[..], Text(v, format, 0))
  {
    hide Text;
    if prebuffer < 0 {
      return None;
    }
    var buffer := new char[prebuffer];
    var p := new PrintBuffer(buffer, false, format);
    var ok := p.PrintValue(v);
    if !ok {
      return None;
    }
    assert [] + Text(v, format, 0) == Text(v, format, 0);
    printed := Some(p.buffer);
  }

  /** `cJSON_rsf_PrintPreallocated`: two bytes more than the text has are enough, and fewer never are. */
  method PrintPreallocated(v: Value, buf: array<char>, format: bool) returns (ok: bool)
    requires Good(v) && buf.Length <= INT_MAX
    modifies buf
    ensures ok <==> |Text(v, format, 0)| + 2 <= buf.Length
    ensures ok ==> Holds(buf[..], Text(v, format, 0))
  {
    hide Text;
    var p := new PrintBuffer(buf, true, format);
    ok := p.PrintValue(v);
    assert [] + Text(v, format, 0) == Text(v, format, 0);
  }
}
