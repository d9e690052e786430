/** What numbers in HTTP messages and URLs stand for. */
module HttpNumber {
  import opened HttpLog
  import opened HttpStep

  predicate IsNumeral(text: seq<byte>) {
    forall i :: 0 <= i < |text| ==> IsNum(text[i])
  }

  /** The number written by the decimal digits at the front of `text`, up to the first other byte, after the digits
      that gave `n`. */
  function Decimal(n: nat, text: seq<byte>): nat
    decreases |text|
  {
    if text == [] || !IsNum(text[0]) then n else Decimal(n * 10 + (text[0] - '0' as int), text[1..])
  }

  /** The same for hexadecimal digits. */
  function Hexadecimal(n: nat, text: seq<byte>): nat
    decreases |text|
  {
    if text == [] || Unhex(text[0]) == -1 then n else Hexadecimal(n * 16 + Unhex(text[0]), text[1..])
  }

  /** Digits are read on where others ended. */
  lemma {:induction false} DecimalConcat(n: nat, text: seq<byte>, rest: seq<byte>)
    requires IsNumeral(text)
    ensures Decimal(n, text + rest) == Decimal(Decimal(n, text), rest)
    decreases |text|
  {
    if text == [] {
      assert text + rest == rest;
    } else {
      assert (text + rest)[1..] == text[1..] + rest;
      DecimalConcat(n * 10 + (text[0] - '0' as int), text[1..], rest);
    }
  }

  lemma {:induction false} HexadecimalConcat(n: nat, text: seq<byte>, rest: seq<byte>)
    requires forall i :: 0 <= i < |text| ==> Unhex(text[i]) != -1
    ensures Hexadecimal(n, text + rest) == Hexadecimal(Hexadecimal(n, text), rest)
    decreases |text|
  {
    if text == [] {
      assert text + rest == rest;
    } else {
      assert (text + rest)[1..] == text[1..] + rest;
      HexadecimalConcat(n * 16 + Unhex(text[0]), text[1..], rest);
    }
  }

  /** Further digits make a number larger, unless it is 0 and they are zeros. */
  lemma {:induction false} DecimalGrows(n: nat, text: seq<byte>)
    ensures n <= Decimal(n, text)
    ensures Decimal(n, text) == n <==> text == [] || !IsNum(text[0]) || (n == 0 && Decimal(0, text) == 0)
    decreases |text|
  {
    if text != [] && IsNum(text[0]) {
      DecimalGrows(n * 10 + (text[0] - '0' as int), text[1..]);
    }
  }

  // ---- numbers with blanks -----------------------------------------------------------------

  predicate IsLengthText(text: seq<byte>) {
    forall i :: 0 <= i < |text| ==> IsNum(text[i]) || text[i] == SPACE
  }

  /** The text without its blanks. */
  function Unspaced(text: seq<byte>): (r: seq<byte>)
    ensures IsLengthText(text) ==> IsNumeral(r)
  {
    if text == [] then []
    else
      var r := Unspaced(text[..|text| - 1]);
      if text[|text| - 1] == SPACE then r else r + [text[|text| - 1]]
  }

  predicate ResumesAfterBlank(text: seq<byte>) {
    exists i, j :: 0 <= i < j < |text| && text[i] == SPACE && text[j] != SPACE
  }

  predicate AllZero(text: seq<byte>) {
    forall i :: 0 <= i < |text| ==> text[i] == SPACE || text[i] == '0' as int
  }

  lemma {:induction false} DecimalByte(n: nat, text: seq<byte>, c: byte)
    requires IsLengthText(text) && (IsNum(c) || c == SPACE)
    ensures Decimal(n, text + [c]) ==
      if IsNum(c) && SPACE !in text then Decimal(n, text) * 10 + (c - '0' as int) else Decimal(n, text)
    decreases |text|
  {
    if text == [] {
      assert text + [c] == [c];
      assert Decimal(n, [c]) == if IsNum(c) then Decimal(n * 10 + (c - '0' as int), []) else n;
    } else if text[0] == SPACE {
      assert (text + [c])[0] == SPACE;
    } else {
      assert (text + [c])[1..] == text[1..] + [c];
      DecimalByte(n * 10 + (text[0] - '0' as int), text[1..], c);
      assert SPACE in text <==> SPACE in text[1..] by {
        assert text == [text[0]] + text[1..];
      }
    }
  }

  lemma ResumesWith(text: seq<byte>, c: byte)
    ensures ResumesAfterBlank(text + [c]) <==> ResumesAfterBlank(text) || (c != SPACE && SPACE in text)
  {
    var now := text + [c];
    if ResumesAfterBlank(text) {
      var i, j :| 0 <= i < j < |text| && text[i] == SPACE && text[j] != SPACE;
      assert now[i] == SPACE && now[j] != SPACE;
    }
    if c != SPACE && SPACE in text {
      var i :| 0 <= i < |text| && text[i] == SPACE;
      assert now[i] == SPACE && now[|text|] != SPACE;
    }
    if ResumesAfterBlank(now) {
      var i, j :| 0 <= i < j < |now| && now[i] == SPACE && now[j] != SPACE;
      assert text[i] == SPACE;
      assert j < |text| ==> text[j] != SPACE;
    }
  }

  /** Passing over blanks keeps a number exactly if no digit follows a blank, or if there is nothing but zeros. */
  lemma {:induction false} UnspacedIsSame(n: nat, text: seq<byte>)
    requires IsLengthText(text)
    ensures Decimal(n, text) <= Decimal(n, Unspaced(text))
    ensures Decimal(n, Unspaced(text)) == 0 <==> n == 0 && AllZero(text)
    ensures Decimal(n, Unspaced(text)) == Decimal(n, text) <==> !ResumesAfterBlank(text) || (n == 0 && AllZero(text))
    ensures SPACE !in text ==> !ResumesAfterBlank(text)
  {
    hide Decimal, ResumesAfterBlank;
    if text == [] {
      EmptyIsSame(n, text);
    } else {
      var was, c := text[..|text| - 1], text[|text| - 1];
      assert text == was + [c];
      UnspacedIsSame(n, was);
      DecimalByte(n, was, c);
      ResumesWith(was, c);
      assert AllZero(text) <==> AllZero(was) && (c == SPACE || c == '0' as int);
      if c != SPACE {
        DecimalConcat(n, Unspaced(was), [c]);
        OneDigit(Decimal(n, Unspaced(was)), c);
      }
    }
  }

  lemma EmptyIsSame(n: nat, text: seq<byte>)
    requires text == []
    ensures Decimal(n, text) == n && !ResumesAfterBlank(text)
  {}

  lemma OneDigit(n: nat, c: byte)
    requires IsNum(c)
    ensures Decimal(n, [c]) == n * 10 + (c - '0' as int)
  {
    assert Decimal(n, [c]) == Decimal(n * 10 + (c - '0' as int), []);
  }

  lemma OneHexDigit(n: nat, c: byte)
    requires Unhex(c) != -1
    ensures 0 <= Unhex(c) < 16 && Hexadecimal(n, [c]) == n * 16 + Unhex(c)
  {
    assert Hexadecimal(n, [c]) == Hexadecimal(n * 16 + Unhex(c), []);
  }
}
