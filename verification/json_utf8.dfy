/** UTF-8 as RFC 3629 describes it, from the bytes to the characters, and what the parser writes against it. A `char`
    stands for one byte. */
module JsonUtf8 {
  import opened JsonText
  import opened JsonGrammar
  import opened Options

  /** The bits of a byte after its mark: 0xxxxxxx, 10xxxxxx, 110xxxxx, 1110xxxx and 11110xxx. */
  predicate Marked(b: char, mark: nat, bits: nat) {
    mark <= b as int < mark + bits
  }

  predicate IsCharacter(code: nat) {
    code < 0x110000 && !(0xD800 <= code < 0xE000)
  }

  /** One to four bytes with the marks of a character: the value of its bits, whatever it is. */
  function BitsOf(u: string): Option<nat> {
    if |u| == 1 && Marked(u[0], 0, 0x80) then Some(u[0] as nat)
    else if |u| == 2 && Marked(u[0], 0xC0, 0x20) && Later(u, 1) then Some((u[0] as nat - 0xC0) * 0x40 + Six(u[1]))
    else if |u| == 3 && Marked(u[0], 0xE0, 0x10) && Later(u, 1) && Later(u, 2) then
      Some((u[0] as nat - 0xE0) * 0x1000 + Six(u[1]) * 0x40 + Six(u[2]))
    else if |u| == 4 && Marked(u[0], 0xF0, 0x08) && Later(u, 1) && Later(u, 2) && Later(u, 3) then
      Some((u[0] as nat - 0xF0) * 0x40000 + Six(u[1]) * 0x1000 + Six(u[2]) * 0x40 + Six(u[3]))
    else None
  }

  predicate Later(u: string, i: nat)
    requires i < |u|
  {
    Marked(u[i], 0x80, 0x40)
  }

  function Six(b: char): nat
    requires Marked(b, 0x80, 0x40)
  {
    b as nat - 0x80
  }

  /** A character in the form that section 3 of RFC 3629 allows: the shortest one. */
  predicate Encodes(u: string, code: nat) {
    && IsCharacter(code) && BitsOf(u) == Some(code)
    && (|u| == 2 ==> code >= 0x80) && (|u| == 3 ==> code >= 0x800) && (|u| == 4 ==> code >= 0x10000)
  }

  /** How many bytes the first byte of a character announces. */
  function Announced(b: char): nat {
    if Marked(b, 0, 0x80) then 1
    else if Marked(b, 0xC0, 0x20) then 2
    else if Marked(b, 0xE0, 0x10) then 3
    else if Marked(b, 0xF0, 0x08) then 4
    else 0
  }

  function Character(u: string): Option<nat> {
    if BitsOf(u).Some? && Encodes(u, BitsOf(u).value) then BitsOf(u) else None
  }

  /** The characters of a text, if all of it is UTF-8. */
  function Decoded(s: string): Option<seq<nat>> {
    if |s| == 0 then Some([])
    else
      var n := Announced(s[0]);
      if n == 0 || n > |s| then None else Joined(Character(s[..n]), Decoded(s[n..]))
  }

  function Joined(code: Option<nat>, rest: Option<seq<nat>>): Option<seq<nat>> {
    if code.Some? && rest.Some? then Some([code.value] + rest.value) else None
  }

  // ---- what is written ---------------------------------------------------------------------

  /** The parser writes every code in the one form that RFC 3629 allows for it. */
  lemma Utf8Encodes(code: nat)
    requires code < 0x110000
    ensures BitsOf(Utf8(code)) == Some(code) && Announced(Utf8(code)[0]) == |Utf8(code)|
    ensures IsCharacter(code) ==> Encodes(Utf8(code), code)
  {
    if code < 0x80 {
    } else if code < 0x800 {
      TwoBytes(code);
    } else if code < 0x10000 {
      ThreeBytes(code);
    } else {
      FourBytes(code);
    }
  }

  lemma TwoBytes(code: nat)
    requires 0x80 <= code < 0x800
    ensures |Utf8(code)| == 2 && BitsOf(Utf8(code)) == Some(code) && Announced(Utf8(code)[0]) == 2
  {
    Divided(code, 64);
  }

  lemma ThreeBytes(code: nat)
    requires 0x800 <= code < 0x10000
    ensures |Utf8(code)| == 3 && BitsOf(Utf8(code)) == Some(code) && Announced(Utf8(code)[0]) == 3
  {
    Divided(code, 64);
    Divided(code / 64, 64);
    assert code / 4096 == code / 64 / 64;
  }

  lemma FourBytes(code: nat)
    requires 0x10000 <= code < 0x110000
    ensures |Utf8(code)| == 4 && BitsOf(Utf8(code)) == Some(code) && Announced(Utf8(code)[0]) == 4
  {
    var a, b, d, e := code / 262144, code / 4096 % 64, code / 64 % 64, code % 64;
    assert code / 262144 == code / 4096 / 64 && code / 4096 == code / 64 / 64;
    assert code == a * 0x40000 + b * 0x1000 + d * 0x40 + e;
    Marks(a, b, d, e);
    assert Utf8(code) == [(0xF0 + a) as char, (0x80 + b) as char, (0x80 + d) as char, (0x80 + e) as char];
  }

  lemma Marks(a: nat, b: nat, d: nat, e: nat)
    requires a < 8 && b < 64 && d < 64 && e < 64
    ensures
      var u := [(0xF0 + a) as char, (0x80 + b) as char, (0x80 + d) as char, (0x80 + e) as char];
      BitsOf(u) == Some(a * 0x40000 + b * 0x1000 + d * 0x40 + e) && Announced(u[0]) == 4
  {}

  lemma Divided(n: nat, d: nat)
    requires d > 0
    ensures n == n / d * d + n % d && n % d < d
  {}

  /** That form is the shortest, and the only one of its length. */
  lemma EncodedOnce(u: string, v: string, code: nat)
    requires Encodes(u, code) && BitsOf(v) == Some(code)
    ensures |u| <= |v| && (|u| == |v| ==> u == v)
  {
    FewerBits(v, code);
    FewerBits(u, code);
    if |u| == |v| {
      SameBits(u, v, code);
    }
  }

  lemma FewerBits(v: string, code: nat)
    requires BitsOf(v) == Some(code)
    ensures 1 <= |v| <= 4
    ensures (|v| == 1 ==> code < 0x80) && (|v| == 2 ==> code < 0x800) && (|v| == 3 ==> code < 0x10000)
  {}

  lemma SameBits(u: string, v: string, code: nat)
    requires BitsOf(u) == BitsOf(v) == Some(code) && |u| == |v|
    ensures u == v
  {
    if |u| == 2 {
      SameDigits(u[0] as int, Six(u[1]), v[0] as int, Six(v[1]));
    } else if |u| == 3 {
      var a, b := (u[0] as int - 0xE0) * 0x40 + Six(u[1]), (v[0] as int - 0xE0) * 0x40 + Six(v[1]);
      SameDigits(a, Six(u[2]), b, Six(v[2]));
      SameDigits(u[0] as int, Six(u[1]), v[0] as int, Six(v[1]));
    } else if |u| == 4 {
      var a, b := (u[0] as int - 0xF0) * 0x40 + Six(u[1]), (v[0] as int - 0xF0) * 0x40 + Six(v[1]);
      SameDigits(a * 0x40 + Six(u[2]), Six(u[3]), b * 0x40 + Six(v[2]), Six(v[3]));
      SameDigits(a, Six(u[2]), b, Six(v[2]));
      SameDigits(u[0] as int, Six(u[1]), v[0] as int, Six(v[1]));
    }
  }

  lemma SameDigits(a: int, b: nat, d: int, e: nat)
    requires b < 0x40 && e < 0x40 && a * 0x40 + b == d * 0x40 + e
    ensures a == d && b == e
  {}

  /** No character is the front of another. */
  lemma PrefixFree(u: string, code: nat, v: string, other: nat)
    requires Encodes(u, code) && Encodes(v, other) && u <= v
    ensures u == v && code == other
  {
    assert Announced(u[0]) == |u| && Announced(v[0]) == |v|;
  }

  /** The text of a character decodes to it, and what follows is decoded by itself. */
  lemma CharacterFirst(u: string, code: nat, rest: string)
    requires Encodes(u, code)
    ensures Decoded(u + rest) == Joined(Some(code), Decoded(rest))
  {
    assert Announced(u[0]) == |u|;
    hide Encodes, BitsOf;
    assert (u + rest)[..|u|] == u && (u + rest)[|u|..] == rest;
    assert Character(u) == Some(code) by {
      Bits(u, code);
    }
  }

  lemma Bits(u: string, code: nat)
    requires Encodes(u, code)
    ensures BitsOf(u) == Some(code)
  {}

  /** Two texts in a row are decoded one by one. */
  lemma {:induction false} DecodedInTurn(s: string, t: string)
    requires Decoded(s).Some? && Decoded(t).Some?
    ensures Decoded(s + t) == Some(Decoded(s).value + Decoded(t).value)
    decreases |s|
  {
    hide Encodes, BitsOf;
    if |s| == 0 {
      assert s + t == t;
      assert Decoded(s).value + Decoded(t).value == Decoded(t).value;
    } else {
      var n := Announced(s[0]);
      assert (s + t)[..n] == s[..n] && (s + t)[n..] == s[n..] + t;
      DecodedInTurn(s[n..], t);
      var code := Character(s[..n]).value;
      var rest, more := Decoded(s[n..]).value, Decoded(t).value;
      assert Decoded(s + t) == Joined(Some(code), Some(rest + more));
      assert [code] + (rest + more) == ([code] + rest) + more;
    }
  }

  /** The characters before the first NUL. */
  function BeforeNul(codes: seq<nat>): seq<nat> {
    if |codes| == 0 || codes[0] == 0 then [] else [codes[0]] + BeforeNul(codes[1..])
  }

  /** Cutting the bytes at the first NUL byte cuts the characters at the first NUL. */
  lemma {:induction false} CutAtNul(s: string)
    requires Decoded(s).Some?
    ensures Decoded(CString(s)) == Some(BeforeNul(Decoded(s).value))
    decreases |s|
  {
    hide Encodes, BitsOf;
    if |s| > 0 {
      var n := Announced(s[0]);
      var u, rest := s[..n], s[n..];
      var code := Character(u).value;
      assert Encodes(u, code);
      CutAtNul(rest);
      assert s == u + rest;
      OnlyNulHasNul(u, code);
      if code == 0 {
        assert CString(s) == "";
      } else {
        NoNulPasses(u, rest);
        CharacterFirst(u, code, CString(rest));
      }
    }
  }

  lemma OnlyNulHasNul(u: string, code: nat)
    requires Encodes(u, code)
    ensures if code == 0 then u == "\0" else NoNul(u)
  {}

  lemma {:induction false} NoNulPasses(u: string, rest: string)
    requires NoNul(u)
    ensures CString(u + rest) == u + CString(rest)
  {
    if |u| == 0 {
      assert u + rest == rest;
    } else {
      assert (u + rest)[1..] == u[1..] + rest;
      NoNulPasses(u[1..], rest);
    }
  }

  // ---- hexadecimal digits ------------------------------------------------------------------

  /** A digit as it is written, in either letter case. */
  function WrittenDigit(d: nat, upper: bool): char
    requires d < 16
  {
    if upper then "0123456789ABCDEF"[d] else "0123456789abcdef"[d]
  }

  /** Four digits of a number, each in the letter case that is asked for. */
  function WrittenHex(n: nat, upper: seq<bool>): string
    requires n < 0x10000 && |upper| == 4
  {
    [WrittenDigit(n / 0x1000, upper[0]), WrittenDigit(n / 0x100 % 0x10, upper[1]),
     WrittenDigit(n / 0x10 % 0x10, upper[2]), WrittenDigit(n % 0x10, upper[3])]
  }

  lemma DigitReads(d: nat, upper: bool)
    requires d < 16
    ensures HexValue(WrittenDigit(d, upper)) == d
  {}

  /** Nothing else is a digit. */
  lemma OnlyDigitsRead(c: char)
    ensures HexValue(c) == -1 <==> forall d: nat, upper: bool | d < 16 :: WrittenDigit(d, upper) != c
  {
    if HexValue(c) >= 0 {
      var d := HexValue(c);
      assert WrittenDigit(d, true) == c || WrittenDigit(d, false) == c;
    }
  }

  /** Four written digits are read as their number. */
  lemma HexReadsBack(c: string, p: nat, n: nat, upper: seq<bool>)
    requires n < 0x10000 && |upper| == 4 && p + 4 <= |c| && c[p..p + 4] == WrittenHex(n, upper)
    ensures Hex4(c, p) == n
  {
    hide HexValue;
    DigitReads(n / 0x1000, upper[0]);
    DigitReads(n / 0x100 % 0x10, upper[1]);
    DigitReads(n / 0x10 % 0x10, upper[2]);
    DigitReads(n % 0x10, upper[3]);
    var t := c[p..p + 4];
    assert c[p] == t[0] && c[p + 1] == t[1] && c[p + 2] == t[2] && c[p + 3] == t[3];
    FourDigits(n);
  }

  lemma FourDigits(n: nat)
    requires n < 0x10000
    ensures ((n / 0x1000 * 16 + n / 0x100 % 0x10) * 16 + n / 0x10 % 0x10) * 16 + n % 0x10 == n
  {
    assert n / 0x10 / 0x10 == n / 0x100 && n / 0x100 / 0x10 == n / 0x1000;
  }
}
