/** The strings and numbers of RFC 8259, sections 6 and 7: all of them are texts that the parser reads, but for
    numbers of more than 63 characters. */
module JsonStandard {
  import opened JsonText
  import opened JsonGrammar
  import opened JsonRoundTrip
  import opened JsonSpelling
  import opened JsonUtf8
  import opened Options

  // ---- strings -----------------------------------------------------------------------------

  /** What stands between quotes: characters as they are, a character with a short escape, with its code in
      hexadecimal digits of either letter case, or with the codes of a surrogate pair. */
  datatype Piece = AsIs(bytes: string) | Short(code: nat) | Code(code: nat, cases: seq<bool>)
                 | Surrogates(code: nat, highCases: seq<bool>, lowCases: seq<bool>)

  /** The short escapes of section 7. */
  const SHORT_ESCAPES: map<nat, char> :=
    map[0x22 := '\"', 0x5C := '\\', 0x2F := '/', 0x08 := 'b', 0x0C := 'f', 0x0A := 'n', 0x0D := 'r', 0x09 := 't']

  predicate LegalPiece(p: Piece) {
    match p
    case AsIs(u) => Plain(u)
    case Short(code) => code in SHORT_ESCAPES
    case Code(code, cases) => code < 0x10000 && IsCharacter(code) && |cases| == 4
    case Surrogates(code, high, low) => 0x10000 <= code && IsCharacter(code) && |high| == 4 && |low| == 4
  }

  predicate Plain(u: string) {
    forall i :: 0 <= i < |u| ==> u[i] != '\0' && u[i] != '\"' && u[i] != '\\'
  }

  function PieceText(p: Piece): string
    requires LegalPiece(p)
  {
    match p
    case AsIs(u) => u
    case Short(code) => ['\\', SHORT_ESCAPES[code]]
    case Code(code, cases) => "\\u" + WrittenHex(code, cases)
    case Surrogates(code, high, low) =>
      "\\u" + WrittenHex(HighSurrogate(code), high) + ("\\u" + WrittenHex(LowSurrogate(code), low))
  }

  function HighSurrogate(code: nat): (h: nat)
    requires 0x10000 <= code < 0x110000
    ensures 0xD800 <= h <= 0xDBFF
  {
    0xD800 + (code - 0x10000) / 0x400
  }

  function LowSurrogate(code: nat): (l: nat)
    ensures 0xDC00 <= l <= 0xDFFF
  {
    0xDC00 + code % 0x400
  }

  /** The bytes that a piece stands for. */
  function PieceValue(p: Piece): string
    requires LegalPiece(p)
  {
    if p.AsIs? then p.bytes else Utf8(p.code)
  }

  /** The characters that a piece stands for, if its bytes are UTF-8. */
  function PieceCodes(p: Piece): Option<seq<nat>> {
    if p.AsIs? then Decoded(p.bytes) else Some([p.code])
  }

  predicate LegalPieces(pieces: seq<Piece>) {
    forall i :: 0 <= i < |pieces| ==> LegalPiece(pieces[i])
  }

  function PieceTexts(pieces: seq<Piece>): string
    requires LegalPieces(pieces)
  {
    if |pieces| == 0 then "" else PieceText(pieces[0]) + PieceTexts(pieces[1..])
  }

  function PieceValues(pieces: seq<Piece>): string
    requires LegalPieces(pieces)
  {
    if |pieces| == 0 then "" else PieceValue(pieces[0]) + PieceValues(pieces[1..])
  }

  function Codes(pieces: seq<Piece>): Option<seq<nat>> {
    if |pieces| == 0 then Some([]) else Both(PieceCodes(pieces[0]), Codes(pieces[1..]))
  }

  function Both(first: Option<seq<nat>>, rest: Option<seq<nat>>): Option<seq<nat>> {
    if first.Some? && rest.Some? then Some(first.value + rest.value) else None
  }

  /** The code in four digits closes no string, and is read as its number. */
  lemma CodeStands(c: string, p: nat, n: nat, cases: seq<bool>)
    requires n < 0x10000 && |cases| == 4 && StartsAt(c, p, "\\u" + WrittenHex(n, cases)) && p + 6 < |c|
    ensures c[p] == '\\' && c[p + 1] == 'u' && Hex4(c, p + 2) == n
    ensures CloseQuote(c, p) == CloseQuote(c, p + 6)
  {
    hide StartsAt, HexValue, Hex4, WrittenDigit;
    var t := "\\u" + WrittenHex(n, cases);
    StartsWith(c, p, t, 0);
    StartsWith(c, p, t, 1);
    StartsWith(c, p, t, 2);
    StartsWith(c, p, t, 3);
    StartsWith(c, p, t, 4);
    StartsWith(c, p, t, 5);
    HexPlain(n, cases);
    assert c[p + 2..p + 6] == WrittenHex(n, cases);
    HexReadsBack(c, p + 2, n, cases);
    Skipped(c, p);
    PlainPasses(c, p + 2);
    PlainPasses(c, p + 3);
    PlainPasses(c, p + 4);
    PlainPasses(c, p + 5);
  }

  lemma HexPlain(n: nat, cases: seq<bool>)
    requires n < 0x10000 && |cases| == 4
    ensures Plain(WrittenHex(n, cases)) && NoNul(WrittenHex(n, cases))
  {
    hide WrittenDigit;
    DigitPlain(n / 0x1000, cases[0]);
    DigitPlain(n / 0x100 % 0x10, cases[1]);
    DigitPlain(n / 0x10 % 0x10, cases[2]);
    DigitPlain(n % 0x10, cases[3]);
  }

  lemma DigitPlain(d: nat, upper: bool)
    requires d < 16
    ensures var c := WrittenDigit(d, upper); c != '\"' && c != '\\' && c != '\0'
  {}

  lemma {:induction false} PlainsRead(c: string, p: nat, end: nat, u: string)
    requires Plain(u) && StartsAt(c, p, u) && p + |u| <= end < |c|
    ensures CloseQuote(c, p) == CloseQuote(c, p + |u|)
    ensures Unescaped(c, p, end) == Before(u, Unescaped(c, p + |u|, end))
    decreases |u|
  {
    hide StartsAt, CloseQuote, Unescaped;
    if |u| > 0 {
      assert u == [u[0]] + u[1..];
      StartsSplit(c, p, [u[0]], u[1..]);
      StartsWith(c, p, u, 0);
      PlainPasses(c, p);
      PlainReads(c, p, end);
      PlainsRead(c, p + 1, end, u[1..]);
      BeforeTwice([u[0]], u[1..], Unescaped(c, p + |u|, end));
    } else {
      BeforeNothing(Unescaped(c, p, end));
    }
  }

  lemma BeforeNothing(r: Parsed<string>)
    ensures Before("", r) == r
  {
    if r.Ok? {
      assert "" + r.value == r.value;
    }
  }

  lemma BeforeTwice(s: string, t: string, r: Parsed<string>)
    ensures Before(s, Before(t, r)) == Before(s + t, r)
  {
    if r.Ok? {
      assert s + (t + r.value) == (s + t) + r.value;
    }
  }

  lemma ShortStands(code: nat)
    requires code in SHORT_ESCAPES
    ensures SHORT_ESCAPES[code] != 'u' && SHORT_ESCAPES[code] != '\0'
    ensures ShortEscape(SHORT_ESCAPES[code]) == Some(code as char) && Utf8(code) == [code as char]
  {}

  /** A surrogate pair stands for its character. */
  lemma PairStands(c: string, p: nat, end: nat, code: nat)
    requires 0x10000 <= code < 0x110000 && p + 12 <= end < |c| && c[p + 6] == '\\' && c[p + 7] == 'u'
    requires Hex4(c, p + 2) == HighSurrogate(code) && Hex4(c, p + 8) == LowSurrogate(code)
    ensures Utf16(c, p, end) == Ok(code, p + 12)
  {
    hide Hex4;
    var high, low := (code - 0x10000) / 0x400, code % 0x400;
    assert HighSurrogate(code) % 0x400 == high && LowSurrogate(code) % 0x400 == low;
    assert code == 0x10000 + high * 0x400 + low;
  }

  /** One piece is passed by the search for the quote, and resolved to its bytes. */
  lemma PieceReads(c: string, p: nat, end: nat, x: Piece)
    requires LegalPiece(x) && StartsAt(c, p, PieceText(x)) && p + |PieceText(x)| <= end < |c|
    ensures CloseQuote(c, p) == CloseQuote(c, p + |PieceText(x)|)
    ensures Unescaped(c, p, end) == Before(PieceValue(x), Unescaped(c, p + |PieceText(x)|, end))
  {
    hide StartsAt, HexValue, Hex4, Utf8, CloseQuote, Unescaped, ShortEscape, WrittenDigit, HighSurrogate, LowSurrogate;
    match x {
      case AsIs(u) =>
        PlainsRead(c, p, end, u);
      case Short(code) =>
        StartsWith(c, p, PieceText(x), 0);
        StartsWith(c, p, PieceText(x), 1);
        ShortStands(code);
        Skipped(c, p);
        ShortReads(c, p, end);
      case Code(code, cases) =>
        CodeStands(c, p, code, cases);
        CodeReads(c, p, end);
      case Surrogates(code, high, low) =>
        StartsSplit(c, p, "\\u" + WrittenHex(HighSurrogate(code), high), "\\u" + WrittenHex(LowSurrogate(code), low));
        CodeStands(c, p, HighSurrogate(code), high);
        CodeStands(c, p + 6, LowSurrogate(code), low);
        PairStands(c, p, end, code);
        CodeReads(c, p, end);
    }
  }

  lemma {:induction false} PiecesRead(c: string, p: nat, pieces: seq<Piece>)
    requires LegalPieces(pieces) && StartsAt(c, p, PieceTexts(pieces) + "\"")
    ensures var end := p + |PieceTexts(pieces)|;
      end < |c| && CloseQuote(c, p) == Ok((), end) && Unescaped(c, p, end) == Ok(PieceValues(pieces), end)
    decreases |pieces|
  {
    hide StartsAt, PieceText, PieceValue, LegalPiece;
    var end := p + |PieceTexts(pieces)|;
    StartsSplit(c, p, PieceTexts(pieces), "\"");
    StartsWith(c, end, "\"", 0);
    StartsWithin(c, end, "\"");
    if |pieces| == 0 {
      NothingReads(c, p, end);
    } else {
      hide CloseQuote, Unescaped;
      var first, rest := PieceText(pieces[0]), PieceTexts(pieces[1..]);
      assert PieceTexts(pieces) + "\"" == first + (rest + "\"");
      StartsSplit(c, p, first, rest + "\"");
      PieceReads(c, p, end, pieces[0]);
      PiecesRead(c, p + |first|, pieces[1..]);
    }
  }

  lemma {:induction false} PiecesNoNul(pieces: seq<Piece>)
    requires LegalPieces(pieces)
    ensures NoNul(PieceTexts(pieces))
  {
    hide LegalPiece, PieceText;
    if |pieces| > 0 {
      PieceNoNul(pieces[0]);
      PiecesNoNul(pieces[1..]);
    }
  }

  lemma PieceNoNul(p: Piece)
    requires LegalPiece(p)
    ensures NoNul(PieceText(p))
  {
    hide WrittenHex;
    if p.Code? {
      HexPlain(p.code, p.cases);
    } else if p.Surrogates? {
      HexPlain(HighSurrogate(p.code), p.highCases);
      HexPlain(LowSurrogate(p.code), p.lowCases);
    } else if p.Short? {
      ShortStands(p.code);
    }
  }

  /** The bytes of the pieces are their characters in UTF-8. */
  lemma {:induction false} PiecesDecode(pieces: seq<Piece>)
    requires LegalPieces(pieces) && Codes(pieces).Some?
    ensures Decoded(PieceValues(pieces)) == Codes(pieces)
  {
    hide LegalPiece, PieceValue, PieceCodes, Decoded;
    if |pieces| > 0 {
      PieceDecodes(pieces[0]);
      PiecesDecode(pieces[1..]);
      DecodedInTurn(PieceValue(pieces[0]), PieceValues(pieces[1..]));
    } else {
      NothingDecodes();
    }
  }

  lemma NothingDecodes()
    ensures Decoded("") == Some([])
  {}

  lemma PieceDecodes(p: Piece)
    requires LegalPiece(p)
    ensures Decoded(PieceValue(p)) == PieceCodes(p)
  {
    hide Decoded, Utf8, Encodes;
    if !p.AsIs? {
      Utf8Encodes(p.code);
      CharacterFirst(Utf8(p.code), p.code, "");
      NothingDecodes();
      assert Utf8(p.code) + "" == Utf8(p.code);
      assert [p.code] + [] == [p.code];
    }
  }

  /** Every string of RFC 8259 is read as its characters, in UTF-8, or those before the first NUL that an escape stands
      for. Bytes that are no UTF-8 are kept as they are. */
  lemma StringsAreBodies(pieces: seq<Piece>)
    requires LegalPieces(pieces)
    ensures IsBody(PieceTexts(pieces)) && BodyValue(PieceTexts(pieces)) == CString(PieceValues(pieces))
    ensures Codes(pieces).Some? ==> Decoded(BodyValue(PieceTexts(pieces))) == Some(BeforeNul(Codes(pieces).value))
  {
    hide LegalPiece, PieceTexts, PieceValues, CloseQuote, Unescaped, Codes, Decoded;
    PiecesNoNul(pieces);
    var d := PieceTexts(pieces) + "\"";
    StartsHere(d, 0, d);
    PiecesRead(d, 0, pieces);
    if Codes(pieces).Some? {
      PiecesDecode(pieces);
      CutAtNul(PieceValues(pieces));
    }
  }

  /** Characters that section 7 does not allow as they are. */
  predicate MustEscape(code: nat) {
    code < 0x20 || code == 0x22 || code == 0x5C
  }

  /** The printer escapes those characters alone, with the short escape if there is one. */
  lemma EscapedIfMust(c: char)
    ensures !MustEscape(c as nat) ==> Escape(c) == [c]
    ensures MustEscape(c as nat) ==>
      var code := c as nat;
      var p := if code in SHORT_ESCAPES then Short(code) else Code(code, [false, false, false, false]);
      LegalPiece(p) && Escape(c) == PieceText(p)
  {
    if c < ' ' && c as nat !in SHORT_ESCAPES {
      assert c as nat / 0x1000 == 0 && c as nat / 0x100 % 0x10 == 0 && c as nat / 0x10 % 0x10 == c as nat / 0x10;
    }
  }

  // ---- literals and white space ------------------------------------------------------------

  /** The four characters of section 2 of RFC 8259. */
  predicate IsSpace(s: string) {
    forall i :: 0 <= i < |s| ==> s[i] as nat in {0x20, 0x09, 0x0A, 0x0D}
  }

  /** The three literals of section 3, with any white space around them, are read as what they stand for. */
  lemma LiteralsAreRead(before: string, after: string)
    requires IsSpace(before) && IsSpace(after)
    ensures NoNul(before) && NoNul(after)
    ensures LiteralRead(before + ("null" + after), Null)
    ensures LiteralRead(before + ("true" + after), True) && LiteralRead(before + ("false" + after), False)
  {
    AtomRead(before, Null, after);
    AtomRead(before, True, after);
    AtomRead(before, False, after);
  }

  predicate LiteralRead(t: string, v: Value) {
    NoNul(t) && Parse(t, true).Ok? && Parse(t, true).value == v
  }

  lemma AtomRead(before: string, v: Value, after: string)
    requires IsSpace(before) && IsSpace(after) && (v.Null? || v.True? || v.False?)
    ensures NoNul(before) && NoNul(after)
    ensures LiteralRead(before + ((if v.Null? then "null" else if v.True? then "true" else "false") + after), v)
  {
    hide Parse;
    var x := Item(before, Atom(v), after);
    assert LegalItem(x);
    SpelledParses(false, x);
    var t := if v.Null? then "null" else if v.True? then "true" else "false";
    assert Spelled(Atom(v)) == t;
    assert Whole(false, x) == "" + (before + (t + after)) == before + (t + after);
  }

  // ---- numbers -----------------------------------------------------------------------------

  /** A number with its parts: a whole part without leading zeros, a fraction and an exponent, if any. */
  datatype Decimal = Decimal(minus: bool, whole: string, fraction: Option<string>, exponent: Option<Power>)

  datatype Power = Power(e: char, sign: string, digits: string)

  predicate AllDigits(s: string) {
    forall i :: 0 <= i < |s| ==> Digit(s[i])
  }

  predicate LegalDecimal(d: Decimal) {
    && |d.whole| > 0 && AllDigits(d.whole) && (d.whole[0] == '0' ==> |d.whole| == 1)
    && (d.fraction.Some? ==> |d.fraction.value| > 0 && AllDigits(d.fraction.value))
    && (d.exponent.Some? ==> LegalPower(d.exponent.value))
  }

  predicate LegalPower(p: Power) {
    p.e in "eE" && p.sign in ["", "+", "-"] && |p.digits| > 0 && AllDigits(p.digits)
  }

  function PowerText(p: Power): string {
    [p.e] + (p.sign + p.digits)
  }

  function PowerIf(p: Option<Power>): string {
    if p.Some? then PowerText(p.value) else ""
  }

  function FractionIf(f: Option<string>): string {
    if f.Some? then "." + f.value else ""
  }

  function DecimalText(d: Decimal): string {
    (if d.minus then "-" else "") + (d.whole + (FractionIf(d.fraction) + PowerIf(d.exponent)))
  }

  lemma {:induction false} DigitsStop(s: string, t: string)
    requires AllDigits(s) && (|t| == 0 || !Digit(t[0]))
    ensures Digits(s + t) == |s|
  {
    if |s| == 0 {
      assert s + t == t;
    } else {
      assert (s + t)[1..] == s[1..] + t;
      DigitsStop(s[1..], t);
    }
  }

  lemma PowerConverts(p: Option<Power>)
    requires p.Some? ==> LegalPower(p.value)
    ensures Exponent(PowerIf(p)) == |PowerIf(p)|
    ensures |PowerIf(p)| > 0 ==> PowerIf(p)[0] in "eE"
  {
    if p.Some? {
      var x := p.value;
      var s := PowerIf(p);
      var k := 1 + |x.sign|;
      assert s[1..] == x.sign + x.digits;
      assert s[k..] == x.digits + "";
      DigitsStop(x.digits, "");
      assert Sign(s[1..]) == |x.sign| by {
        SignOf(x.sign, x.digits);
      }
    }
  }

  lemma SignOf(sign: string, digits: string)
    requires sign in ["", "+", "-"] && |digits| > 0 && AllDigits(digits)
    ensures Sign(sign + digits) == |sign|
  {}

  lemma ConvertedOf(s: string, k: nat, power: string)
    requires Sign(s) <= k <= |s| && Digits(s[Sign(s)..]) == k - Sign(s) > 0
    requires s[k..] == power && (|power| > 0 ==> power[0] != '.')
    ensures Converted(s) == k + Exponent(power)
  {
    hide Digits, Exponent;
    assert k < |s| ==> s[k] == power[0];
  }

  lemma ConvertedWithPoint(s: string, k: nat, n: nat, power: string)
    requires Sign(s) <= k < |s| && Digits(s[Sign(s)..]) == k - Sign(s) > 0
    requires s[k] == '.' && n == k + 1 + Digits(s[k + 1..]) && s[n..] == power
    ensures Converted(s) == n + Exponent(power)
  {
    hide Digits, Exponent;
  }

  lemma SignOfWhole(minus: string, rest: string)
    requires minus in ["", "-"] && |rest| > 0 && Digit(rest[0])
    ensures Sign(minus + rest) == |minus| && (minus + rest)[|minus|..] == rest
  {}

  /** Every number of RFC 8259 is converted whole. */
  lemma DecimalConverts(d: Decimal)
    requires LegalDecimal(d)
    ensures Converted(DecimalText(d)) == |DecimalText(d)|
  {
    hide Digits, Exponent, Converted, Sign, PowerIf, LegalPower, AllDigits;
    var minus, power := if d.minus then "-" else "", PowerIf(d.exponent);
    PowerConverts(d.exponent);
    FirstDigit(d.whole);
    if d.fraction.Some? {
      PointConverts(minus, d.whole, d.fraction.value, power);
    } else {
      WholeConverts(minus, d.whole, power);
      assert "" + power == power;
    }
  }

  lemma FirstDigit(s: string)
    requires |s| > 0 && AllDigits(s)
    ensures Digit(s[0])
  {}

  lemma WholeConverts(minus: string, whole: string, power: string)
    requires minus in ["", "-"] && |whole| > 0 && Digit(whole[0]) && AllDigits(whole)
    requires Exponent(power) == |power| && (|power| > 0 ==> power[0] in "eE")
    ensures var s := minus + (whole + power); Converted(s) == |s|
  {
    hide Digits, Exponent, Converted, Sign, AllDigits;
    SignOfWhole(minus, whole + power);
    DigitsStop(whole, power);
    ConvertedOf(minus + (whole + power), |minus| + |whole|, power);
  }

  lemma PointConverts(minus: string, whole: string, fraction: string, power: string)
    requires minus in ["", "-"] && |whole| > 0 && Digit(whole[0]) && AllDigits(whole) && AllDigits(fraction)
    requires Exponent(power) == |power| && (|power| > 0 ==> power[0] in "eE")
    ensures var s := minus + (whole + ("." + fraction + power)); Converted(s) == |s|
  {
    hide Digits, Exponent, Converted, Sign, AllDigits;
    var rest := "." + fraction + power;
    var s, k := minus + (whole + rest), |minus| + |whole|;
    SignOfWhole(minus, whole + rest);
    DigitsStop(whole, rest);
    DigitsStop(fraction, power);
    assert s[k + 1..] == fraction + power;
    ConvertedWithPoint(s, k, k + 1 + |fraction|, power);
  }

  lemma DecimalChars(d: Decimal)
    requires LegalDecimal(d)
    ensures var s := DecimalText(d);
      |s| > 0 && (s[0] == '-' || Digit(s[0])) && forall i :: 0 <= i < |s| ==> NumberChar(s[i])
  {
    if d.exponent.Some? {
      PowerChars(d.exponent.value);
    }
    var s := DecimalText(d);
    assert d.minus ==> s[0] == '-';
    assert !d.minus ==> s[0] == d.whole[0];
    hide DecimalText;
    var minus, fraction, power := if d.minus then "-" else "", FractionIf(d.fraction), PowerIf(d.exponent);
    FourParts(d, minus, fraction, power);
  }

  lemma PowerChars(p: Power)
    requires LegalPower(p)
    ensures forall i :: 0 <= i < |PowerText(p)| ==> NumberChar(PowerText(p)[i])
  {}

  lemma FourParts(d: Decimal, minus: string, fraction: string, power: string)
    requires LegalDecimal(d) && minus == (if d.minus then "-" else "")
    requires fraction == FractionIf(d.fraction) && power == PowerIf(d.exponent)
    requires forall i :: 0 <= i < |power| ==> NumberChar(power[i])
    ensures forall i :: 0 <= i < |DecimalText(d)| ==> NumberChar(DecimalText(d)[i])
  {
    hide PowerText;
    assert forall i :: 0 <= i < |fraction| ==> NumberChar(fraction[i]);
    assert DecimalText(d) == minus + (d.whole + (fraction + power));
  }

  /** Exactly those of at most 63 characters are read: of a longer one the parser takes the front for a number, and
      then meets the rest. */
  lemma NumberIsRead(d: Decimal)
    requires LegalDecimal(d)
    ensures NoNul(DecimalText(d))
    ensures
      var t := DecimalText(d);
      if |t| <= 63 then Parse(t, true).Ok? && Parse(t, true).value == Number(t) else Parse(t, true) == Fail
  {
    hide Converted, DecimalText, LegalDecimal, Parse, NumberChar;
    var t := DecimalText(d);
    DecimalConverts(d);
    DecimalChars(d);
    CharsNoNul(t);
    if |t| <= 63 {
      var x := Item("", Atom(Number(t)), "");
      assert LegalItem(x);
      SpelledParses(false, x);
      WholeAtom(t);
    } else {
      LongIsLost(t);
    }
  }

  lemma WholeAtom(t: string)
    ensures Whole(false, Item("", Atom(Number(t)), "")) == t
  {
    var v := Number(t);
    assert Text(v, false, 0) == t;
    assert Spelled(Atom(v)) == t;
  }

  lemma CharsNoNul(t: string)
    requires forall i :: 0 <= i < |t| ==> NumberChar(t[i])
    ensures NoNul(t)
  {}

  lemma LongIsLost(t: string)
    requires |t| > 63 && (t[0] == '-' || Digit(t[0])) && forall i :: 0 <= i < |t| ==> NumberChar(t[i])
    ensures NoNul(t) && Parse(t, true) == Fail
  {
    hide Converted, NumberRun;
    CharsNoNul(t);
    var c := t + "\0";
    NotStarting(c, 0, BYTE_ORDER_MARK);
    NotStarting(c, 0, "null");
    NotStarting(c, 0, "false");
    NotStarting(c, 0, "true");
    SkipNone(c, 0);
    var r := ParseNumber(c, 0);
    if r.Ok? {
      assert r.next <= 63;
      assert NumberChar(c[r.next]);
      SkipNone(c, r.next);
    }
  }
}
