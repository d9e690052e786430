/** The options of a Connection header: the list that section 6.1 of RFC 7230 makes of a value, and what the parser
    hears of it. */
module HttpOptions {
  import opened HttpLog
  import opened HttpStep

  const KEEP_ALIVE := "keep-alive"
  const CLOSE := "close"
  const SWITCH := "upgrade"
  const COMMA: byte := 44

  // ---- the list ----------------------------------------------------------------------------

  /** The parts of a value between its commas. */
  function Pieces(value: seq<byte>): (ps: seq<seq<byte>>)
    ensures |ps| > 0
  {
    if |value| == 0 then [[]]
    else
      var before, b := Pieces(value[..|value| - 1]), value[|value| - 1];
      var n := |before| - 1;
      if b == COMMA then before + [[]] else before[..n] + [before[n] + [b]]
  }

  function Fold(b: byte): byte {
    if 'A' as int <= b <= 'Z' as int then b + 32 else b
  }

  /** These bytes are a word, letter case aside. */
  predicate Folds(t: seq<byte>, w: string) {
    |t| == |w| && forall i :: 0 <= i < |t| ==> Fold(t[i]) == w[i] as int
  }

  function Led(t: seq<byte>): (r: seq<byte>)
    ensures |r| <= |t| && (|r| > 0 ==> r[0] != SPACE)
  {
    if |t| > 0 && t[0] == SPACE then Led(t[1..]) else t
  }

  predicate Blank(b: byte) {
    b == SPACE || b == TAB
  }

  /** A piece is an option, with nothing but blanks around it. */
  predicate Lists(p: seq<byte>, w: string) {
    exists i, j | 0 <= i <= j <= |p| ::
      Folds(p[i..j], w) && (forall k :: 0 <= k < i ==> Blank(p[k])) && forall k :: j <= k < |p| ==> Blank(p[k])
  }

  predicate Listed(value: seq<byte>, w: string) {
    exists i :: 0 <= i < |Pieces(value)| && Lists(Pieces(value)[i], w)
  }

  // ---- what the parser hears ---------------------------------------------------------------

  /** The same, but with spaces only around it. */
  predicate Says(p: seq<byte>, w: string) {
    Spells(Led(p), w)
  }

  predicate Spells(t: seq<byte>, w: string) {
    |t| >= |w| && Folds(t[..|w|], w) && forall i :: |w| <= i < |t| ==> t[i] == SPACE
  }

  /** The beginning of a word, but not all of it. */
  predicate FrontOf(t: seq<byte>, w: string) {
    0 < |t| < |w| && Folds(t, w[..|t|])
  }

  predicate IsFront(t: seq<byte>) {
    FrontOf(t, KEEP_ALIVE) || FrontOf(t, CLOSE) || FrontOf(t, SWITCH)
  }

  /** The bytes with which an option behind a comma may begin: those of a token but the underscore, and two more. */
  predicate Opens(b: byte) {
    || '0' as int <= b <= '9' as int || '@' as int <= b <= 'Z' as int || '`' as int <= b <= 'z' as int
    || '#' as int <= b <= '\'' as int || b == '!' as int || b == '*' as int || b == '+' as int || b == '-' as int
    || b == '.' as int || b == '\\' as int || b == '^' as int || b == '|' as int || b == '~' as int
  }

  /** How a piece is read: as an option, as the rest of the piece before, or not at all. */
  datatype Place = Start | Inside | Deaf

  /** The beginning of a word takes the comma behind it for a part of an option; so does an empty first piece. Another
      blank piece, or one that begins with anything else than an option does, ends the reading for good. */
  function PlaceOf(ps: seq<seq<byte>>, i: nat): Place
    requires i < |ps|
  {
    if i == 0 then Start else NextPlace(PlaceOf(ps, i - 1), i == 1, Led(ps[i - 1]))
  }

  function NextPlace(place: Place, first: bool, t: seq<byte>): Place {
    match place
    case Deaf => Deaf
    case Inside => Start
    case Start =>
      if |t| == 0 then if first then Inside else Deaf
      else if !first && !Opens(t[0]) then Deaf
      else if IsFront(t) then Inside
      else Start
  }

  /** Among the first `k` pieces there is one that is read as this option. */
  predicate Heard(ps: seq<seq<byte>>, k: nat, w: string)
    requires k <= |ps|
  {
    exists i :: 0 <= i < k && PlaceOf(ps, i) == Start && Says(ps[i], w)
  }

  predicate Found(value: seq<byte>, w: string) {
    Heard(Pieces(value), |Pieces(value)|, w)
  }

  // ---- how the two differ ------------------------------------------------------------------

  lemma {:induction false} LedStrips(t: seq<byte>)
    ensures var n := |t| - |Led(t)|;
      n >= 0 && t[n..] == Led(t) && forall k :: 0 <= k < n ==> t[k] == SPACE
  {
    if |t| > 0 && t[0] == SPACE {
      LedStrips(t[1..]);
      var n := |t| - |Led(t)|;
      assert t[n..] == t[1..][n - 1..];
      assert forall k :: 0 < k < n ==> t[k] == t[1..][k - 1];
    }
  }

  lemma SaysLists(p: seq<byte>, w: string)
    requires Says(p, w)
    ensures Lists(p, w)
  {
    LedStrips(p);
    var n, t := |p| - |Led(p)|, Led(p);
    var m := n + |w|;
    assert p[n..m] == t[..|w|];
    assert forall k :: m <= k < |p| ==> p[k] == t[k - n];
    assert Folds(p[n..m], w);
  }

  predicate NoTab(p: seq<byte>) {
    TAB !in p
  }

  lemma ListsSays(p: seq<byte>, w: string)
    requires Lists(p, w) && NoTab(p) && |w| > 0 && w[0] as int != SPACE
    ensures Says(p, w)
  {
    var i, j :| 0 <= i <= j <= |p| && Folds(p[i..j], w) && (forall k :: 0 <= k < i ==> Blank(p[k]))
      && forall k :: j <= k < |p| ==> Blank(p[k]);
    assert p[i] == p[i..j][0] && Fold(p[i]) == w[0] as int;
    LedIs(p, i);
    assert p[i..][..|w|] == p[i..j];
    assert forall k :: |w| <= k < |p[i..]| ==> p[i..][k] == p[i + k];
  }

  lemma {:induction false} LedIs(p: seq<byte>, i: nat)
    requires i < |p| && p[i] != SPACE && forall k :: 0 <= k < i ==> p[k] == SPACE
    ensures Led(p) == p[i..]
  {
    if i > 0 {
      LedIs(p[1..], i - 1);
      assert p[1..][i - 1..] == p[i..];
    }
  }

  predicate IsOption(w: string) {
    w == KEEP_ALIVE || w == CLOSE || w == SWITCH
  }

  /** An option with a tab beside it is listed, but not heard. */
  lemma SaysIff(p: seq<byte>, w: string)
    requires IsOption(w)
    ensures Says(p, w) <==> Lists(p, w) && NoTab(p)
  {
    if Lists(p, w) && NoTab(p) {
      ListsSays(p, w);
    }
    if Says(p, w) {
      SaysLists(p, w);
      SaysNoTab(p, w);
    }
  }

  lemma SaysNoTab(p: seq<byte>, w: string)
    requires IsOption(w) && Says(p, w)
    ensures NoTab(p)
  {
    LedStrips(p);
    var n, t := |p| - |Led(p)|, Led(p);
    WordNoTab(t[..|w|], w);
    assert p == p[..n] + (t[..|w|] + t[|w|..]);
    assert TAB !in t[|w|..];
  }

  lemma WordNoTab(t: seq<byte>, w: string)
    requires IsOption(w) && Folds(t, w)
    ensures NoTab(t)
  {
    forall i | 0 <= i < |t|
      ensures t[i] != TAB
    {
      assert Fold(t[i]) == w[i] as int;
      assert w[i] == '-' || 'a' <= w[i] <= 'z';
    }
  }

  ghost predicate ListedAt(ps: seq<seq<byte>>, i: nat, w: string)
    requires i < |ps|
  {
    PlaceOf(ps, i) == Start && Lists(ps[i], w) && NoTab(ps[i])
  }

  ghost predicate ListedOpenly(ps: seq<seq<byte>>, w: string) {
    exists i :: 0 <= i < |ps| && ListedAt(ps, i, w)
  }

  /** Exactly what is heard: an option of the list at a place where one is read, without a tab beside it. */
  lemma HeardIff(ps: seq<seq<byte>>, w: string)
    requires IsOption(w)
    ensures Heard(ps, |ps|, w) <==> ListedOpenly(ps, w)
  {
    hide Says, Lists, IsOption;
    if Heard(ps, |ps|, w) {
      var i :| 0 <= i < |ps| && PlaceOf(ps, i) == Start && Says(ps[i], w);
      SaysIff(ps[i], w);
      assert ListedAt(ps, i, w);
    }
    if i :| 0 <= i < |ps| && ListedAt(ps, i, w) {
      SaysIff(ps[i], w);
    }
  }

  lemma FoundIff(value: seq<byte>, w: string)
    requires IsOption(w)
    ensures Found(value, w) <==> ListedOpenly(Pieces(value), w)
    ensures Found(value, w) ==> Listed(value, w)
  {
    hide Lists, Heard, IsOption;
    HeardIff(Pieces(value), w);
    if ListedOpenly(Pieces(value), w) {
      var i :| 0 <= i < |Pieces(value)| && ListedAt(Pieces(value), i, w);
    }
  }

  /** A piece behind which the next option is heard: it is not blank, it is no beginning of one of the three options,
      and it begins with the byte of a token other than the underscore, or is the first. */
  predicate Regular(ps: seq<seq<byte>>, i: nat)
    requires i < |ps|
  {
    |Led(ps[i])| > 0 && !IsFront(Led(ps[i])) && (i == 0 || Opens(Led(ps[i])[0]))
  }

  /** Behind regular pieces an option is read, and the first that is not regular hides the piece behind it. */
  lemma {:induction false} RegularIff(ps: seq<seq<byte>>, n: nat)
    requires n < |ps| && forall i :: 0 <= i < n ==> Regular(ps, i)
    ensures PlaceOf(ps, n) == Start
    ensures n + 1 < |ps| ==> (PlaceOf(ps, n + 1) == Start <==> Regular(ps, n))
  {
    hide Led, IsFront, Opens;
    if n > 0 {
      RegularIff(ps, n - 1);
    }
  }

  /** So a list of regular pieces without tabs is heard as it is, */
  lemma RegularIsListed(value: seq<byte>, w: string)
    requires IsOption(w) && AllRegular(Pieces(value))
    ensures Found(value, w) <==> Listed(value, w)
  {
    hide Lists, Heard, IsOption, AllRegular, ListedAt;
    FoundIff(value, w);
    if Listed(value, w) {
      var i :| 0 <= i < |Pieces(value)| && Lists(Pieces(value)[i], w);
      RegularIsHeard(Pieces(value), i, w);
    }
  }

  predicate AllRegular(ps: seq<seq<byte>>) {
    (forall i :: 0 <= i < |ps| ==> NoTab(ps[i])) && forall i :: 0 <= i < |ps| - 1 ==> Regular(ps, i)
  }

  lemma RegularIsHeard(ps: seq<seq<byte>>, i: nat, w: string)
    requires AllRegular(ps) && i < |ps| && Lists(ps[i], w)
    ensures ListedAt(ps, i, w)
  {
    hide Lists, NoTab, Regular;
    RegularIff(ps, i);
  }

  /** and an option behind the first piece that is not is in the list, but not heard, unless it is there twice. */
  lemma IrregularIsLost(value: seq<byte>, n: nat, w: string)
    requires IsOption(w) && FirstIrregular(Pieces(value), n)
    requires forall i :: 0 <= i < |Pieces(value)| ==> (Lists(Pieces(value)[i], w) <==> i == n + 1)
    ensures Listed(value, w) && !Found(value, w)
  {
    hide Lists, Heard, IsOption, NoTab;
    FoundIff(value, w);
    IrregularHides(Pieces(value), n);
    assert Lists(Pieces(value)[n + 1], w);
  }

  predicate FirstIrregular(ps: seq<seq<byte>>, n: nat) {
    n + 1 < |ps| && !Regular(ps, n) && forall i :: 0 <= i < n ==> Regular(ps, i)
  }

  lemma IrregularHides(ps: seq<seq<byte>>, n: nat)
    requires FirstIrregular(ps, n)
    ensures PlaceOf(ps, n + 1) != Start
  {
    hide Regular;
    RegularIff(ps, n);
  }

  // ---- the parser's states -----------------------------------------------------------------

  predicate IsValueByte(b: byte) {
    IsHeaderChar(b) && b != CR && b != LF
  }

  /** The state of the parser behind the beginning of a piece, of which `t` is what is left without leading spaces. */
  predicate Stands(h: HeaderState, index: nat, place: Place, first: bool, t: seq<byte>) {
    match place
    case Inside => h.h_matching_connection_token?
    case Deaf => h.h_general?
    case Start =>
      if |t| == 0 then h.h_matching_connection_token_start? && index == 0
      else if !first && !Opens(t[0]) then h.h_general?
      else if Spells(t, KEEP_ALIVE) then h.h_connection_keep_alive?
      else if Spells(t, CLOSE) then h.h_connection_close?
      else if Spells(t, SWITCH) then h.h_connection_upgrade?
      else if FrontOf(t, KEEP_ALIVE) then h.h_matching_connection_keep_alive? && index == |t| - 1
      else if FrontOf(t, CLOSE) then h.h_matching_connection_close? && index == |t| - 1
      else if FrontOf(t, SWITCH) then h.h_matching_connection_upgrade? && index == |t| - 1
      else h.h_matching_connection_token?
  }

  lemma LowerIs(b: byte, c: char)
    requires IsValueByte(b) && ('a' <= c <= 'z' || c == '-')
    ensures Lower(b) == c as int <==> Fold(b) == c as int
  {}

  lemma OpensIff(b: byte)
    requires IsValueByte(b)
    ensures Opens(b) <==> Token(Lower(b)) != 0
    ensures (Lower(b) == SPACE <==> b == SPACE) && Lower(b) != TAB
    ensures Fold(b) == 'k' as int || Fold(b) == 'c' as int || Fold(b) == 'u' as int ==> Opens(b)
  {}

  /** One more byte: a word goes on, is complete, or is lost. */
  lemma WordMore(t: seq<byte>, b: byte, w: string)
    requires IsOption(w)
    ensures FrontOf(t + [b], w)
      <==> (|t| == 0 || FrontOf(t, w)) && |t| + 1 < |w| && Fold(b) == w[|t|] as int
    ensures Spells(t + [b], w)
      <==> (Spells(t, w) && b == SPACE) || (FrontOf(t, w) && |t| + 1 == |w| && Fold(b) == w[|t|] as int)
  {
    var u, n := t + [b], |t|;
    if n < |w| {
      assert u[..n] == t;
      FoldsMore(t, b, w);
    } else {
      assert u[..|w|] == t[..|w|] && u[n] == b;
      assert forall i :: |w| <= i < n ==> u[i] == t[i];
    }
  }

  lemma FoldsMore(t: seq<byte>, b: byte, w: string)
    requires |t| < |w|
    ensures Folds(t + [b], w[..|t| + 1]) <==> Folds(t, w[..|t|]) && Fold(b) == w[|t|] as int
  {
    var u, n := t + [b], |t|;
    assert u[n] == b && w[..n + 1][n] == w[n];
    assert forall i :: 0 <= i < n ==> u[i] == t[i] && w[..n + 1][i] == w[..n][i];
    if Folds(u, w[..n + 1]) {
      assert forall i :: 0 <= i < n ==> Fold(t[i]) == Fold(u[i]) == w[..n + 1][i] as int;
    }
  }

  /** No piece begins like two of the words. */
  lemma FirstLetter(t: seq<byte>, w: string)
    requires |t| > 0 && IsOption(w)
    ensures FrontOf(t, w) || Spells(t, w) ==> Fold(t[0]) == w[0] as int
  {
    if FrontOf(t, w) {
      assert w[..|t|][0] == w[0];
    }
    if Spells(t, w) {
      assert t[..|w|][0] == t[0];
    }
  }

  lemma WordOpens(t: seq<byte>, w: string)
    requires |t| > 0 && IsOption(w) && (FrontOf(t, w) || Spells(t, w))
    ensures Opens(t[0])
  {
    FirstLetter(t, w);
  }

  /** Of the three words at most one goes with a piece. */
  lemma OneWord(t: seq<byte>, w: string)
    requires |t| > 0 && IsOption(w) && (FrontOf(t, w) || Spells(t, w))
    ensures forall v :: IsOption(v) && v != w ==> !FrontOf(t, v) && !Spells(t, v)
  {
    hide FrontOf, Spells;
    FirstLetter(t, KEEP_ALIVE);
    FirstLetter(t, CLOSE);
    FirstLetter(t, SWITCH);
  }

  /** One flag more for each option that a piece begins with. */
  function Flagged(flags: Flags, place: Place, t: seq<byte>): Flags {
    flags.(keepAlive := flags.keepAlive || (place == Start && Spells(t, KEEP_ALIVE)),
           close := flags.close || (place == Start && Spells(t, CLOSE)),
           connectionUpgrade := flags.connectionUpgrade || (place == Start && Spells(t, SWITCH)))
  }

  lemma NotBoth(t: seq<byte>, w: string)
    ensures !(FrontOf(t, w) && Spells(t, w))
  {}

  /** What the words that go with a piece say about the parser's state. */
  lemma StandsFor(h: HeaderState, index: nat, first: bool, t: seq<byte>)
    requires Stands(h, index, Start, first, t) && |t| > 0
    ensures Spells(t, KEEP_ALIVE) <==> h.h_connection_keep_alive?
    ensures Spells(t, CLOSE) <==> h.h_connection_close?
    ensures Spells(t, SWITCH) <==> h.h_connection_upgrade?
    ensures FrontOf(t, KEEP_ALIVE) <==> h.h_matching_connection_keep_alive?
    ensures FrontOf(t, CLOSE) <==> h.h_matching_connection_close?
    ensures FrontOf(t, SWITCH) <==> h.h_matching_connection_upgrade?
    ensures IsFront(t) ==> index == |t| - 1
    ensures h.h_general? <==> !first && !Opens(t[0])
    ensures !h.h_matching_connection_token_start?
  {
    hide FrontOf, Spells, Opens;
    forall w | IsOption(w) && (FrontOf(t, w) || Spells(t, w))
      ensures Opens(t[0]) && forall v :: IsOption(v) && v != w ==> !FrontOf(t, v) && !Spells(t, v)
    {
      WordOpens(t, w);
      OneWord(t, w);
    }
    NotBoth(t, KEEP_ALIVE);
    NotBoth(t, CLOSE);
    NotBoth(t, SWITCH);
    assert IsOption(KEEP_ALIVE) && IsOption(CLOSE) && IsOption(SWITCH);
  }

  lemma NoneSpells(w: string)
    requires IsOption(w)
    ensures !Spells([], w)
  {}

  lemma CommaRead(q: Fields, place: Place, first: bool, t: seq<byte>)
    requires Stands(q.headerState, q.index, place, first, t) && !(first && |t| == 0)
    ensures
      var r := ValueChar(q, COMMA);
      && r.ValueOk? && r.contentLength == q.contentLength && r.flags == Flagged(q.flags, place, t)
      && Stands(r.h, r.index, NextPlace(place, first, t), false, [])
  {
    hide FrontOf, Spells, Opens;
    NoneSpells(KEEP_ALIVE);
    NoneSpells(CLOSE);
    NoneSpells(SWITCH);
    if place == Start && |t| > 0 {
      OptionEnds(q, first, t);
    } else {
      assert Token(Lower(COMMA)) == 0;
    }
  }

  lemma OptionEnds(q: Fields, first: bool, t: seq<byte>)
    requires Stands(q.headerState, q.index, Start, first, t) && |t| > 0
    ensures
      var r := ValueChar(q, COMMA);
      && r.ValueOk? && r.contentLength == q.contentLength && r.flags == Flagged(q.flags, Start, t)
      && Stands(r.h, r.index, NextPlace(Start, first, t), false, [])
  {
    hide FrontOf, Spells, Opens, Stands;
    StandsFor(q.headerState, q.index, first, t);
    StandsIs(q.headerState, q.index, first, t);
    CommaStands();
    if IsFront(t) {
      CommaMisses(q);
    }
  }

  lemma CommaStands()
    ensures Stands(h_matching_connection_token_start, 0, Start, false, [])
    ensures forall i :: Stands(h_matching_connection_token, i, Inside, false, [])
    ensures forall i :: Stands(h_general, i, Deaf, false, [])
  {}

  /** No word has a comma in it. */
  lemma CommaMisses(q: Fields)
    requires
      var h := q.headerState;
      h.h_matching_connection_keep_alive? || h.h_matching_connection_close? || h.h_matching_connection_upgrade?
    ensures ValueChar(q, COMMA) == ValueOk(h_matching_connection_token, q.index + 1, q.flags, q.contentLength)
  {}

  /** A piece without its leading spaces, and one byte more. */
  function Stripped(t: seq<byte>, b: byte): seq<byte> {
    if |t| == 0 && b == SPACE then [] else t + [b]
  }

  /** Of two states that stand for the same there is one. */
  lemma StandsIf(h: HeaderState, index: nat, first: bool, t: seq<byte>)
    requires |t| > 0
    requires first || Opens(t[0])
    requires h.h_connection_keep_alive? ==> Spells(t, KEEP_ALIVE)
    requires h.h_connection_close? ==> Spells(t, CLOSE)
    requires h.h_connection_upgrade? ==> Spells(t, SWITCH)
    requires h.h_matching_connection_keep_alive? ==> FrontOf(t, KEEP_ALIVE) && index == |t| - 1
    requires h.h_matching_connection_close? ==> FrontOf(t, CLOSE) && index == |t| - 1
    requires h.h_matching_connection_upgrade? ==> FrontOf(t, SWITCH) && index == |t| - 1
    requires h.h_matching_connection_token? ==> forall w | IsOption(w) :: !FrontOf(t, w) && !Spells(t, w)
    requires
      || h.h_connection_keep_alive? || h.h_connection_close? || h.h_connection_upgrade?
      || h.h_matching_connection_keep_alive? || h.h_matching_connection_close? || h.h_matching_connection_upgrade?
      || h.h_matching_connection_token?
    ensures Stands(h, index, Start, first, t)
  {
    hide FrontOf, Spells, Opens;
    forall w | IsOption(w) && (FrontOf(t, w) || Spells(t, w))
      ensures forall v :: IsOption(v) && v != w ==> !FrontOf(t, v) && !Spells(t, v)
    {
      OneWord(t, w);
    }
    NotBoth(t, KEEP_ALIVE);
    NotBoth(t, CLOSE);
    NotBoth(t, SWITCH);
    assert IsOption(KEEP_ALIVE) && IsOption(CLOSE) && IsOption(SWITCH);
  }

  /** While a word is matched: it goes on, is complete, or is lost. */
  lemma MatchReads(q: Fields, w: string, hit: HeaderState, h: HeaderState, t: seq<byte>, b: byte)
    requires IsOption(w) && FrontOf(t, w) && q.index == |t| - 1 && IsValueByte(b)
    ensures
      MatchValue(w, hit, h_matching_connection_token, h, q, Lower(b))
      == ValueOk(if FrontOf(t + [b], w) then h else if Spells(t + [b], w) then hit else h_matching_connection_token,
                 |t|, q.flags, q.contentLength)
  {
    LowerIs(b, w[|t|]);
    WordMore(t, b, w);
    NotBoth(t, w);
    NotBoth(t + [b], w);
    hide FrontOf, Spells, Lower;
    FrontFits(t, w);
  }

  lemma FrontFits(t: seq<byte>, w: string)
    requires FrontOf(t, w)
    ensures 0 < |t| < |w|
  {}

  /** Behind what matches no word, nothing matches one. */
  lemma LostStays(t: seq<byte>, b: byte)
    requires |t| > 0 && forall w | IsOption(w) :: !FrontOf(t, w) && !Spells(t, w)
    ensures forall w | IsOption(w) :: !FrontOf(t + [b], w) && !Spells(t + [b], w)
  {
    hide FrontOf, Spells;
    forall w | IsOption(w)
      ensures !FrontOf(t + [b], w) && !Spells(t + [b], w)
    {
      WordMore(t, b, w);
    }
  }

  /** A word that goes with a piece is the only one that can go with it and another byte. */
  lemma OthersLost(t: seq<byte>, b: byte, w: string)
    requires |t| > 0 && IsOption(w) && (FrontOf(t, w) || Spells(t, w))
    ensures forall v :: IsOption(v) && v != w ==> !FrontOf(t + [b], v) && !Spells(t + [b], v)
  {
    hide FrontOf, Spells;
    OneWord(t, w);
    forall v | IsOption(v) && v != w
      ensures !FrontOf(t + [b], v) && !Spells(t + [b], v)
    {
      WordMore(t, b, v);
    }
  }

  lemma MatchingRead(q: Fields, w: string, hit: HeaderState, first: bool, t: seq<byte>, b: byte)
    requires IsOption(w) && FrontOf(t, w) && q.index == |t| - 1 && IsValueByte(b) && (first || Opens(t[0]))
    requires
      || (w == KEEP_ALIVE && q.headerState.h_matching_connection_keep_alive? && hit.h_connection_keep_alive?)
      || (w == CLOSE && q.headerState.h_matching_connection_close? && hit.h_connection_close?)
      || (w == SWITCH && q.headerState.h_matching_connection_upgrade? && hit.h_connection_upgrade?)
    ensures
      var r := MatchValue(w, hit, h_matching_connection_token, q.headerState, q, Lower(b));
      && r.ValueOk? && r.contentLength == q.contentLength && r.flags == q.flags
      && Stands(r.h, r.index, Start, first, t + [b])
  {
    MatchReads(q, w, hit, q.headerState, t, b);
    OthersLost(t, b, w);
    FrontFits(t, w);
    hide FrontOf, Spells, Opens, MatchValue, Lower, Stands, IsValueByte;
    var r := MatchValue(w, hit, h_matching_connection_token, q.headerState, q, Lower(b));
    assert (t + [b])[0] == t[0];
    StandsIf(r.h, r.index, first, t + [b]);
  }

  lemma MatchedRead(q: Fields, w: string, first: bool, t: seq<byte>, b: byte)
    requires IsOption(w) && |t| > 0 && Spells(t, w) && (first || Opens(t[0])) && b != COMMA
    requires
      || (w == KEEP_ALIVE && q.headerState.h_connection_keep_alive?)
      || (w == CLOSE && q.headerState.h_connection_close?)
      || (w == SWITCH && q.headerState.h_connection_upgrade?)
    ensures
      var r := OptionChar(q, b);
      && r.ValueOk? && r.contentLength == q.contentLength && r.flags == q.flags
      && Stands(r.h, r.index, Start, first, t + [b])
  {
    WordMore(t, b, w);
    OthersLost(t, b, w);
    NotBoth(t, w);
    hide FrontOf, Spells, Opens, Stands;
    var r := OptionChar(q, b);
    assert (t + [b])[0] == t[0];
    StandsIf(r.h, r.index, first, t + [b]);
  }

  /** The first byte of an option. */
  lemma FirstStands(first: bool, b: byte, h: HeaderState)
    requires IsValueByte(b) && b != SPACE && (first || Opens(b))
    requires h == StartOption(Lower(b))
    ensures Stands(h, 0, Start, first, [b])
  {
    LowerIs(b, 'k');
    LowerIs(b, 'c');
    LowerIs(b, 'u');
    assert [] + [b] == [b];
    WordMore([], b, KEEP_ALIVE);
    WordMore([], b, CLOSE);
    WordMore([], b, SWITCH);
    NoneSpells(KEEP_ALIVE);
    NoneSpells(CLOSE);
    NoneSpells(SWITCH);
    NoneFront();
    hide FrontOf, Spells, Opens, Lower, Fold, Stands, IsValueByte;
    StandsIf(h, 0, first, [b]);
  }

  lemma NoneFront()
    ensures forall w :: !FrontOf([], w)
  {}

  lemma StartRead(q: Fields, b: byte)
    requires q.headerState.h_matching_connection_token_start? && q.index == 0 && b != COMMA && IsValueByte(b)
    ensures
      var r := ValueChar(q, b);
      && r.ValueOk? && r.contentLength == q.contentLength && r.flags == q.flags
      && Stands(r.h, r.index, Start, false, Stripped([], b))
  {
    OpensIff(b);
    hide Lower, Token, Stands, IsValueByte, Opens, Spells, FrontOf;
    if b == SPACE {
      CommaStands();
      SpaceStarts(q);
    } else if Opens(b) {
      FirstStands(false, b, StartOption(Lower(b)));
    } else {
      DeafStands(b);
    }
    assert [] + [b] == [b];
  }

  lemma SpaceStarts(q: Fields)
    requires q.headerState.h_matching_connection_token_start?
    ensures ValueChar(q, SPACE) == KeepValue(q, h_matching_connection_token_start)
  {}

  lemma DeafStands(b: byte)
    requires !Opens(b)
    ensures forall i :: Stands(h_general, i, Start, false, [b])
  {}

  lemma ByteRead(q: Fields, place: Place, first: bool, t: seq<byte>, b: byte)
    requires Stands(q.headerState, q.index, place, first, t) && !(first && |t| == 0)
    requires b != COMMA && IsValueByte(b)
    ensures
      var r := ValueChar(q, b);
      && r.ValueOk? && r.contentLength == q.contentLength && r.flags == q.flags
      && Stands(r.h, r.index, place, first, Stripped(t, b))
  {
    if place != Start {
      hide Lower, Token, IsValueByte, Opens, Spells, FrontOf;
    } else if |t| == 0 {
      StartRead(q, b);
    } else {
      StandsFor(q.headerState, q.index, first, t);
      StandsIs(q.headerState, q.index, first, t);
      hide Stands, Lower, Token, IsValueByte, Opens, Spells, FrontOf;
      OptionByte(q, first, t, b);
    }
  }

  lemma StandsIs(h: HeaderState, index: nat, first: bool, t: seq<byte>)
    requires Stands(h, index, Start, first, t) && |t| > 0
    ensures
      || h.h_connection_keep_alive? || h.h_connection_close? || h.h_connection_upgrade?
      || h.h_matching_connection_keep_alive? || h.h_matching_connection_close? || h.h_matching_connection_upgrade?
      || h.h_matching_connection_token? || h.h_general?
  {
    hide FrontOf, Spells, Opens;
  }

  lemma OptionByte(q: Fields, first: bool, t: seq<byte>, b: byte)
    requires Stands(q.headerState, q.index, Start, first, t) && |t| > 0 && b != COMMA && IsValueByte(b)
    ensures
      var r := ValueChar(q, b);
      && r.ValueOk? && r.contentLength == q.contentLength && r.flags == q.flags
      && Stands(r.h, r.index, Start, first, t + [b])
  {
    StandsFor(q.headerState, q.index, first, t);
    StandsIs(q.headerState, q.index, first, t);
    hide Stands, Lower, Token, IsValueByte, Opens, Spells, FrontOf, MatchValue, OptionChar;
    match q.headerState {
      case h_matching_connection_keep_alive => MatchingRead(q, KEEP_ALIVE, h_connection_keep_alive, first, t, b);
      case h_matching_connection_close => MatchingRead(q, CLOSE, h_connection_close, first, t, b);
      case h_matching_connection_upgrade => MatchingRead(q, SWITCH, h_connection_upgrade, first, t, b);
      case h_connection_keep_alive => MatchedRead(q, KEEP_ALIVE, first, t, b);
      case h_connection_close => MatchedRead(q, CLOSE, first, t, b);
      case h_connection_upgrade => MatchedRead(q, SWITCH, first, t, b);
      case h_general => DeafGoesOn(q, first, t, b);
      case h_matching_connection_token => TokenGoesOn(q, first, t, b);
      case _ =>
    }
  }

  lemma TokenGoesOn(q: Fields, first: bool, t: seq<byte>, b: byte)
    requires q.headerState.h_matching_connection_token? && |t| > 0 && (first || Opens(t[0])) && b != COMMA
    requires forall w | IsOption(w) :: !FrontOf(t, w) && !Spells(t, w)
    ensures ValueChar(q, b) == KeepValue(q, h_matching_connection_token)
    ensures Stands(h_matching_connection_token, q.index, Start, first, t + [b])
  {
    hide Stands, FrontOf, Spells, Opens;
    LostStays(t, b);
    assert (t + [b])[0] == t[0];
    StandsIf(h_matching_connection_token, q.index, first, t + [b]);
  }

  lemma DeafGoesOn(q: Fields, first: bool, t: seq<byte>, b: byte)
    requires q.headerState.h_general? && |t| > 0 && !first && !Opens(t[0])
    ensures ValueChar(q, b) == KeepValue(q, h_general)
    ensures Stands(h_general, q.index, Start, first, t + [b])
  {
    assert (t + [b])[0] == t[0];
  }

  // ---- whole values ------------------------------------------------------------------------

  /** What the parser knows behind the first bytes of a value, of which these are the pieces. */
  predicate Knows(q: Fields, flags: Flags, ps: seq<seq<byte>>)
    requires |ps| > 0
  {
    var n := |ps| - 1;
    && q.flags == FlagsBefore(flags, ps, n)
    && Stands(q.headerState, q.index, PlaceOf(ps, n), n == 0, Led(ps[n])) && (n == 0 ==> |Led(ps[0])| > 0)
  }

  /** The flags with the options of the first `k` pieces. */
  function FlagsBefore(flags: Flags, ps: seq<seq<byte>>, k: nat): Flags
    requires k <= |ps|
  {
    flags.(keepAlive := flags.keepAlive || Heard(ps, k, KEEP_ALIVE), close := flags.close || Heard(ps, k, CLOSE),
           connectionUpgrade := flags.connectionUpgrade || Heard(ps, k, SWITCH))
  }

  lemma {:induction false} PlaceStays(ps: seq<seq<byte>>, qs: seq<seq<byte>>, n: nat)
    requires n < |ps| && n < |qs| && ps[..n] == qs[..n]
    ensures PlaceOf(ps, n) == PlaceOf(qs, n)
  {
    hide NextPlace, Led;
    if n > 0 {
      assert ps[n - 1] == ps[..n][n - 1] == qs[n - 1];
      assert ps[..n - 1] == ps[..n][..n - 1] == qs[..n - 1];
      PlaceStays(ps, qs, n - 1);
    }
  }

  lemma HeardStays(ps: seq<seq<byte>>, qs: seq<seq<byte>>, n: nat, w: string)
    requires n <= |ps| && n <= |qs| && ps[..n] == qs[..n]
    ensures Heard(ps, n, w) == Heard(qs, n, w)
  {
    hide Says;
    forall i | 0 <= i < n
      ensures PlaceOf(ps, i) == PlaceOf(qs, i) && ps[i] == qs[i]
    {
      assert ps[i] == ps[..n][i] == qs[i];
      assert ps[..i] == ps[..n][..i] == qs[..i];
      PlaceStays(ps, qs, i);
    }
  }

  lemma HeardMore(ps: seq<seq<byte>>, n: nat, w: string)
    requires n < |ps|
    ensures Heard(ps, n + 1, w) <==> Heard(ps, n, w) || (PlaceOf(ps, n) == Start && Spells(Led(ps[n]), w))
  {
    hide Spells, Led, NextPlace;
  }

  lemma FlagsStay(flags: Flags, ps: seq<seq<byte>>, qs: seq<seq<byte>>, n: nat)
    requires n <= |ps| && n <= |qs| && ps[..n] == qs[..n]
    ensures FlagsBefore(flags, ps, n) == FlagsBefore(flags, qs, n)
  {
    hide Heard;
    HeardStays(ps, qs, n, KEEP_ALIVE);
    HeardStays(ps, qs, n, CLOSE);
    HeardStays(ps, qs, n, SWITCH);
  }

  lemma FlagsMore(flags: Flags, ps: seq<seq<byte>>, n: nat)
    requires n < |ps|
    ensures FlagsBefore(flags, ps, n + 1) == Flagged(FlagsBefore(flags, ps, n), PlaceOf(ps, n), Led(ps[n]))
  {
    hide Heard, Spells, Led;
    HeardMore(ps, n, KEEP_ALIVE);
    HeardMore(ps, n, CLOSE);
    HeardMore(ps, n, SWITCH);
  }

  lemma {:induction false} LedMore(p: seq<byte>, b: byte)
    ensures Led(p + [b]) == Stripped(Led(p), b)
  {
    if |p| > 0 && p[0] == SPACE {
      assert (p + [b])[1..] == p[1..] + [b];
      LedMore(p[1..], b);
    } else if |p| == 0 {
      assert p + [b] == [b] && [b][1..] == [];
    }
  }

  function Valued(q: Fields, r: ValueResult): Fields
    requires r.ValueOk?
  {
    q.(headerState := r.h, index := r.index, flags := r.flags)
  }

  /** The pieces with another byte. */
  function More(ps: seq<seq<byte>>, b: byte): (r: seq<seq<byte>>)
    requires |ps| > 0
    ensures |r| > 0
  {
    if b == COMMA then ps + [[]] else ps[..|ps| - 1] + [ps[|ps| - 1] + [b]]
  }

  lemma KnowsMore(q: Fields, flags: Flags, u: seq<byte>, b: byte)
    requires Knows(q, flags, Pieces(u)) && IsValueByte(b)
    ensures
      var r := ValueChar(q, b);
      r.ValueOk? && r.contentLength == q.contentLength && Knows(Valued(q, r), flags, Pieces(u + [b]))
  {
    hide Pieces, Knows, ValueChar, IsValueByte;
    MorePieces(u, b);
    PiecesKnow(q, flags, Pieces(u), b);
  }

  lemma PiecesKnow(q: Fields, flags: Flags, ps: seq<seq<byte>>, b: byte)
    requires |ps| > 0 && Knows(q, flags, ps) && IsValueByte(b)
    ensures
      var r := ValueChar(q, b);
      r.ValueOk? && r.contentLength == q.contentLength && Knows(Valued(q, r), flags, More(ps, b))
  {
    hide ValueChar, FlagsBefore, Flagged, PlaceOf, Led, NextPlace, Stands, Knows, IsValueByte, More;
    KnowsParts(q, flags, ps);
    var n := |ps| - 1;
    var place, t := PlaceOf(ps, n), Led(ps[n]);
    if b == COMMA {
      CommaRead(q, place, n == 0, t);
      CommaPieces(flags, ps);
      KnowsIs(Valued(q, ValueChar(q, b)), flags, More(ps, b), NextPlace(place, n == 0, t), []);
    } else {
      ByteRead(q, place, n == 0, t, b);
      BytePieces(flags, ps, b);
      KnowsIs(Valued(q, ValueChar(q, b)), flags, More(ps, b), place, Stripped(t, b));
    }
  }

  lemma KnowsParts(q: Fields, flags: Flags, ps: seq<seq<byte>>)
    requires |ps| > 0 && Knows(q, flags, ps)
    ensures
      var n := |ps| - 1;
      && q.flags == FlagsBefore(flags, ps, n) && Stands(q.headerState, q.index, PlaceOf(ps, n), n == 0, Led(ps[n]))
      && (n == 0 ==> |Led(ps[n])| > 0)
  {
    hide Stands, FlagsBefore;
  }

  lemma KnowsIs(q: Fields, flags: Flags, ps: seq<seq<byte>>, place: Place, t: seq<byte>)
    requires |ps| > 0 && PlaceOf(ps, |ps| - 1) == place && Led(ps[|ps| - 1]) == t && (|ps| == 1 ==> |t| > 0)
    requires q.flags == FlagsBefore(flags, ps, |ps| - 1) && Stands(q.headerState, q.index, place, |ps| == 1, t)
    ensures Knows(q, flags, ps)
  {
    hide FlagsBefore, Stands;
  }

  lemma CommaPieces(flags: Flags, ps: seq<seq<byte>>)
    requires |ps| > 0
    ensures
      var n, qs := |ps| - 1, More(ps, COMMA);
      var place, t := PlaceOf(ps, n), Led(ps[n]);
      && |qs| == n + 2 && Led(qs[n + 1]) == [] && PlaceOf(qs, n + 1) == NextPlace(place, n == 0, t)
      && FlagsBefore(flags, qs, n + 1) == Flagged(FlagsBefore(flags, ps, n), place, t)
  {
    hide FlagsBefore, Flagged, NextPlace;
    var n, qs := |ps| - 1, ps + [[]];
    assert qs[..n + 1] == ps[..n + 1] == ps && qs[..n] == ps[..n];
    FlagsStay(flags, ps, qs, n + 1);
    FlagsMore(flags, ps, n);
    PlaceStays(ps, qs, n);
    assert qs[n] == ps[n] && qs[n + 1] == [];
  }

  lemma BytePieces(flags: Flags, ps: seq<seq<byte>>, b: byte)
    requires |ps| > 0 && b != COMMA
    ensures
      var n, qs := |ps| - 1, More(ps, b);
      && |qs| == n + 1 && PlaceOf(qs, n) == PlaceOf(ps, n) && Led(qs[n]) == Stripped(Led(ps[n]), b)
      && FlagsBefore(flags, qs, n) == FlagsBefore(flags, ps, n)
  {
    hide FlagsBefore;
    var n, qs := |ps| - 1, More(ps, b);
    assert qs[..n] == ps[..n];
    FlagsStay(flags, ps, qs, n);
    PlaceStays(ps, qs, n);
    LedMore(ps[n], b);
  }

  /** The first byte of a value. */
  lemma KnowsFirst(q: Fields, b: byte)
    requires IsValueByte(b) && b != SPACE && q.headerState == StartOption(Lower(b)) && q.index == 0
    ensures Knows(q, q.flags, Pieces([b]))
  {
    MorePieces([], b);
    assert [] + [b] == [b];
    if b == COMMA {
      EmptyFirst(q);
    } else {
      hide Stands, IsValueByte;
      NoneHeard([[b]]);
      NoneFlagged(q.flags, [[b]]);
      FirstStands(true, b, q.headerState);
      assert Pieces([]) == [[]] && Pieces([b]) == [[b]];
      KnowsIs(q, q.flags, [[b]], Start, [b]);
    }
  }

  lemma NoneFlagged(flags: Flags, ps: seq<seq<byte>>)
    ensures FlagsBefore(flags, ps, 0) == flags
  {}

  lemma NothingFound(w: string)
    requires IsOption(w)
    ensures !Found([], w)
  {
    NoneSpells(w);
  }

  lemma NoneHeard(ps: seq<seq<byte>>)
    ensures forall w :: !Heard(ps, 0, w)
  {}

  lemma EmptyFirst(q: Fields)
    requires q.headerState == StartOption(Lower(COMMA))
    ensures Knows(q, q.flags, [[], []])
  {
    var ps: seq<seq<byte>> := [[], []];
    assert PlaceOf(ps, 1) == Inside;
    NoneSpells(KEEP_ALIVE);
    NoneSpells(CLOSE);
    NoneSpells(SWITCH);
    hide Spells;
    HeardMore(ps, 0, KEEP_ALIVE);
    HeardMore(ps, 0, CLOSE);
    HeardMore(ps, 0, SWITCH);
    NoneHeard(ps);
  }

  /** At the end of a value the options that were heard are flagged. */
  lemma KnowsAll(q: Fields, flags: Flags, value: seq<byte>)
    requires Knows(q, flags, Pieces(value))
    ensures Recognised(q.headerState, q.flags)
      == flags.(keepAlive := flags.keepAlive || Found(value, KEEP_ALIVE), close := flags.close || Found(value, CLOSE),
                connectionUpgrade := flags.connectionUpgrade || Found(value, SWITCH))
  {
    hide Pieces, PlaceOf, Led, Knows, Stands, Flagged, Recognised;
    var ps := Pieces(value);
    var n := |ps| - 1;
    KnowsParts(q, flags, ps);
    LastFlagged(q, PlaceOf(ps, n), n == 0, Led(ps[n]));
    AllFlagged(flags, ps);
  }

  lemma AllFlagged(flags: Flags, ps: seq<seq<byte>>)
    requires |ps| > 0
    ensures
      var n := |ps| - 1;
      Flagged(FlagsBefore(flags, ps, n), PlaceOf(ps, n), Led(ps[n]))
      == flags.(keepAlive := flags.keepAlive || Heard(ps, |ps|, KEEP_ALIVE),
                close := flags.close || Heard(ps, |ps|, CLOSE),
                connectionUpgrade := flags.connectionUpgrade || Heard(ps, |ps|, SWITCH))
  {
    hide Heard, PlaceOf, Led, Flagged;
    FlagsMore(flags, ps, |ps| - 1);
  }

  lemma LastFlagged(q: Fields, place: Place, first: bool, t: seq<byte>)
    requires Stands(q.headerState, q.index, place, first, t) && !(first && |t| == 0)
    ensures Recognised(q.headerState, q.flags) == Flagged(q.flags, place, t)
  {
    hide FrontOf, Spells, Opens;
    NoneSpells(KEEP_ALIVE);
    NoneSpells(CLOSE);
    NoneSpells(SWITCH);
    if place == Start && |t| > 0 {
      StandsFor(q.headerState, q.index, first, t);
      StandsIs(q.headerState, q.index, first, t);
      hide Stands;
    }
  }

  // ---- examples of it ----------------------------------------------------------------------

  lemma {:induction false} NoComma(a: seq<byte>)
    requires COMMA !in a
    ensures Pieces(a) == [a]
  {
    if |a| > 0 {
      NoComma(a[..|a| - 1]);
      assert a[..|a| - 1] + [a[|a| - 1]] == a;
    }
  }

  /** A comma stands between the pieces before it and those behind it. */
  lemma {:induction false} PiecesJoin(a: seq<byte>, b: seq<byte>)
    ensures Pieces(a + ([COMMA] + b)) == Pieces(a) + Pieces(b)
    decreases |b|
  {
    var s := a + ([COMMA] + b);
    if |b| == 0 {
      MoreComma(a);
      assert s == a + [COMMA];
    } else {
      hide Pieces;
      var init, c := b[..|b| - 1], b[|b| - 1];
      PiecesJoin(a, init);
      assert s == (a + ([COMMA] + init)) + [c] && b == init + [c];
      JoinLast(Pieces(a), Pieces(init), c);
      MorePieces(a + ([COMMA] + init), c);
      MorePieces(init, c);
    }
  }

  lemma MoreComma(a: seq<byte>)
    ensures Pieces(a + [COMMA]) == Pieces(a) + Pieces([])
  {
    MorePieces(a, COMMA);
  }

  /** Another byte is a comma, or belongs to the last piece. */
  lemma MorePieces(u: seq<byte>, b: byte)
    ensures
      var ps := Pieces(u);
      var n := |ps| - 1;
      Pieces(u + [b]) == if b == COMMA then ps + [[]] else ps[..n] + [ps[n] + [b]]
  {
    assert (u + [b])[..|u|] == u;
  }

  lemma JoinLast(ps: seq<seq<byte>>, qs: seq<seq<byte>>, b: byte)
    requires |qs| > 0
    ensures
      var all, n, m := ps + qs, |qs| - 1, |ps + qs| - 1;
      && all + [[]] == ps + (qs + [[]])
      && all[..m] + [all[m] + [b]] == ps + (qs[..n] + [qs[n] + [b]])
  {
    assert (ps + qs)[..|ps + qs| - 1] == ps + qs[..|qs| - 1];
  }

  const CLOSES: seq<byte> := [99, 108, 111, 115, 101]

  /** Three ways to hide "close" behind a comma: after "c", after an empty piece, and after "_x". */
  lemma CloseIsLost()
    ensures CloseLost([[99], CLOSES]) && CloseLost([[97], [], CLOSES]) && CloseLost([[97], [95, 120], CLOSES])
  {
    OneIsLost([[99], CLOSES]);
    OneIsLost([[97], [], CLOSES]);
    OneIsLost([[97], [95, 120], CLOSES]);
  }

  /** Pieces with commas between them. */
  function Joint(ps: seq<seq<byte>>): seq<byte>
    requires |ps| > 0
  {
    if |ps| == 1 then ps[0] else ps[0] + ([COMMA] + Joint(ps[1..]))
  }

  ghost predicate CloseLost(ps: seq<seq<byte>>)
    requires |ps| > 0
  {
    Pieces(Joint(ps)) == ps && Listed(Joint(ps), CLOSE) && !Found(Joint(ps), CLOSE)
  }

  lemma {:induction false} JointPieces(ps: seq<seq<byte>>)
    requires |ps| > 0 && forall i :: 0 <= i < |ps| ==> COMMA !in ps[i]
    ensures Pieces(Joint(ps)) == ps
  {
    NoComma(ps[0]);
    if |ps| > 1 {
      JointPieces(ps[1..]);
      PiecesJoin(ps[0], Joint(ps[1..]));
    }
  }

  lemma OneIsLost(ps: seq<seq<byte>>)
    requires ps == [[99], CLOSES] || ps == [[97], [], CLOSES] || ps == [[97], [95, 120], CLOSES]
    ensures CloseLost(ps)
  {
    hide Pieces, Joint, PlaceOf;
    JointPieces(ps);
    var n := |ps| - 1;
    CloseBehind(ps);
  }

  lemma CloseBehind(ps: seq<seq<byte>>)
    requires ps == [[99], CLOSES] || ps == [[97], [], CLOSES] || ps == [[97], [95, 120], CLOSES]
    ensures Lists(ps[|ps| - 1], CLOSE) && !Heard(ps, |ps|, CLOSE)
  {
    var n := |ps| - 1;
    assert CLOSES[0..5] == CLOSES && Folds(CLOSES[0..5], CLOSE);
    assert !Says([99], CLOSE) && !Says([97], CLOSE) && !Says([], CLOSE) && !Says([95, 120], CLOSE);
    assert PlaceOf(ps, 1) == if n == 1 then Inside else Start;
    assert PlaceOf(ps, n) != Start;
  }
}
