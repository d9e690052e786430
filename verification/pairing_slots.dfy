/** The layout of pairings on flash: a magic, a header, and forty slots of eighty bytes. */
module PairingSlots {
  import opened Flash

  const MAX_PAIRINGS: nat := 40
  const PAIRINGS_OFFSET: nat := 128
  const SLOT: nat := 80
  const MAGIC: seq<bv8> := [0x48, 0x41, 0x50, 0x00]

  datatype Pairing = Pairing(id: seq<bv8>, key: seq<bv8>, permissions: bv8)

  /** A device id of 36 bytes without a terminator, and an exported public key. */
  predicate Good(p: Pairing) {
    GoodId(p.id) && |p.key| == 32
  }

  predicate GoodId(id: seq<bv8>) {
    |id| == 36 && 0 !in id
  }

  /** What a slot stands for: nothing yet, a pairing, or one that was taken out. */
  datatype State = Empty | Live(pairing: Pairing) | Dead

  predicate GoodState(s: State) {
    s.Live? ==> Good(s.pairing)
  }

  function Repeated(b: bv8, n: nat): (r: seq<bv8>)
    ensures |r| == n && forall i :: 0 <= i < n ==> r[i] == b
  {
    seq(n, _ => b)
  }

  /** The record of a pairing. */
  function Record(p: Pairing): (r: seq<bv8>)
    requires Good(p)
    ensures |r| == SLOT
  {
    MAGIC + [p.permissions] + p.id + p.key + Repeated(0, 7)
  }

  function Image(s: State): (r: seq<bv8>)
    requires GoodState(s)
    ensures |r| == SLOT
  {
    match s
    case Empty => Repeated(ERASED, SLOT)
    case Live(p) => Record(p)
    case Dead => Repeated(0, SLOT)
  }

  function Slot(cells: seq<bv8>, i: nat): (r: seq<bv8>)
    requires i < MAX_PAIRINGS && |cells| >= SECTOR
    ensures |r| == SLOT
  {
    cells[PAIRINGS_OFFSET + SLOT * i..PAIRINGS_OFFSET + SLOT * (i + 1)]
  }

  /** The cells hold these slots. */
  predicate Shows(cells: seq<bv8>, slots: seq<State>) {
    && |cells| >= SECTOR && |slots| == MAX_PAIRINGS
    && forall i :: 0 <= i < MAX_PAIRINGS ==> GoodState(slots[i]) && Slot(cells, i) == Image(slots[i])
  }

  /** Slots are filled from the front. */
  predicate Packed(slots: seq<State>) {
    forall i, j :: 0 <= i <= j < |slots| && slots[i].Empty? ==> slots[j].Empty?
  }

  /** C's comparison of at most `n` characters. */
  predicate StrnEqual(a: seq<bv8>, b: seq<bv8>, n: nat)
    requires n <= |a| && n <= |b|
  {
    n == 0 || (a[0] == b[0] && (a[0] == 0 || StrnEqual(a[1..], b[1..], n - 1)))
  }

  lemma {:induction false} StrnEqualIds(a: seq<bv8>, b: seq<bv8>)
    requires |a| == |b| && 0 !in a
    ensures StrnEqual(a, b, |a|) <==> a == b
  {
    if |a| > 0 {
      assert a == [a[0]] + a[1..] && b == [b[0]] + b[1..];
      StrnEqualIds(a[1..], b[1..]);
    }
  }

  predicate HasMagic(slot: seq<bv8>)
    requires |slot| == SLOT
  {
    StrnEqual(slot[..4], MAGIC, 4)
  }

  /** The magic tells pairings from what is empty or was taken out. */
  lemma MagicMeansLive(s: State)
    requires GoodState(s)
    ensures HasMagic(Image(s)) <==> s.Live?
  {
    var m := Image(s)[..4];
    if s.Live? {
      assert m == MAGIC;
      MagicItself();
    } else {
      assert m[0] == Image(s)[0] != MAGIC[0];
    }
  }

  lemma MagicItself()
    ensures StrnEqual(MAGIC, MAGIC, 4)
  {
    assert StrnEqual(MAGIC[3..], MAGIC[3..], 1);
    assert StrnEqual(MAGIC[2..], MAGIC[2..], 2) by { assert MAGIC[2..][1..] == MAGIC[3..]; }
    assert StrnEqual(MAGIC[1..], MAGIC[1..], 3) by { assert MAGIC[1..][1..] == MAGIC[2..]; }
  }

  lemma ErasedMeansEmpty(s: State)
    requires GoodState(s)
    ensures Image(s) == Repeated(ERASED, SLOT) <==> s.Empty?
  {
    var b := Image(s)[0];
    assert s.Live? ==> b == MAGIC[0];
  }

  /** The fields of a record. */
  lemma RecordFields(p: Pairing)
    requires Good(p)
    ensures Record(p)[4] == p.permissions && Record(p)[5..41] == p.id && Record(p)[41..73] == p.key
  {}

  /** The pairings in the order of their slots. */
  function Listed(slots: seq<State>): (r: seq<Pairing>)
    ensures |r| <= |slots|
  {
    if |slots| == 0 then []
    else (if slots[0].Live? then [slots[0].pairing] else []) + Listed(slots[1..])
  }

  lemma {:induction false} ListedSplit(a: seq<State>, b: seq<State>)
    ensures Listed(a + b) == Listed(a) + Listed(b)
  {
    if |a| == 0 {
      assert a + b == b;
    } else {
      ListedSplit(a[1..], b);
      var ab := a + b;
      assert ab[1..] == a[1..] + b && ab[0] == a[0];
      var head := if a[0].Live? then [a[0].pairing] else [];
      assert head + (Listed(a[1..]) + Listed(b)) == (head + Listed(a[1..])) + Listed(b);
    }
  }

  lemma ListedAt(slots: seq<State>, i: nat)
    requires i < |slots|
    ensures Listed(slots[..i + 1]) == Listed(slots[..i]) + if slots[i].Live? then [slots[i].pairing] else []
  {
    assert slots[..i + 1] == slots[..i] + [slots[i]];
    ListedSplit(slots[..i], [slots[i]]);
    assert Listed([slots[i]]) == if slots[i].Live? then [slots[i].pairing] else [];
  }

  lemma ListedAround(slots: seq<State>, i: nat)
    requires i < |slots|
    ensures Listed(slots)
      == Listed(slots[..i]) + (if slots[i].Live? then [slots[i].pairing] else []) + Listed(slots[i + 1..])
  {
    assert slots == slots[..i + 1] + slots[i + 1..];
    ListedSplit(slots[..i + 1], slots[i + 1..]);
    ListedAt(slots, i);
  }

  lemma ListedUpdate(slots: seq<State>, i: nat, s: State)
    requires i < |slots|
    ensures Listed(slots[i := s])
      == Listed(slots[..i]) + (if s.Live? then [s.pairing] else []) + Listed(slots[i + 1..])
  {
    var now := slots[i := s];
    ListedAround(now, i);
    assert now[..i] == slots[..i] && now[i + 1..] == slots[i + 1..];
  }

  lemma {:induction false} NoneListed(slots: seq<State>)
    ensures (forall i :: 0 <= i < |slots| ==> !slots[i].Live?) <==> Listed(slots) == []
  {
    if |slots| > 0 {
      NoneListed(slots[1..]);
      assert forall i :: 1 <= i < |slots| ==> slots[i] == slots[1..][i - 1];
      assert slots[1..] == [] || slots[1..][0] == slots[1];
    }
  }

  /** Forty pairings are listed exactly if every slot has one. */
  lemma {:induction false} AllListed(slots: seq<State>)
    ensures |Listed(slots)| == |slots| <==> forall i :: 0 <= i < |slots| ==> slots[i].Live?
  {
    if |slots| > 0 {
      AllListed(slots[1..]);
      assert forall i :: 1 <= i < |slots| ==> slots[i] == slots[1..][i - 1];
    }
  }

  /** The first pairing of a device, by its position; the length if there is none. */
  function IndexOf(list: seq<Pairing>, id: seq<bv8>): (k: nat)
    ensures k <= |list| && (k < |list| ==> list[k].id == id)
    ensures forall j :: 0 <= j < k ==> list[j].id != id
  {
    if |list| == 0 || list[0].id == id then 0 else 1 + IndexOf(list[1..], id)
  }

  function Without(list: seq<Pairing>, k: nat): seq<Pairing> {
    if k < |list| then list[..k] + list[k + 1..] else list
  }

  /** A pairing found in the slots is the first listed with its id. */
  lemma FoundIsFirst(slots: seq<State>, i: nat, id: seq<bv8>)
    requires i < |slots| && slots[i].Live? && slots[i].pairing.id == id
    requires forall j :: 0 <= j < i ==> slots[j].Live? ==> slots[j].pairing.id != id
    ensures IndexOf(Listed(slots), id) == |Listed(slots[..i])|
    ensures Listed(slots)[|Listed(slots[..i])|..] == [slots[i].pairing] + Listed(slots[i + 1..])
    ensures Listed(slots)[..|Listed(slots[..i])|] == Listed(slots[..i])
  {
    ListedAround(slots, i);
    NoneWithId(slots[..i], id);
    var a, all := Listed(slots[..i]), Listed(slots);
    assert forall j :: 0 <= j < |a| ==> all[j] == a[j];
    assert all[|a|].id == id;
  }

  lemma {:induction false} NoneWithId(slots: seq<State>, id: seq<bv8>)
    requires forall j :: 0 <= j < |slots| ==> slots[j].Live? ==> slots[j].pairing.id != id
    ensures forall j :: 0 <= j < |Listed(slots)| ==> Listed(slots)[j].id != id
  {
    if |slots| > 0 {
      NoneWithId(slots[1..], id);
    }
  }

  lemma NotListed(slots: seq<State>, id: seq<bv8>)
    requires forall j :: 0 <= j < |slots| ==> slots[j].Live? ==> slots[j].pairing.id != id
    ensures IndexOf(Listed(slots), id) == |Listed(slots)|
  {
    NoneWithId(slots, id);
  }

  /** Taking the found pairing out of its slot takes it out of the list. */
  lemma TakenOut(slots: seq<State>, i: nat, id: seq<bv8>)
    requires i < |slots| && slots[i].Live? && slots[i].pairing.id == id
    requires forall j :: 0 <= j < i ==> slots[j].Live? ==> slots[j].pairing.id != id
    ensures Listed(slots[i := Dead]) == Without(Listed(slots), IndexOf(Listed(slots), id))
  {
    hide Listed, IndexOf;
    FoundIsFirst(slots, i, id);
    ListedUpdate(slots, i, Dead);
    var all, a, b := Listed(slots), Listed(slots[..i]), Listed(slots[i + 1..]);
    assert all[|a| + 1..] == all[|a|..][1..] == b;
    assert a + [] + b == a + b;
  }

  /** Filling the first empty slot puts a pairing at the end of the list. */
  lemma PutAtEnd(slots: seq<State>, i: nat, p: Pairing)
    requires Packed(slots) && i < |slots| && slots[i].Empty?
    ensures Listed(slots[i := Live(p)]) == Listed(slots) + [p]
  {
    ListedUpdate(slots, i, Live(p));
    ListedAround(slots, i);
    NoneListed(slots[i + 1..]);
  }

  /** Programming a slot changes that slot alone. */
  lemma SlotProgrammed(cells: seq<bv8>, i: nat, data: seq<bv8>, j: nat)
    requires |cells| >= SECTOR && i < MAX_PAIRINGS && j < MAX_PAIRINGS && |data| == SLOT
    ensures
      var now := Programmed(cells, PAIRINGS_OFFSET + SLOT * i, data);
      && (j != i ==> Slot(now, j) == Slot(cells, j))
      && (j == i ==> forall k :: 0 <= k < SLOT ==> Slot(now, j)[k] == Slot(cells, j)[k] & data[k])
  {
    var now := Programmed(cells, PAIRINGS_OFFSET + SLOT * i, data);
    if j != i {
      assert Slot(now, j) == Slot(cells, j);
    }
  }

  /** A record written to an empty slot, or zeros to any, are what the slot then holds. */
  lemma SlotWritten(cells: seq<bv8>, slots: seq<State>, i: nat, s: State)
    requires Shows(cells, slots) && i < MAX_PAIRINGS && GoodState(s)
    requires s.Dead? || slots[i].Empty?
    ensures Shows(Programmed(cells, PAIRINGS_OFFSET + SLOT * i, Image(s)), slots[i := s])
  {
    hide Image, Programmed, Slot;
    var now := Programmed(cells, PAIRINGS_OFFSET + SLOT * i, Image(s));
    forall j | 0 <= j < MAX_PAIRINGS
      ensures Slot(now, j) == Image(slots[i := s][j])
    {
      SlotProgrammed(cells, i, Image(s), j);
      if j == i {
        AndImage(Slot(cells, i), slots[i], s, Slot(now, i));
      }
    }
  }

  lemma AndImage(was: seq<bv8>, t: State, s: State, now: seq<bv8>)
    requires GoodState(t) && GoodState(s) && was == Image(t) && (s.Dead? || t.Empty?) && |now| == SLOT
    requires forall k :: 0 <= k < SLOT ==> now[k] == was[k] & Image(s)[k]
    ensures now == Image(s)
  {
    hide Record;
    forall k | 0 <= k < SLOT
      ensures now[k] == Image(s)[k]
    {
      AndEnds(was[k], Image(s)[k]);
    }
  }

  lemma AndEnds(a: bv8, b: bv8)
    ensures a & 0 == 0 && ERASED & b == b
  {}
}
