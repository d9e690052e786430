/** The pairing store: an append log on one flash sector, with zeroed records and compaction, behaving as an
    ordered list. */
module PairingStore {
  import opened Flash
  import opened PairingSlots

  datatype Found = None | Some(slot: nat, pairing: Pairing)

  /** The sector with its slots; `slots` is what they stand for. */
  class Store {
    const chip: Chip
    ghost var slots: seq<State>

    ghost predicate Valid()
      reads this, chip, chip.cells
    {
      && chip.cells.Length >= SECTOR
      && chip.cells[..4] == MAGIC
      && Shows(chip.cells[..], slots)
      && Packed(slots)
    }

    /** The pairings in the order they were added. */
    ghost function List(): seq<Pairing>
      reads this
    {
      Listed(slots)
    }

    /** The accessory's id and key, between the magic and the slots. */
    ghost function Header(): seq<bv8>
      requires chip.cells.Length >= SECTOR
      reads chip, chip.cells
    {
      chip.cells[4..PAIRINGS_OFFSET]
    }

    constructor (chip: Chip)
      ensures this.chip == chip
    {
      this.chip := chip;
      slots := [];
    }

    /** Erases the sector and writes the magic. */
    method Reset()
      requires chip.cells.Length >= SECTOR
      modifies this, chip.cells
      ensures Valid() && List() == [] && forall s :: s in slots ==> s.Empty?
      ensures chip.cells[..] == Programmed(Wiped(old(chip.cells[..]), 0), 0, MAGIC)
    {
      hide Image, Slot;
      var erased := chip.EraseSector(0, false);
      var written := chip.Write(0, MAGIC, 4);
      slots := seq(MAX_PAIRINGS, _ => Empty);
      AfterReset(chip.cells[..]);
      NoneListed(slots);
    }

    /** Starts the store: a sector without the magic is reset. Only its first two characters are compared, and a
        sector that has them is left as it is, a store or not. */
    method Init()
      requires chip.cells.Length >= SECTOR
      modifies this, chip.cells
      ensures old(chip.cells[..2]) == MAGIC[..2] ==>
        slots == old(slots) && chip.cells[..] == old(chip.cells[..]) && (Valid() <==> old(Valid()))
      ensures old(chip.cells[..2]) != MAGIC[..2] ==> Valid() && List() == []
    {
      var magic := chip.cells[..4];
      TwoChars(magic);
      assert magic[..2] == chip.cells[..2];
      if !StrnEqual(magic, MAGIC, 2) {
        Reset();
      }
    }

    /** Reads a slot. */
    method Read(i: nat) returns (data: seq<bv8>)
      requires Valid() && i < MAX_PAIRINGS
      ensures data == Image(slots[i]) && |data| == SLOT
      ensures HasMagic(data) <==> slots[i].Live?
      ensures data == Repeated(ERASED, SLOT) <==> slots[i].Empty?
    {
      hide Image, HasMagic;
      data := chip.cells[PAIRINGS_OFFSET + SLOT * i..PAIRINGS_OFFSET + SLOT * (i + 1)];
      assert data == Slot(chip.cells[..], i);
      MagicMeansLive(slots[i]);
      ErasedMeansEmpty(slots[i]);
    }

    /** Writes a record to an empty slot, or zeros to any. */
    method Write(i: nat, ghost s: State, data: seq<bv8>)
      requires Valid() && i < MAX_PAIRINGS && GoodState(s) && data == Image(s)
      requires s.Dead? || slots[i].Empty?
      requires Packed(slots[i := s])
      modifies this, chip.cells
      ensures Valid() && slots == old(slots)[i := s] && Header() == old(Header())
    {
      hide Image, Slot, Packed;
      ghost var was := chip.cells[..];
      SlotWritten(was, slots, i, s);
      var written := chip.Write(PAIRINGS_OFFSET + SLOT * i, data, |data|);
      slots := slots[i := s];
      assert chip.cells[..4] == chip.cells[..][..4] == was[..4];
      assert chip.cells[4..PAIRINGS_OFFSET] == chip.cells[..][4..PAIRINGS_OFFSET] == was[4..PAIRINGS_OFFSET];
    }

    method CanAddPairing() returns (can: bool)
      requires Valid()
      ensures can <==> |List()| < MAX_PAIRINGS
    {
      hide Image, Slot;
      AllListed(slots);
      for i := 0 to MAX_PAIRINGS
        invariant forall j :: 0 <= j < i ==> slots[j].Live?
      {
        var data := Read(i);
        if !HasMagic(data) {
          return true;
        }
      }
      can := false;
    }

    /** The first slot with every byte erased; `MAX_PAIRINGS` if none. */
    method FindEmptyBlock() returns (i: nat)
      requires Valid()
      ensures i <= MAX_PAIRINGS && (i < MAX_PAIRINGS ==> slots[i].Empty?)
      ensures forall j :: 0 <= j < i ==> !slots[j].Empty?
    {
      hide Image, Slot;
      i := 0;
      while i < MAX_PAIRINGS
        invariant i <= MAX_PAIRINGS && forall j :: 0 <= j < i ==> !slots[j].Empty?
      {
        var data := Read(i);
        var blockEmpty := AllErased(data);
        if blockEmpty {
          return;
        }
        i := i + 1;
      }
    }

    method PairingCount() returns (count: nat)
      requires Valid()
      ensures count == |List()|
    {
      hide Image, Slot;
      count := 0;
      for i := 0 to MAX_PAIRINGS
        invariant count == |Listed(slots[..i])|
      {
        ListedAt(slots, i);
        var data := Read(i);
        if HasMagic(data) {
          count := count + 1;
        }
      }
      assert slots[..MAX_PAIRINGS] == slots;
    }

    /** The slot of the first pairing of a device; `MAX_PAIRINGS` if none. */
    method Search(id: seq<bv8>) returns (i: nat, pairing: Pairing)
      requires Valid() && GoodId(id)
      ensures i <= MAX_PAIRINGS && (i < MAX_PAIRINGS ==> slots[i] == Live(pairing) && pairing.id == id)
      ensures forall j :: 0 <= j < i ==> slots[j].Live? ==> slots[j].pairing.id != id
    {
      hide Image, Slot;
      i, pairing := 0, Pairing([], [], 0);
      while i < MAX_PAIRINGS
        invariant i <= MAX_PAIRINGS && forall j :: 0 <= j < i ==> slots[j].Live? ==> slots[j].pairing.id != id
      {
        var data := Read(i);
        if HasMagic(data) {
          RecordRead(chip.cells[..], slots, i);
          var deviceId := data[5..41];
          StrnEqualIds(deviceId, id);
          if StrnEqual(deviceId, id, 36) {
            pairing := Pairing(deviceId, data[41..73], data[4]);
            return;
          }
        }
        i := i + 1;
      }
    }

    /** Moves the pairings to the front of the sector, with a copy of it in memory. When all slots hold
        pairings nothing is done. */
    method Compact()
      requires Valid()
      modifies this, chip.cells
      ensures Valid() && List() == old(List()) && Header() == old(Header())
      ensures |List()| < MAX_PAIRINGS ==> slots[|List()|].Empty?
    {
      hide Image, Slot, Packed, Shows;
      ghost var list := List();
      var data := new bv8[SECTOR];
      forall i | 0 <= i < SECTOR {
        data[i] := chip.cells[i];
      }
      assert data[..] == chip.cells[..SECTOR];
      var next := Gather(data);
      if next == MAX_PAIRINGS {
        return;
      }
      assert data[..4] == chip.cells[..4] by {
        assert data[..4] == data[..PAIRINGS_OFFSET][..4] == chip.cells[..SECTOR][..4];
      }
      assert data[4..PAIRINGS_OFFSET] == Header() by {
        assert data[4..PAIRINGS_OFFSET] == data[..PAIRINGS_OFFSET][4..] == chip.cells[..SECTOR][4..PAIRINGS_OFFSET];
      }
      Rewrite(data, next, list);
    }

    /** Erases the sector and writes the copy's header and records back. */
    method Rewrite(data: array<bv8>, next: nat, ghost list: seq<Pairing>)
      requires Valid() && data.Length == SECTOR && data != chip.cells
      requires Gathered(data[..], list) && next == |list| < MAX_PAIRINGS && data[..4] == MAGIC
      modifies this, chip.cells
      ensures Valid() && List() == list && Header() == data[4..PAIRINGS_OFFSET]
      ensures slots[|list|].Empty?
    {
      hide Image, Slot, Packed, Shows, Gathered;
      Reset();
      ghost var reset := chip.cells[..];
      var written := chip.Write(0, data[..PAIRINGS_OFFSET + SLOT * next], SECTOR);
      slots := Compacted(list);
      CompactedList(list);
      assert data[..][..4] == data[..4];
      Rewritten(reset, data[..], list, chip.cells[..]);
      assert chip.cells[..4] == chip.cells[..][..PAIRINGS_OFFSET][..4] == data[..][..PAIRINGS_OFFSET][..4];
      assert Header() == chip.cells[..][..PAIRINGS_OFFSET][4..] == data[..][..PAIRINGS_OFFSET][4..];
    }

    /** The loop of the compaction: records move down to the first free place in the copy. */
    method Gather(data: array<bv8>) returns (next: nat)
      requires Valid() && data.Length == SECTOR && data[..] == chip.cells[..SECTOR]
      modifies data
      ensures next == |List()|
      ensures data[..PAIRINGS_OFFSET] == old(data[..PAIRINGS_OFFSET])
      ensures Gathered(data[..], List())
    {
      hide Image, Slot, Packed;
      next := 0;
      CopyShows(chip.cells[..], data[..], slots);
      for i := 0 to MAX_PAIRINGS
        invariant next == |Listed(slots[..i])| <= i
        invariant Gathered(data[..], Listed(slots[..i]))
        invariant forall k :: i <= k < MAX_PAIRINGS ==> GoodState(slots[k]) && Slot(data[..], k) == Image(slots[k])
        invariant data[..PAIRINGS_OFFSET] == old(data[..PAIRINGS_OFFSET])
      {
        ListedAt(slots, i);
        MagicMeansLive(slots[i]);
        var record := data[PAIRINGS_OFFSET + SLOT * i..PAIRINGS_OFFSET + SLOT * (i + 1)];
        assert record == Slot(data[..], i) by { SlotOf(data, i); }
        if HasMagic(record) {
          LiveRecord(slots[i]);
          CopySlot(data, i, next);
          next := next + 1;
        }
      }
      assert slots[..MAX_PAIRINGS] == slots;
    }

    /** Copies a record to another place, unless it is there already. */
    static method CopySlot(data: array<bv8>, from: nat, to: nat)
      requires data.Length == SECTOR && to <= from < MAX_PAIRINGS
      modifies data
      ensures Slot(data[..], to) == old(Slot(data[..], from))
      ensures forall k :: 0 <= k < MAX_PAIRINGS && k != to ==> Slot(data[..], k) == old(Slot(data[..], k))
      ensures data[..PAIRINGS_OFFSET] == old(data[..PAIRINGS_OFFSET])
    {
      if from != to {
        var a, b := PAIRINGS_OFFSET + SLOT * from, PAIRINGS_OFFSET + SLOT * to;
        for i := 0 to SLOT
          invariant forall j :: 0 <= j < SECTOR ==>
            data[j] == if b <= j < b + i then old(data[j - b + a]) else old(data[j])
        {
          data[b + i] := data[a + i];
        }
        ghost var was := old(data[..]);
        assert forall j :: 0 <= j < SECTOR ==> data[..][j] == CopiedByte(was, from, to, j);
        SlotCopied(was, data[..], from, to);
      }
    }

    /** Appends a pairing. With forty pairings it fails and changes nothing; otherwise there is a place for
        it, after a compaction if need be. */
    method AddPairing(p: Pairing) returns (r: int)
      requires Valid() && Good(p)
      modifies this, chip.cells
      ensures Valid() && Header() == old(Header())
      ensures r == if |old(List())| == MAX_PAIRINGS then -2 else 0
      ensures List() == if r == 0 then old(List()) + [p] else old(List())
    {
      hide Image, Slot, Shows, Record;
      var i := FindEmptyBlock();
      if i == MAX_PAIRINGS {
        Compact();
        i := FindEmptyBlock();
      }
      if i == MAX_PAIRINGS {
        assert |slots| == MAX_PAIRINGS by { ShowsAll(chip.cells[..], slots); }
        return -2;
      }
      var data := MAGIC + [p.permissions] + p.id + p.key + Repeated(0, 7);
      RecordImage(p);
      ShowsAll(chip.cells[..], slots);
      NotFullWithEmpty(slots, i);
      PutAtEnd(slots, i, p);
      PackedAfterPut(slots, i, Live(p));
      Write(i, Live(p), data);
      r := 0;
    }

    /** Takes the first pairing of a device out by zeroing its record. */
    method RemovePairing(id: seq<bv8>) returns (r: int)
      requires Valid() && GoodId(id)
      modifies this, chip.cells
      ensures Valid() && Header() == old(Header())
      ensures r == 0 && List() == Without(old(List()), IndexOf(old(List()), id))
    {
      hide Image, Slot, Shows;
      var i, pairing := Search(id);
      ShowsAll(chip.cells[..], slots);
      if i < MAX_PAIRINGS {
        TakenOut(slots, i, id);
        Kill(i);
      } else {
        NotListed(slots, id);
      }
      r := 0;
    }

    /** Zeroes the record of a pairing. */
    method Kill(i: nat)
      requires Valid() && i < MAX_PAIRINGS && slots[i].Live?
      modifies this, chip.cells
      ensures Valid() && Header() == old(Header()) && slots == old(slots)[i := Dead]
    {
      hide Slot, Shows, Packed;
      ShowsAll(chip.cells[..], slots);
      PackedAfterKill(slots, i);
      Write(i, Dead, Repeated(0, SLOT));
    }

    /** Changes the permissions of a device's first pairing, which moves it to the end of the list with the
        key given. With its permissions unchanged nothing changes, not even the key. */
    method UpdatePairing(id: seq<bv8>, key: seq<bv8>, permissions: bv8) returns (r: int)
      requires Valid() && GoodId(id) && |key| == 32
      modifies this, chip.cells
      ensures Valid() && Header() == old(Header())
      ensures
        var list := old(List());
        var k := IndexOf(list, id);
        && r == (if k == |list| then -1 else 0)
        && List() == if k == |list| || list[k].permissions == permissions then list
                     else Without(list, k) + [Pairing(id, key, permissions)]
    {
      hide Image, Slot, Shows;
      var i, pairing := Search(id);
      ShowsAll(chip.cells[..], slots);
      if i == MAX_PAIRINGS {
        NotListed(slots, id);
        return -1;
      }
      FoundIsFirst(slots, i, id);
      assert List()[|Listed(slots[..i])|] == pairing;
      if pairing.permissions != permissions {
        TakenOut(slots, i, id);
        OneLess(slots, i);
        Kill(i);
        r := AddPairing(Pairing(id, key, permissions));
      } else {
        r := 0;
      }
    }

    /** Keeps the first `lastKeep` pairings. */
    method RemoveExtraPairing(lastKeep: nat) returns (r: int)
      requires Valid()
      modifies this, chip.cells
      ensures Valid() && Header() == old(Header())
      ensures r == 0 && List() == if |old(List())| <= lastKeep then old(List()) else old(List())[..lastKeep]
    {
      Nothing(slots);
      hide Image, Slot, Shows, Listed, Packed;
      Init();
      ghost var was := slots;
      var count := 0;
      ShowsAll(chip.cells[..], slots);
      for i := 0 to MAX_PAIRINGS
        invariant Valid() && Header() == old(Header()) && |slots| == |was| == MAX_PAIRINGS
        invariant count == |Listed(was[..i])| && slots[i..] == was[i..]
        invariant Listed(slots[..i]) == if count <= lastKeep then Listed(was[..i]) else Listed(was[..i])[..lastKeep]
      {
        ListedAt(was, i);
        assert was[i] == was[i..][0] == slots[i..][0] == slots[i];
        var data := Read(i);
        ghost var before := slots;
        if HasMagic(data) {
          count := count + 1;
          if count > lastKeep {
            Kill(i);
          }
        }
        assert slots[i + 1..] == before[i..][1..] == was[i + 1..];
        assert slots[..i] == before[..i];
        ListedAt(slots, i);
      }
      assert slots[..MAX_PAIRINGS] == slots && was[..MAX_PAIRINGS] == was;
      r := 0;
    }

    /** The first pairing of a device. */
    method FindPairing(id: seq<bv8>) returns (found: Found)
      requires Valid() && GoodId(id)
      ensures
        var k := IndexOf(List(), id);
        if k == |List()| then found == None else found.Some? && found.pairing == List()[k]
    {
      hide Image, Slot, Shows;
      var i, pairing := Search(id);
      ShowsAll(chip.cells[..], slots);
      if i == MAX_PAIRINGS {
        NotListed(slots, id);
        return None;
      }
      FoundIsFirst(slots, i, id);
      assert List()[|Listed(slots[..i])|..][0] == pairing;
      found := Some(i, pairing);
    }

    /** The iterator's step: the next pairing from slot `idx` on, and where to go on. Steps from 0 on give
        the list in order, then nothing. */
    method NextPairing(idx: nat) returns (found: Found, next: nat)
      requires Valid() && idx <= MAX_PAIRINGS
      ensures idx <= next <= MAX_PAIRINGS
      ensures match found
              case None => Listed(slots[idx..]) == []
              case Some(slot, pairing) =>
                idx <= slot < next && Listed(slots[idx..]) == [pairing] + Listed(slots[next..])
    {
      hide Image, Slot;
      next := idx;
      while next < MAX_PAIRINGS
        invariant idx <= next <= MAX_PAIRINGS && Listed(slots[idx..]) == Listed(slots[next..])
      {
        var id := next;
        next := next + 1;
        assert slots[id..][1..] == slots[next..];
        var data := Read(id);
        if HasMagic(data) {
          RecordRead(chip.cells[..], slots, id);
          found := Some(id, Pairing(data[5..41], data[41..73], data[4]));
          return;
        }
      }
      found := None;
    }

    /** The loop over all pairings that the iterator is for. */
    method All() returns (list: seq<Pairing>)
      requires Valid()
      ensures list == List()
    {
      hide Image, Slot, Listed, Shows, Packed;
      ShowsAll(chip.cells[..], slots);
      list := [];
      var found, next := NextPairing(0);
      assert slots[0..] == slots;
      while found.Some?
        invariant next <= MAX_PAIRINGS
        invariant List() == list + match found
                                   case None => []
                                   case Some(_, pairing) => [pairing] + Listed(slots[next..])
        decreases MAX_PAIRINGS - next, found.Some?
      {
        list := list + [found.pairing];
        found, next := NextPairing(next);
      }
    }
  }

  lemma ShowsAll(cells: seq<bv8>, slots: seq<State>)
    requires Shows(cells, slots)
    ensures |slots| == MAX_PAIRINGS && forall i :: 0 <= i < |slots| ==> GoodState(slots[i])
  {}

  lemma Nothing(slots: seq<State>)
    ensures Listed(slots[..0]) == []
  {}

  lemma RecordImage(p: Pairing)
    requires Good(p)
    ensures Image(Live(p)) == MAGIC + [p.permissions] + p.id + p.key + Repeated(0, 7)
  {}

  lemma NotFullWithEmpty(slots: seq<State>, i: nat)
    requires i < |slots| && slots[i].Empty?
    ensures |Listed(slots)| < |slots|
  {
    AllListed(slots);
  }

  lemma PackedAfterPut(slots: seq<State>, i: nat, s: State)
    requires Packed(slots) && i < |slots| && !s.Empty? && forall j :: 0 <= j < i ==> !slots[j].Empty?
    ensures Packed(slots[i := s])
  {}

  lemma PackedAfterKill(slots: seq<State>, i: nat)
    requires Packed(slots) && i < |slots| && slots[i].Live?
    ensures Packed(slots[i := Dead])
  {
    var now := slots[i := Dead];
    forall j, k | 0 <= j <= k < |now| && now[j].Empty?
      ensures now[k].Empty?
    {
      assert slots[j].Empty? && slots[k].Empty?;
    }
  }

  lemma OneLess(slots: seq<State>, i: nat)
    requires i < |slots| && slots[i].Live?
    ensures |Listed(slots[i := Dead])| < |slots|
  {
    var now := slots[i := Dead];
    assert !now[i].Live?;
    AllListed(now);
  }

  /** The copy's first places hold the records of these pairings. */
  ghost predicate Gathered(data: seq<bv8>, list: seq<Pairing>) {
    && |data| >= SECTOR && |list| <= MAX_PAIRINGS
    && forall k :: 0 <= k < |list| ==> Good(list[k]) && Slot(data, k) == Record(list[k])
  }

  lemma SlotOf(data: array<bv8>, i: nat)
    requires data.Length >= SECTOR && i < MAX_PAIRINGS
    ensures data[PAIRINGS_OFFSET + SLOT * i..PAIRINGS_OFFSET + SLOT * (i + 1)] == Slot(data[..], i)
  {}

  lemma LiveRecord(s: State)
    requires GoodState(s) && s.Live?
    ensures Image(s) == Record(s.pairing)
  {}

  lemma CopyShows(cells: seq<bv8>, data: seq<bv8>, slots: seq<State>)
    requires Shows(cells, slots) && data == cells[..SECTOR]
    ensures forall k :: 0 <= k < MAX_PAIRINGS ==> GoodState(slots[k]) && Slot(data, k) == Image(slots[k])
  {
    hide Image;
    forall k | 0 <= k < MAX_PAIRINGS
      ensures Slot(data, k) == Slot(cells, k)
    {}
  }

  /** A byte of the sector after a record was copied. */
  function CopiedByte(was: seq<bv8>, from: nat, to: nat, j: nat): bv8
    requires |was| == SECTOR && to < MAX_PAIRINGS && from < MAX_PAIRINGS && j < SECTOR
  {
    if PAIRINGS_OFFSET + SLOT * to <= j < PAIRINGS_OFFSET + SLOT * (to + 1) then was[j - SLOT * to + SLOT * from]
    else was[j]
  }

  lemma SlotCopied(was: seq<bv8>, now: seq<bv8>, from: nat, to: nat)
    requires |was| == |now| == SECTOR && to < MAX_PAIRINGS && from < MAX_PAIRINGS
    requires forall j :: 0 <= j < SECTOR ==> now[j] == CopiedByte(was, from, to, j)
    ensures Slot(now, to) == Slot(was, from)
    ensures forall k :: 0 <= k < MAX_PAIRINGS && k != to ==> Slot(now, k) == Slot(was, k)
    ensures now[..PAIRINGS_OFFSET] == was[..PAIRINGS_OFFSET]
  {
    var b := PAIRINGS_OFFSET + SLOT * to;
    forall k | 0 <= k < MAX_PAIRINGS && k != to
      ensures Slot(now, k) == Slot(was, k)
    {
      var x, y, o := Slot(now, k), Slot(was, k), PAIRINGS_OFFSET + SLOT * k;
      forall m | 0 <= m < SLOT
        ensures x[m] == y[m]
      {
        assert o + m < b || b + SLOT <= o + m;
        assert now[o + m] == was[o + m];
      }
    }
    forall j | 0 <= j < PAIRINGS_OFFSET
      ensures now[j] == was[j]
    {}
  }

  /** The copy written back over a fresh sector: its header and its records, and nothing else. */
  lemma Rewritten(reset: seq<bv8>, data: seq<bv8>, list: seq<Pairing>, now: seq<bv8>)
    requires |reset| >= SECTOR == |data| && Gathered(data, list)
    requires data[..4] == MAGIC == reset[..4] && forall i :: 4 <= i < SECTOR ==> reset[i] == ERASED
    requires now == Programmed(reset, 0, data[..PAIRINGS_OFFSET + SLOT * |list|])
    ensures Shows(now, Compacted(list))
    ensures now[..PAIRINGS_OFFSET] == data[..PAIRINGS_OFFSET]
  {
    hide Image;
    var slots, used := Compacted(list), PAIRINGS_OFFSET + SLOT * |list|;
    forall i | 0 <= i < SECTOR
      ensures now[i] == if i < used then data[i] else ERASED
    {
      if i < 4 {
        assert reset[i] == reset[..4][i] == data[..4][i] == data[i];
      }
      AndSame(data[i]);
    }
    forall i | 0 <= i < MAX_PAIRINGS
      ensures GoodState(slots[i]) && Slot(now, i) == Image(slots[i])
    {
      if i < |list| {
        assert Slot(now, i) == Slot(data, i);
        LiveRecord(slots[i]);
      } else {
        EmptyImage();
        assert Slot(now, i) == Repeated(ERASED, SLOT);
      }
    }
  }

  lemma EmptyImage()
    ensures Image(Empty) == Repeated(ERASED, SLOT)
  {}

  lemma AndSame(b: bv8)
    ensures b & b == b && ERASED & b == b
  {}

  /** The slots after a compaction. */
  ghost function Compacted(list: seq<Pairing>): (slots: seq<State>)
    requires |list| <= MAX_PAIRINGS
    ensures |slots| == MAX_PAIRINGS
    ensures forall i :: 0 <= i < MAX_PAIRINGS ==> slots[i] == if i < |list| then Live(list[i]) else Empty
  {
    seq(MAX_PAIRINGS, i requires 0 <= i < MAX_PAIRINGS => if i < |list| then Live(list[i]) else Empty)
  }

  lemma CompactedList(list: seq<Pairing>)
    requires |list| <= MAX_PAIRINGS
    ensures Listed(Compacted(list)) == list && Packed(Compacted(list))
  {
    var slots := Compacted(list);
    var n := |list|;
    assert slots == slots[..n] + slots[n..];
    ListedSplit(slots[..n], slots[n..]);
    NoneListed(slots[n..]);
    LiveOnes(list, slots[..n]);
  }

  lemma {:induction false} LiveOnes(list: seq<Pairing>, slots: seq<State>)
    requires |list| == |slots| && forall i :: 0 <= i < |list| ==> slots[i] == Live(list[i])
    ensures Listed(slots) == list
  {
    if |list| > 0 {
      LiveOnes(list[1..], slots[1..]);
      assert list == [list[0]] + list[1..];
    }
  }

  method AllErased(data: seq<bv8>) returns (all: bool)
    ensures all <==> data == Repeated(ERASED, |data|)
  {
    for j := 0 to |data|
      invariant forall k :: 0 <= k < j ==> data[k] == ERASED
    {
      if data[j] != ERASED {
        return false;
      }
    }
    all := true;
  }

  lemma TwoChars(magic: seq<bv8>)
    requires |magic| == 4
    ensures StrnEqual(magic, MAGIC, 2) <==> magic[..2] == MAGIC[..2]
  {
    assert StrnEqual(magic[2..], MAGIC[2..], 0);
    assert magic[1..][1..] == magic[2..] && MAGIC[1..][1..] == MAGIC[2..];
    assert StrnEqual(magic[1..], MAGIC[1..], 1) <==> magic[1] == MAGIC[1];
    assert magic[..2] == [magic[0], magic[1]];
  }

  lemma AfterReset(cells: seq<bv8>)
    requires |cells| >= SECTOR && (forall i :: 4 <= i < SECTOR ==> cells[i] == ERASED)
    ensures Shows(cells, seq(MAX_PAIRINGS, _ => Empty))
  {
    var slots := seq(MAX_PAIRINGS, _ => Empty);
    forall i | 0 <= i < MAX_PAIRINGS
      ensures GoodState(slots[i]) && Slot(cells, i) == Image(slots[i])
    {
    }
  }

  lemma RecordRead(cells: seq<bv8>, slots: seq<State>, i: nat)
    requires Shows(cells, slots) && i < MAX_PAIRINGS && slots[i].Live?
    ensures
      var p, data := slots[i].pairing, Image(slots[i]);
      Good(p) && data[5..41] == p.id && data[41..73] == p.key && data[4] == p.permissions
  {
    RecordFields(slots[i].pairing);
  }
}
