/** The 1-Wire ROM search: which devices are on the bus, found with no more memory than the last address
    and one bit position. */
module OneWire {
  import opened OneWireTrie

  type Rom = r: seq<bv8> | |r| == 8 witness [0, 0, 0, 0, 0, 0, 0, 0]

  const ONEWIRE_NONE: bv64 := 0xFFFF_FFFF_FFFF_FFFF

  function Mask(k: nat): bv8
    requires k < 8
  {
    if k == 0 then 0x01 else if k == 1 then 0x02 else if k == 2 then 0x04 else if k == 3 then 0x08
    else if k == 4 then 0x10 else if k == 5 then 0x20 else if k == 6 then 0x40 else 0x80
  }

  predicate BitAt(b: bv8, k: nat)
    requires k < 8
  {
    b & Mask(k) != 0
  }

  /** The bits of an address in the order they go over the wire. */
  function BitsOf(rom: seq<bv8>): (b: Bits)
    requires |rom| == 8
    ensures |b| == 64
    ensures forall i :: 0 <= i < 64 ==> b[i] == BitAt(rom[i / 8], i % 8)
  {
    seq(64, i requires 0 <= i < 64 => BitAt(rom[i / 8], i % 8))
  }

  /** The bit of an address under a byte number and a mask. */
  lemma SavedBit(rom: seq<bv8>, i: nat)
    requires |rom| == 8 && i < 64
    ensures (rom[i / 8] & Mask(i % 8) > 0) == BitsOf(rom)[i]
  {
    Positive(rom[i / 8] & Mask(i % 8));
  }

  lemma Positive(b: bv8)
    ensures (b > 0) == (b != 0)
  {}

  lemma MaskShifts(k: nat)
    requires k < 8
    ensures Mask(k) << 1 == if k < 7 then Mask(k + 1) else 0
  {}

  lemma FirstMask()
    ensures Mask(0) == 0x01
  {}

  /** Shifting the mask out of its byte is moving on to the next one. */
  lemma NextPlace(i: nat, mask: bv8)
    requires i < 64 && mask == Mask(i % 8)
    ensures mask << 1 == 0 ==> (i + 1) / 8 == i / 8 + 1 && Mask((i + 1) % 8) == 0x01
    ensures mask << 1 != 0 ==> (i + 1) / 8 == i / 8 && Mask((i + 1) % 8) == mask << 1
  {
    hide Mask;
    MaskShifts(i % 8);
    if i % 8 < 7 {
      MaskNonzero((i + 1) % 8);
    } else {
      FirstMask();
    }
  }

  lemma MaskNonzero(k: nat)
    requires k < 8
    ensures Mask(k) != 0
  {}

  lemma MasksDisjoint(k: nat, j: nat)
    requires k < 8 && j < 8 && j != k
    ensures Mask(k) & Mask(j) == 0
  {}

  /** A byte with the bit `m` written. */
  function Written(b: bv8, m: bv8, on: bool): bv8 {
    if on then b | m else b & !m
  }

  lemma WrittenBit(b: bv8, m: bv8, o: bv8, on: bool)
    requires m != 0 && (o == m || m & o == 0)
    ensures (Written(b, m, on) & o != 0) == (if o == m then on else b & o != 0)
  {}

  lemma WrittenBitAt(b: bv8, k: nat, on: bool, j: nat)
    requires k < 8 && j < 8
    ensures BitAt(Written(b, Mask(k), on), j) == (if j == k then on else BitAt(b, j))
  {
    hide Mask, Written;
    MaskNonzero(k);
    MaskNonzero(j);
    if j != k {
      MasksDisjoint(k, j);
      DisjointDiffer(Mask(k), Mask(j));
    }
    WrittenBit(b, Mask(k), Mask(j), on);
  }

  lemma DisjointDiffer(m: bv8, o: bv8)
    requires m & o == 0 && m != 0
    ensures m != o
  {}

  /** Writing one bit of an address changes that bit and no other. */
  lemma WriteBitOf(rom: seq<bv8>, i: nat, on: bool)
    requires |rom| == 8 && i < 64
    ensures BitsOf(rom[i / 8 := Written(rom[i / 8], Mask(i % 8), on)]) == BitsOf(rom)[i := on]
  {
    var b, v := rom[i / 8], Written(rom[i / 8], Mask(i % 8), on);
    forall j | 0 <= j < 8
      ensures BitAt(v, j) == (if j == i % 8 then on else BitAt(b, j))
    {
      WrittenBitAt(b, i % 8, on, j);
    }
    ReplaceByte(rom, i, v, on);
  }

  lemma ReplaceByte(rom: seq<bv8>, i: nat, v: bv8, on: bool)
    requires |rom| == 8 && i < 64
    requires forall j :: 0 <= j < 8 ==> BitAt(v, j) == (if j == i % 8 then on else BitAt(rom[i / 8], j))
    ensures BitsOf(rom[i / 8 := v]) == BitsOf(rom)[i := on]
  {
    hide BitAt;
    var x, y := BitsOf(rom[i / 8 := v]), BitsOf(rom)[i := on];
    forall j | 0 <= j < |x|
      ensures x[j] == y[j]
    {
      if j / 8 == i / 8 && j % 8 == i % 8 {
        assert j == i;
      }
    }
  }

  lemma ByteFromBits(a: bv8, b: bv8)
    requires forall k :: 0 <= k < 8 ==> BitAt(a, k) == BitAt(b, k)
    ensures a == b
  {
    assert BitAt(a, 0) == BitAt(b, 0) && BitAt(a, 1) == BitAt(b, 1) && BitAt(a, 2) == BitAt(b, 2)
      && BitAt(a, 3) == BitAt(b, 3) && BitAt(a, 4) == BitAt(b, 4) && BitAt(a, 5) == BitAt(b, 5)
      && BitAt(a, 6) == BitAt(b, 6) && BitAt(a, 7) == BitAt(b, 7);
  }

  lemma RomFromBits(a: Rom, b: Rom)
    requires BitsOf(a) == BitsOf(b)
    ensures a == b
  {
    forall n | 0 <= n < 8
      ensures a[n] == b[n]
    {
      forall k | 0 <= k < 8
        ensures BitAt(a[n], k) == BitAt(b[n], k)
      {
        assert BitsOf(a)[8 * n + k] == BitsOf(b)[8 * n + k];
      }
      ByteFromBits(a[n], b[n]);
    }
  }

  /** The 64-bit address of a ROM: byte 0 is the lowest. */
  function Address(rom: Rom): bv64 {
    AddressFrom(rom, 0)
  }

  function AddressFrom(rom: Rom, n: nat): bv64
    requires n <= 8
    decreases 8 - n
  {
    if n == 8 then 0 else Shifted(AddressFrom(rom, n + 1), rom[n])
  }

  function Shifted(x: bv64, b: bv8): bv64 {
    (x << 8) | (b as bv64)
  }

  predicate TopClear(x: bv64) {
    x & !0xFF_FFFF_FFFF_FFFF == 0
  }

  /** The largest address of the bytes from `n` on. */
  function Bound(n: nat): bv64
    requires n <= 8
  {
    if n == 8 then 0 else if n == 7 then 0xFF else if n == 6 then 0xFFFF else if n == 5 then 0xFF_FFFF
    else if n == 4 then 0xFFFF_FFFF else if n == 3 then 0xFF_FFFF_FFFF else if n == 2 then 0xFFFF_FFFF_FFFF
    else if n == 1 then 0xFF_FFFF_FFFF_FFFF else 0xFFFF_FFFF_FFFF_FFFF
  }

  predicate Within(x: bv64, n: nat)
    requires n <= 8
  {
    x & !Bound(n) == 0
  }

  lemma ShiftedWithin(x: bv64, b: bv8, n: nat)
    requires n < 8 && Within(x, n + 1)
    ensures Within(Shifted(x, b), n)
  {}

  lemma WithinTopClear(x: bv64, n: nat)
    requires 1 <= n <= 8 && Within(x, n)
    ensures TopClear(x)
  {}

  lemma ShiftedParts(x: bv64, a: bv64)
    requires x & !0xFF_FFFF_FFFF_FFFF == 0 && a & !0xFF == 0
    ensures ((x << 8) | a) & 0xFF == a && ((x << 8) | a) >> 8 == x
  {}

  lemma Widened(a: bv8)
    ensures (a as bv64) & !0xFF == 0
  {}

  lemma WidenInjective(a: bv8, b: bv8)
    requires a as bv64 == b as bv64
    ensures a == b
  {}

  lemma ShiftedInjective(x: bv64, y: bv64, a: bv8, b: bv8)
    requires TopClear(x) && TopClear(y) && Shifted(x, a) == Shifted(y, b)
    ensures x == y && a == b
  {
    Widened(a);
    Widened(b);
    ShiftedParts(x, a as bv64);
    ShiftedParts(y, b as bv64);
    WidenInjective(a, b);
  }

  lemma {:induction false} AddressFromFits(rom: Rom, n: nat)
    requires n <= 8
    ensures Within(AddressFrom(rom, n), n)
    decreases 8 - n
  {
    if n < 8 {
      hide Shifted, Within;
      AddressFromFits(rom, n + 1);
      ShiftedWithin(AddressFrom(rom, n + 1), rom[n], n);
    }
  }

  lemma {:induction false} AddressFromInjective(a: Rom, b: Rom, n: nat)
    requires n <= 8 && AddressFrom(a, n) == AddressFrom(b, n)
    ensures a[n..] == b[n..]
    decreases 8 - n
  {
    hide Shifted, Within, TopClear;
    if n < 8 {
      AddressFromFits(a, n + 1);
      AddressFromFits(b, n + 1);
      WithinTopClear(AddressFrom(a, n + 1), n + 1);
      WithinTopClear(AddressFrom(b, n + 1), n + 1);
      ShiftedInjective(AddressFrom(a, n + 1), AddressFrom(b, n + 1), a[n], b[n]);
      AddressFromInjective(a, b, n + 1);
      assert a[n..] == [a[n]] + a[n + 1..];
    }
  }

  /** Different devices have different addresses. */
  lemma AddressInjective(a: Rom, b: Rom)
    requires Address(a) == Address(b)
    ensures a == b
  {
    AddressFromInjective(a, b, 0);
    assert a[0..] == a && b[0..] == b;
  }
}
