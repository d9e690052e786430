/** The 1-Wire ROM search over a noise-free wired-AND bus, against the order of the devices' bits. */
module OneWireSearch {
  import opened OneWireTrie
  import opened OneWire

  datatype Mode = Idle | Listening | Searching

  const SEARCH: bv8 := 0xF0

  /** The devices, as the bit strings the search walks. */
  function Names(devices: set<Rom>): (D: set<Bits>)
    ensures forall d :: d in devices ==> BitsOf(d) in D
    ensures Uniform(D, 64)
  {
    set d | d in devices :: BitsOf(d)
  }

  /** What the master reads when every device still addressed sends its next bit, or its complement:
      the line is high exactly if nobody pulls it low. */
  predicate LineHigh(devices: set<Rom>, path: Bits, complement: bool) {
    forall d :: d in devices && path < BitsOf(d) ==> BitsOf(d)[|path|] != complement
  }

  /** The bus with its devices. During a search a device drops out once a written bit is not its own. */
  class Bus {
    const devices: set<Rom>
    var mode: Mode
    var path: Bits
    var complement: bool

    constructor (devices: set<Rom>)
      ensures this.devices == devices
    {
      this.devices := devices;
      mode, path, complement := Idle, [], false;
    }

    method Reset() returns (present: bool)
      modifies this
      ensures mode == Listening && present == (devices != {})
    {
      mode := Listening;
      present := devices != {};
    }

    method Write(v: bv8)
      modifies this
      ensures old(mode) == Listening && v == SEARCH ==> mode == Searching && path == [] && !complement
      ensures old(mode) == Listening && v != SEARCH ==> mode == Idle
    {
      if mode == Listening && v == SEARCH {
        mode, path, complement := Searching, [], false;
      } else {
        mode := Idle;
      }
    }

    method ReadBit() returns (high: bool)
      modifies this
      ensures mode == old(mode) && path == old(path)
      ensures mode == Searching ==> high == LineHigh(devices, path, old(complement))
      ensures mode == Searching ==> complement == !old(complement)
    {
      high := mode == Searching ==> LineHigh(devices, path, complement);
      if mode == Searching {
        complement := !complement;
      }
    }

    method WriteBit(v: bool)
      modifies this
      ensures mode == old(mode)
      ensures mode == Searching ==> path == old(path) + [v] && !complement
    {
      if mode == Searching {
        path, complement := path + [v], false;
      }
    }
  }

  /** The line is high exactly if no device has the other bit next. */
  lemma LineShowsSides(devices: set<Rom>, path: Bits, complement: bool)
    requires |path| < 64
    ensures LineHigh(devices, path, complement) == !Occurs(Names(devices), path + [complement])
  {
    hide BitsOf;
    var D := Names(devices);
    if !LineHigh(devices, path, complement) {
      var d :| d in devices && path < BitsOf(d) && BitsOf(d)[|path|] == complement;
      assert path + [complement] <= BitsOf(d);
    }
    if Occurs(D, path + [complement]) {
      var b :| b in D && path + [complement] <= b;
      var d :| d in devices && BitsOf(d) == b;
      assert path <= path + [complement] && b[|path|] == (path + [complement])[|path|];
    }
  }

  /** Which side the search takes below a path, given the sides that occur, the bits of the last address
      and the last place where it took the clear side. */
  function Choice(zero: bool, one: bool, i: nat, last: nat, before: bool): bool {
    if !zero || !one then one else if i + 1 < last then before else i + 1 == last
  }

  /** `p` repeats the last address up to the last clear fork, sets the bit there, and from then on goes to
      the set side only where it has to. */
  predicate Guided(D: set<Bits>, last: Bits, k: nat, p: Bits) {
    && k <= |last|
    && (k > 0 && |p| < k ==> p == last[..|p|])
    && (k > 0 && |p| >= k ==> last[..k - 1] + [true] <= p)
    && forall j :: k <= j < |p| && p[j] ==> !Occurs(D, p[..j] + [false])
  }

  predicate Memory(D: set<Bits>, last: Bits, k: nat) {
    |last| == 64 && k <= 64 && (k > 0 ==> last in D && k == LastZero(D, last, 64))
  }

  lemma SideOccurs(D: set<Bits>, p: Bits)
    requires Uniform(D, 64) && Occurs(D, p) && |p| < 64
    ensures Occurs(D, p + [false]) || Occurs(D, p + [true])
  {
    var d :| d in D && p <= d;
    if d[|p|] {
      assert p + [true] <= d;
    } else {
      assert p + [false] <= d;
    }
  }

  /** The side picked occurs, and is the side of the last address above its last clear fork. */
  lemma ChoiceOccurs(D: set<Bits>, last: Bits, k: nat, p: Bits, b: bool)
    requires Uniform(D, 64) && Memory(D, last, k) && Occurs(D, p) && |p| < 64
    requires |p| < k ==> p == last[..|p|]
    requires b == Choice(Occurs(D, p + [false]), Occurs(D, p + [true]), |p|, k, last[|p|])
    ensures Occurs(D, p + [b])
    ensures |p| + 1 < k ==> b == last[|p|]
    ensures |p| + 1 == k ==> b
    ensures |p| + 1 > k && b ==> !Occurs(D, p + [false])
  {
    hide LastZero;
    SideOccurs(D, p);
    if |p| + 1 < k {
      assert p + [last[|p|]] == last[..|p| + 1];
    } else if |p| + 1 == k {
      assert Forks(D, last[..k - 1]);
    }
  }

  lemma GuidedStep(D: set<Bits>, last: Bits, k: nat, p: Bits, b: bool)
    requires Uniform(D, 64) && Memory(D, last, k) && Guided(D, last, k, p) && Occurs(D, p) && |p| < 64
    requires b == Choice(Occurs(D, p + [false]), Occurs(D, p + [true]), |p|, k, last[|p|])
    ensures Guided(D, last, k, p + [b]) && Occurs(D, p + [b])
  {
    hide LastZero, Occurs, Choice;
    ChoiceOccurs(D, last, k, p, b);
    var q := p + [b];
    if |p| + 1 < k {
      assert q == last[..|p| + 1];
    }
    forall j | k <= j < |q| && q[j]
      ensures !Occurs(D, q[..j] + [false])
    {
      assert q[..j] == p[..j];
      if j == |p| {
        assert p[..j] == p;
      }
    }
  }

  /** A guided path to the end is the first device, or the one right after the last. */
  lemma GuidedEnds(D: set<Bits>, last: Bits, k: nat, p: Bits)
    requires Uniform(D, 64) && Memory(D, last, k) && Guided(D, last, k, p) && Occurs(D, p) && |p| == 64
    ensures p in D
    ensures if k == 0 then First(D, p) else Follows(D, last, p)
  {
    hide LastZero, Forks, Before;
    var d :| d in D && p <= d;
    assert p == d;
    LeastFromChoices(D, 64, p, k);
    if k > 0 {
      assert p[..k] == last[..k - 1] + [true];
      LeastAfterForkFollows(D, 64, last, p);
    } else {
      assert p[..0] == [];
      forall e | e in D
        ensures e == p || Before(p, e)
      {
        assert [] <= e;
      }
    }
  }

  /** What one more bit does to the walk: the path stays guided and the last clear fork is kept up to date. */
  lemma WalkGoesOn(D: set<Bits>, last: Bits, k: nat, r: Bits, p: Bits, q: Bits, s: Bits)
    requires Uniform(D, 64) && Memory(D, last, k) && Guided(D, last, k, p) && Occurs(D, p)
    requires |p| < 64 && |r| == 64 && p == r[..|p|] && r[|p|..] == last[|p|..]
    requires
      var b := Choice(Occurs(D, p + [false]), Occurs(D, p + [true]), |p|, k, r[|p|]);
      q == p + [b] && s == r[|p| := b]
    ensures Occurs(D, q) && Guided(D, last, k, q)
    ensures |s| == 64 && q == s[..|q|] && s[|q|..] == last[|q|..]
    ensures LastZero(D, s, |q|) == if Forks(D, p) && !q[|p|] then |q| else LastZero(D, r, |p|)
  {
    hide LastZero, Guided, Occurs;
    assert r[|p|] == r[|p|..][0] == last[|p|..][0] == last[|p|];
    GuidedStep(D, last, k, p, q[|p|]);
    assert s[|q|..] == r[|p|..][1..] == last[|p|..][1..] == last[|q|..];
    LastZeroStep(D, r, s, |p|);
  }

  lemma LastZeroStep(D: set<Bits>, r: Bits, s: Bits, k: nat)
    requires k < |r| == |s| && s[..k] == r[..k]
    ensures LastZero(D, s, k + 1) == if Forks(D, r[..k]) && !s[k] then k + 1 else LastZero(D, r, k)
  {
    hide Forks;
    LastZeroPrefix(D, r, s, k);
  }

  lemma WalkStarts(devices: set<Rom>, last: Bits, k: nat)
    requires devices != {} && Memory(Names(devices), last, k)
    ensures Occurs(Names(devices), []) && Guided(Names(devices), last, k, [])
    ensures LastZero(Names(devices), last, 0) == 0
  {
    hide BitsOf;
    var d :| d in devices;
    assert [] <= BitsOf(d);
  }

  /** The search's own memory: the last address, the last place it took the clear side of a fork, and
      whether that was nowhere. */
  class Search {
    const rom: array<bv8>
    var lastDiscrepancy: nat
    var lastDeviceFound: bool

    ghost predicate Valid()
      reads this
    {
      rom.Length == 8 && lastDiscrepancy <= 64
    }

    ghost function Last(): (b: Bits)
      requires rom.Length == 8
      reads rom
      ensures |b| == 64
    {
      BitsOf(rom[..])
    }

    /** Nothing found yet, or everything reported. */
    predicate AtStart()
      reads this
    {
      lastDiscrepancy == 0 && !lastDeviceFound
    }

    /** The last call returned a device of the bus. */
    ghost predicate AfterDevice(D: set<Bits>)
      reads this, rom
    {
      && Valid()
      && Last() in D
      && lastDiscrepancy == LastZero(D, Last(), 64)
      && lastDeviceFound == (lastDiscrepancy == 0)
    }

    constructor ()
      ensures Valid() && fresh(rom) && AtStart()
    {
      rom := new bv8[8](_ => 0);
      lastDiscrepancy, lastDeviceFound := 0, false;
    }

    method Start()
      requires Valid()
      modifies this, rom
      ensures Valid() && AtStart() && forall i :: 0 <= i < 8 ==> rom[i] == 0
    {
      for i := 0 to 8
        invariant Valid() && forall j :: 0 <= j < i ==> rom[j] == 0
      {
        rom[i] := 0;
      }
      lastDiscrepancy, lastDeviceFound := 0, false;
    }

    /** One bit of the walk: reads both sides, picks one, records it and tells the bus. */
    method Fork(bus: Bus, byteNumber: nat, mask: bv8, idBitNumber: nat, lastZero: nat)
      returns (ok: bool, zero: nat)
      requires Valid() && bus.mode == Searching && !bus.complement && |bus.path| < 64
      requires byteNumber == |bus.path| / 8 && mask == Mask(|bus.path| % 8) && idBitNumber == |bus.path| + 1
      requires Uniform(Names(bus.devices), 64)
      modifies rom, bus
      ensures ok == (Occurs(Names(bus.devices), old(bus.path) + [false]) ||
                     Occurs(Names(bus.devices), old(bus.path) + [true]))
      ensures ok ==> bus.mode == Searching && !bus.complement
      ensures !ok ==> rom[..] == old(rom[..])
      ensures ok ==>
        var D, p := Names(bus.devices), old(bus.path);
        var b := Choice(Occurs(D, p + [false]), Occurs(D, p + [true]), |p|, lastDiscrepancy, old(Last())[|p|]);
        && bus.path == p + [b]
        && Last() == old(Last())[|p| := b]
        && zero == (if Forks(D, p) && !b then |p| + 1 else lastZero)
    {
      hide BitsOf, Mask, LineHigh, Occurs, Written;
      ghost var p, D := bus.path, Names(bus.devices);
      LineShowsSides(bus.devices, p, false);
      LineShowsSides(bus.devices, p, true);
      zero := lastZero;
      var idBit := bus.ReadBit();
      var cmpIdBit := bus.ReadBit();
      if idBit && cmpIdBit {
        return false, zero;
      }
      var direction;
      if idBit != cmpIdBit {
        direction := idBit;
      } else {
        direction := AtDiscrepancy(byteNumber, mask, idBitNumber);
        if !direction {
          zero := idBitNumber;
        }
      }
      Take(bus, byteNumber, mask, direction);
      ok := true;
    }

    /** The side at a fork: as the last time before the last discrepancy, set there, clear after it. */
    method AtDiscrepancy(byteNumber: nat, mask: bv8, idBitNumber: nat) returns (direction: bool)
      requires Valid() && 1 <= idBitNumber <= 64
      requires byteNumber == (idBitNumber - 1) / 8 && mask == Mask((idBitNumber - 1) % 8)
      ensures direction == Choice(true, true, idBitNumber - 1, lastDiscrepancy, Last()[idBitNumber - 1])
    {
      hide BitsOf, Mask;
      if idBitNumber < lastDiscrepancy {
        SavedBit(rom[..], idBitNumber - 1);
        direction := rom[byteNumber] & mask > 0;
      } else {
        direction := idBitNumber == lastDiscrepancy;
      }
    }

    /** Records the side taken and tells the bus. */
    method Take(bus: Bus, byteNumber: nat, mask: bv8, direction: bool)
      requires Valid() && bus.mode == Searching && |bus.path| < 64
      requires byteNumber == |bus.path| / 8 && mask == Mask(|bus.path| % 8)
      modifies rom, bus
      ensures bus.mode == Searching && !bus.complement && bus.path == old(bus.path) + [direction]
      ensures Last() == old(Last())[|old(bus.path)| := direction]
    {
      hide BitsOf, Mask, Written;
      ghost var was, i := rom[..], |bus.path|;
      WriteBitOf(rom[..], i, direction);
      rom[byteNumber] := Written(rom[byteNumber], mask, direction);
      assert rom[..] == was[i / 8 := Written(was[i / 8], mask, direction)];
      bus.WriteBit(direction);
    }

    /** The loop over the 64 bits. */
    method Walk(bus: Bus) returns (idBitNumber: nat, lastZero: nat)
      requires Valid() && bus.mode == Searching && bus.path == [] && !bus.complement
      requires bus.devices != {} && Memory(Names(bus.devices), Last(), lastDiscrepancy)
      modifies rom, bus
      ensures idBitNumber == 65
      ensures Last() in Names(bus.devices) && lastZero == LastZero(Names(bus.devices), Last(), 64)
      ensures if lastDiscrepancy == 0 then First(Names(bus.devices), Last())
              else Follows(Names(bus.devices), old(Last()), Last())
    {
      hide BitsOf, Mask, LineHigh, Occurs, Written, LastZero, Guided, Before;
      ghost var D, last := Names(bus.devices), Last();
      idBitNumber, lastZero := 1, 0;
      var byteNumber, mask := 0, 0x01;
      WalkStarts(bus.devices, last, lastDiscrepancy);
      FirstMask();
      while byteNumber < 8
        invariant Valid() && bus.mode == Searching && !bus.complement
        invariant |bus.path| == idBitNumber - 1 <= 64 && byteNumber == |bus.path| / 8
        invariant mask == Mask(|bus.path| % 8)
        invariant bus.path == Last()[..|bus.path|] && Last()[|bus.path|..] == last[|bus.path|..]
        invariant Occurs(D, bus.path) && Guided(D, last, lastDiscrepancy, bus.path)
        invariant lastZero == LastZero(D, Last(), |bus.path|)
        decreases 64 - |bus.path|
      {
        ghost var p, r := bus.path, Last();
        SideOccurs(D, p);
        var ok;
        ok, lastZero := Fork(bus, byteNumber, mask, idBitNumber, lastZero);
        if !ok {
          break;
        }
        WalkGoesOn(D, last, lastDiscrepancy, r, p, bus.path, Last());
        idBitNumber := idBitNumber + 1;
        NextPlace(idBitNumber - 2, mask);
        mask := mask << 1;
        if mask == 0 {
          byteNumber, mask := byteNumber + 1, 0x01;
        }
      }
      assert bus.path == Last();
      GuidedEnds(D, last, lastDiscrepancy, bus.path);
    }

    /** Puts the eight bytes together, the first lowest. */
    method Collect() returns (addr: bv64)
      requires Valid()
      ensures addr == Address(rom[..])
    {
      hide Shifted;
      addr := 0;
      for n := 8 downto 0
        invariant addr == AddressFrom(rom[..], n)
      {
        addr := Shifted(addr, rom[n]);
      }
    }

    /** The next device in the order of the addresses' bits, lowest first; `ONEWIRE_NONE` once after the
        last. A device whose family byte is zero is taken for no device. */
    method Next(bus: Bus) returns (addr: bv64)
      requires Valid() && (AtStart() || AfterDevice(Names(bus.devices)))
      modifies this, rom, bus
      ensures Valid()
      ensures old(lastDeviceFound) || bus.devices == {} ==> addr == ONEWIRE_NONE && AtStart()
      ensures !old(lastDeviceFound) && bus.devices != {} ==>
        if old(AtStart()) then First(Names(bus.devices), Last())
        else Follows(Names(bus.devices), old(Last()), Last())
      ensures !old(lastDeviceFound) && bus.devices != {} ==>
        if rom[0] == 0 then addr == ONEWIRE_NONE && AtStart()
        else addr == Address(rom[..]) && AfterDevice(Names(bus.devices))
    {
      hide BitsOf, LastZero, Before;
      var searchResult := false;
      if !lastDeviceFound {
        var present := bus.Reset();
        if !present {
          lastDiscrepancy, lastDeviceFound := 0, false;
          return ONEWIRE_NONE;
        }
        bus.Write(SEARCH);
        var idBitNumber, lastZero := Walk(bus);
        if !(idBitNumber < 65) {
          lastDiscrepancy := lastZero;
          if lastDiscrepancy == 0 {
            lastDeviceFound := true;
          }
          searchResult := true;
        }
      }
      if !searchResult || rom[0] == 0 {
        lastDiscrepancy, lastDeviceFound := 0, false;
        return ONEWIRE_NONE;
      }
      addr := Collect();
    }
  }

  const ALL_ONES: Rom := [0xFF, 0xFF, 0xFF, 0xFF, 0xFF, 0xFF, 0xFF, 0xFF]

  const DS18B20_FAMILY_ID: bv8 := 0x28
  const DS18S20_FAMILY_ID: bv8 := 0x10

  /** An address the search can report: neither taken for no device nor equal to `ONEWIRE_NONE`. */
  predicate Reportable(rom: Rom) {
    rom[0] != 0 && rom != ALL_ONES
  }

  lemma OnlyAllOnesIsNone(rom: Rom)
    ensures Address(rom) == ONEWIRE_NONE <==> rom == ALL_ONES
  {
    AllOnesIsNone();
    if Address(rom) == ONEWIRE_NONE {
      AddressInjective(rom, ALL_ONES);
    }
  }

  lemma AllOnesIsNone()
    ensures Address(ALL_ONES) == ONEWIRE_NONE
  {
    var r := ALL_ONES;
    assert AddressFrom(r, 7) == 0xFF by { assert AddressFrom(r, 8) == 0; }
    assert AddressFrom(r, 6) == 0xFFFF;
    assert AddressFrom(r, 5) == 0xFF_FFFF;
    assert AddressFrom(r, 4) == 0xFFFF_FFFF;
    assert AddressFrom(r, 3) == 0xFF_FFFF_FFFF;
    assert AddressFrom(r, 2) == 0xFFFF_FFFF_FFFF;
    assert AddressFrom(r, 1) == 0xFF_FFFF_FFFF_FFFF;
  }

  /** The family is in the first eight bits, so devices with a zero family byte come before all others. */
  lemma ZeroFamilyFirst(a: Rom, b: Rom)
    requires a[0] == 0 && b[0] != 0
    ensures Before(BitsOf(a), BitsOf(b))
  {
    var k := LowestSet(b[0]);
    var x, y := BitsOf(a), BitsOf(b);
    forall j | 0 <= j < 8
      ensures !x[j]
    {
      assert x[j] == BitAt(a[0], j);
    }
    assert forall j :: 0 <= j < k ==> y[j] == BitAt(b[0], j);
    assert x[..k] == y[..k];
    assert PartsAt(x, y, k);
  }

  lemma LowestSet(b: bv8) returns (k: nat)
    requires b != 0
    ensures k < 8 && BitAt(b, k) && forall j :: 0 <= j < k ==> !BitAt(b, j)
  {
    hide BitAt;
    k := 0;
    while k < 8 && !BitAt(b, k)
      invariant k <= 8 && forall j :: 0 <= j < k ==> !BitAt(b, j)
    {
      k := k + 1;
    }
    if k == 8 {
      forall j | 0 <= j < 8
        ensures BitAt(b, j) == BitAt(0, j)
      {
        ZeroHasNoBits(j);
      }
      ByteFromBits(b, 0);
    }
  }

  lemma ZeroHasNoBits(k: nat)
    requires k < 8
    ensures !BitAt(0, k)
  {}

  /** One device with a zero family byte hides every device: the first address found is such a one, whatever
      else is on the bus, and it is not reported. */
  lemma ZeroFamilyHidesAll(devices: set<Rom>, zero: Rom, first: Rom)
    requires zero in devices && zero[0] == 0 && First(Names(devices), BitsOf(first))
    ensures first[0] == 0
  {
    hide BitsOf, Before;
    if first[0] != 0 {
      ZeroFamilyFirst(zero, first);
      NotBothBefore(BitsOf(zero), BitsOf(first));
    }
  }

  /** `all` is an initial part of the devices in order. */
  ghost predicate Walked(devices: set<Rom>, all: seq<Rom>) {
    && (forall i :: 0 <= i < |all| ==> all[i] in devices)
    && (forall i, j :: 0 <= i < j < |all| ==> Before(BitsOf(all[i]), BitsOf(all[j])))
    && (forall d, i :: d in devices && d !in all && 0 <= i < |all| ==> Before(BitsOf(all[i]), BitsOf(d)))
  }

  lemma NameOf(devices: set<Rom>, rom: Rom)
    requires BitsOf(rom) in Names(devices)
    ensures rom in devices
  {
    hide BitsOf;
    var d :| d in devices && BitsOf(d) == BitsOf(rom);
    RomFromBits(d, rom);
  }

  lemma WalkedFirst(devices: set<Rom>, r: Rom)
    requires First(Names(devices), BitsOf(r))
    ensures Walked(devices, [r])
  {
    hide BitsOf, Before;
    NameOf(devices, r);
    forall d | d in devices && d != r
      ensures Before(BitsOf(r), BitsOf(d))
    {
      if BitsOf(d) == BitsOf(r) {
        RomFromBits(d, r);
      }
    }
  }

  lemma WalkedNext(devices: set<Rom>, all: seq<Rom>, r: Rom)
    requires Walked(devices, all) && |all| > 0
    requires Follows(Names(devices), BitsOf(all[|all| - 1]), BitsOf(r))
    ensures Walked(devices, all + [r])
  {
    hide BitsOf, Before;
    NameOf(devices, r);
    var last := all[|all| - 1];
    forall i | 0 <= i < |all|
      ensures Before(BitsOf(all[i]), BitsOf(r))
    {
      if i < |all| - 1 {
        BeforeTrans(BitsOf(all[i]), BitsOf(last), BitsOf(r));
      }
    }
    forall d | d in devices && d !in all + [r]
      ensures Before(BitsOf(r), BitsOf(d))
    {
      assert Before(BitsOf(last), BitsOf(d));
      if BitsOf(d) == BitsOf(r) {
        RomFromBits(d, r);
      }
    }
    WalkedGrows(devices, all, r);
  }

  lemma WalkedGrows(devices: set<Rom>, all: seq<Rom>, r: Rom)
    requires Walked(devices, all) && r in devices
    requires forall i :: 0 <= i < |all| ==> Before(BitsOf(all[i]), BitsOf(r))
    requires forall d :: d in devices && d !in all + [r] ==> Before(BitsOf(r), BitsOf(d))
    ensures Walked(devices, all + [r])
  {
    hide BitsOf, Before;
    var more := all + [r];
    assert forall d :: d in devices && d !in more ==> d !in all by {
      assert forall d :: d in all ==> d in more;
    }
  }

  /** Once nothing comes after the last one, all devices were walked. */
  lemma WalkedAll(devices: set<Rom>, all: seq<Rom>)
    requires Walked(devices, all)
    requires if |all| == 0 then devices == {} else Last(Names(devices), BitsOf(all[|all| - 1]))
    ensures (set d | d in all) == devices && |all| == |devices|
  {
    hide BitsOf, Before;
    forall d | d in devices
      ensures d in all
    {
      assert |all| == 0 || BitsOf(all[|all| - 1]) in Names(devices);
    }
    WalkedOnce(devices, all);
  }

  /** No device is walked twice. */
  lemma {:induction false} WalkedOnce(devices: set<Rom>, all: seq<Rom>)
    requires Walked(devices, all)
    ensures |all| == |set d | d in all| <= |devices|
  {
    hide BitsOf, Before;
    Distinct(all);
    var s := set d | d in all;
    assert s <= devices;
    Subset(s, devices);
  }

  lemma {:induction false} Distinct(all: seq<Rom>)
    requires forall i, j :: 0 <= i < j < |all| ==> Before(BitsOf(all[i]), BitsOf(all[j]))
    ensures |set d | d in all| == |all|
  {
    hide BitsOf, Before;
    if |all| > 0 {
      var n := |all| - 1;
      var rest := all[..n];
      Distinct(rest);
      if all[n] in rest {
        var i :| 0 <= i < n && rest[i] == all[n];
        NotBothBefore(BitsOf(all[i]), BitsOf(all[n]));
      }
      assert (set d | d in all) == (set d | d in rest) + {all[n]};
    } else {
      assert (set d | d in all) == {};
    }
  }

  lemma {:induction false} Subset(s: set<Rom>, t: set<Rom>)
    requires s <= t
    ensures |s| <= |t|
  {
    if s != {} {
      var d :| d in s;
      Subset(s - {d}, t - {d});
    }
  }

  /** The temperature sensors among the devices. */
  function Sensors(all: seq<Rom>): (r: seq<Rom>) {
    if |all| == 0 then []
    else
      var rest, d := Sensors(all[..|all| - 1]), all[|all| - 1];
      if d[0] == DS18B20_FAMILY_ID || d[0] == DS18S20_FAMILY_ID then rest + [d] else rest
  }

  /** The list holds the addresses as far as it goes, and what it held before in the rest. */
  predicate Listed(now: seq<bv64>, was: seq<bv64>, ours: seq<Rom>) {
    && |now| == |was|
    && forall i :: 0 <= i < |now| ==> now[i] == if i < |ours| then Address(ours[i]) else was[i]
  }

  lemma FamilyByte(rom: Rom)
    ensures Address(rom) & 0xFF == rom[0] as bv64
  {
    AddressFromFits(rom, 1);
    WithinTopClear(AddressFrom(rom, 1), 1);
    Widened(rom[0]);
    ShiftedParts(AddressFrom(rom, 1), rom[0] as bv64);
  }

  /** Counts a device if it is a sensor, and stores it while there is room. */
  method Record(list: array<bv64>, addr: bv64, found: nat, ghost was: seq<bv64>, ghost all: seq<Rom>, ghost r: Rom)
    returns (more: nat)
    requires addr == Address(r) && found == |Sensors(all)|
    requires Listed(list[..], was, Sensors(all))
    modifies list
    ensures more == |Sensors(all + [r])|
    ensures Listed(list[..], was, Sensors(all + [r]))
  {
    hide Address;
    FamilyByte(r);
    var family := (addr & 0xFF) as bv8;
    WidenInjective(family, r[0]);
    assert (all + [r])[..|all|] == all;
    more := found;
    if family == DS18B20_FAMILY_ID || family == DS18S20_FAMILY_ID {
      if found < list.Length {
        list[found] := addr;
      }
      more := found + 1;
    }
  }

  /** The all-ones address comes after every other. */
  lemma AllOnesLast(d: Rom)
    requires d != ALL_ONES
    ensures Before(BitsOf(d), BitsOf(ALL_ONES))
  {
    hide BitsOf;
    var x, y := BitsOf(d), BitsOf(ALL_ONES);
    OnesAreSet();
    if x == y {
      RomFromBits(d, ALL_ONES);
    } else {
      var i := Part(x, y);
    }
  }

  lemma OnesAreSet()
    ensures forall i :: 0 <= i < 64 ==> BitsOf(ALL_ONES)[i]
  {
    forall i | 0 <= i < 64
      ensures BitsOf(ALL_ONES)[i]
    {
      assert ALL_ONES[i / 8] == 0xFF;
      OnesBit(i % 8);
    }
  }

  lemma OnesBit(k: nat)
    requires k < 8
    ensures BitAt(0xFF, k)
  {}

  predicate NoZeroFamily(devices: set<Rom>) {
    forall d: Rom :: d in devices ==> d[0] != 0
  }

  /** The devices that a scan comes to see: none if one has a zero family byte, and never the one of all ones. */
  function Visible(devices: set<Rom>): set<Rom> {
    if NoZeroFamily(devices) then devices - {ALL_ONES} else {}
  }

  predicate AllReportable(all: seq<Rom>) {
    forall i :: 0 <= i < |all| ==> Reportable(all[i])
  }

  /** Between two steps of the scan: `all` are the devices visited, `addr` is the next or none are left to see. */
  ghost predicate Standing(search: Search, devices: set<Rom>, all: seq<Rom>, addr: bv64)
    reads search, search.rom
  {
    && search.Valid()
    && Walked(devices, all) && AllReportable(all)
    && if addr == ONEWIRE_NONE then (set d | d in all) == Visible(devices)
       else search.AfterDevice(Names(devices)) && addr == Address(search.rom[..])
            && Walked(devices, all + [search.rom[..]]) && Reportable(search.rom[..]) && NoZeroFamily(devices)
  }

  /** Lists the temperature sensors: the devices visited are visited once, in order; the sensors among them are
      counted, and the first of them stored as far as the list goes. All devices are visited exactly if each has an
      address that can be reported. */
  method ScanDevices(bus: Bus, list: array<bv64>) returns (found: nat, ghost all: seq<Rom>)
    modifies bus, list
    ensures Walked(bus.devices, all) && (set d | d in all) == Visible(bus.devices) && |all| == |Visible(bus.devices)|
    ensures (set d | d in all) == bus.devices <==> forall d :: d in bus.devices ==> Reportable(d)
    ensures found == |Sensors(all)|
    ensures Listed(list[..], old(list[..]), Sensors(all))
  {
    assert Walked(bus.devices, []);
    hide BitsOf, Before, Walked, Names, LastZero, Address;
    ghost var was := list[..];
    var search := new Search();
    found, all := 0, [];
    search.Start();
    var addr := Advance(search, bus, all);
    while addr != ONEWIRE_NONE
      invariant fresh(search) && fresh(search.rom)
      invariant Standing(search, bus.devices, all, addr)
      invariant found == |Sensors(all)| && Listed(list[..], was, Sensors(all))
      decreases |bus.devices| - |all|
    {
      found, addr, all := Visit(search, bus, list, addr, found, was, all);
    }
    WalkedOnce(bus.devices, all);
    VisibleIff(bus.devices);
  }

  lemma VisibleIff(devices: set<Rom>)
    ensures Visible(devices) == devices <==> forall d :: d in devices ==> Reportable(d)
  {}

  /** The body of the scan's loop. */
  method Visit(search: Search, bus: Bus, list: array<bv64>, addr: bv64, found: nat, ghost was: seq<bv64>,
               ghost all: seq<Rom>)
    returns (more: nat, next: bv64, ghost now: seq<Rom>)
    requires addr != ONEWIRE_NONE && Standing(search, bus.devices, all, addr)
    requires found == |Sensors(all)| && Listed(list[..], was, Sensors(all))
    modifies search, search.rom, bus, list
    ensures Standing(search, bus.devices, now, next) && |all| < |now| <= |bus.devices|
    ensures more == |Sensors(now)| && Listed(list[..], was, Sensors(now))
  {
    hide BitsOf, Before, Walked, Names, LastZero, Address, Listed, Sensors, Reportable, NoZeroFamily;
    ghost var r: Rom := search.rom[..];
    now := all + [r];
    WalkedOnce(bus.devices, now);
    more := Record(list, addr, found, was, all, r);
    next := Advance(search, bus, now);
  }

  /** Reports the next device, or that there is none to see. */
  method Advance(search: Search, bus: Bus, ghost all: seq<Rom>) returns (addr: bv64)
    requires search.Valid() && Walked(bus.devices, all) && AllReportable(all)
    requires if |all| == 0 then search.AtStart()
             else
               && search.AfterDevice(Names(bus.devices)) && all[|all| - 1] == search.rom[..]
               && NoZeroFamily(bus.devices)
    modifies search, search.rom, bus
    ensures Standing(search, bus.devices, all, addr)
  {
    hide BitsOf, Before, LastZero, Address, Walked, AllReportable, NoZeroFamily, Visible;
    ghost var D := Names(bus.devices);
    if |all| > 0 {
      NoForkIsLast(D, search.Last());
    }
    ghost var done := search.lastDeviceFound || bus.devices == {};
    addr := search.Next(bus);
    if done {
      WalkedAll(bus.devices, all);
      AllSeen(bus.devices, all);
    } else {
      ghost var r: Rom := search.rom[..];
      if |all| == 0 {
        WalkedFirst(bus.devices, r);
        FirstSeen(bus.devices, r);
        assert all + [r] == [r];
      } else {
        WalkedNext(bus.devices, all, r);
        NextSeen(bus.devices, r);
      }
      OnlyAllOnesIsNone(r);
      AllOnesSeen(bus.devices, all);
    }
  }

  lemma AllSeen(devices: set<Rom>, all: seq<Rom>)
    requires (set d | d in all) == devices && AllReportable(all)
    ensures Visible(devices) == devices
  {
    assert forall d :: d in devices ==> d in all;
  }

  /** The first device tells whether there is one with a zero family byte. */
  lemma FirstSeen(devices: set<Rom>, r: Rom)
    requires First(Names(devices), BitsOf(r))
    ensures NoZeroFamily(devices) <==> r[0] != 0
    ensures !NoZeroFamily(devices) ==> Visible(devices) == {}
  {
    hide BitsOf, Before;
    NameOf(devices, r);
    if r[0] != 0 {
      forall d | d in devices
        ensures d[0] != 0
      {
        if d[0] == 0 {
          ZeroFamilyHidesAll(devices, d, r);
        }
      }
    }
  }

  lemma NextSeen(devices: set<Rom>, r: Rom)
    requires NoZeroFamily(devices) && BitsOf(r) in Names(devices)
    ensures r[0] != 0
  {
    hide BitsOf;
    NameOf(devices, r);
  }

  /** When the device of all ones is next, all others were visited. */
  lemma AllOnesSeen(devices: set<Rom>, all: seq<Rom>)
    requires AllReportable(all)
    ensures NoZeroFamily(devices) && Walked(devices, all) && Walked(devices, all + [ALL_ONES]) ==>
      (set d | d in all) == Visible(devices)
  {
    hide BitsOf, Before;
    if NoZeroFamily(devices) && Walked(devices, all) && Walked(devices, all + [ALL_ONES]) {
      var more := all + [ALL_ONES];
      assert more[|all|] == ALL_ONES;
      forall d | d in devices && d != ALL_ONES
        ensures d in all
      {
        AllOnesLast(d);
        NotBothBefore(BitsOf(d), BitsOf(ALL_ONES));
        assert d in more;
      }
    }
  }

  /** A bus with a temperature sensor and a device with a zero family byte: a scan does not find the sensor. */
  method HiddenSensor() returns (found: nat)
    ensures found == 0
  {
    var sensor: Rom, zero: Rom := [0x28, 1, 0, 0, 0, 0, 0, 0], [0, 1, 0, 0, 0, 0, 0, 0];
    var bus := new Bus({sensor, zero});
    var list := new bv64[1];
    ghost var all;
    found, all := ScanDevices(bus, list);
    assert zero in bus.devices && zero[0] == 0;
  }
}
