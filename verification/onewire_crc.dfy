/** The 1-Wire checksums: the fast forms compute what the bit-serial ones do, and the errors they catch. */
module OneWireCrc {
  /** The lookup table, as its sixteen rows of sixteen. */
  const DSCRC_TABLE: seq<seq<bv8>> := [
    [0, 94, 188, 226, 97, 63, 221, 131, 194, 156, 126, 32, 163, 253, 31, 65],
    [157, 195, 33, 127, 252, 162, 64, 30, 95, 1, 227, 189, 62, 96, 130, 220],
    [35, 125, 159, 193, 66, 28, 254, 160, 225, 191, 93, 3, 128, 222, 60, 98],
    [190, 224, 2, 92, 223, 129, 99, 61, 124, 34, 192, 158, 29, 67, 161, 255],
    [70, 24, 250, 164, 39, 121, 155, 197, 132, 218, 56, 102, 229, 187, 89, 7],
    [219, 133, 103, 57, 186, 228, 6, 88, 25, 71, 165, 251, 120, 38, 196, 154],
    [101, 59, 217, 135, 4, 90, 184, 230, 167, 249, 27, 69, 198, 152, 122, 36],
    [248, 166, 68, 26, 153, 199, 37, 123, 58, 100, 134, 216, 91, 5, 231, 185],
    [140, 210, 48, 110, 237, 179, 81, 15, 78, 16, 242, 172, 47, 113, 147, 205],
    [17, 79, 173, 243, 112, 46, 204, 146, 211, 141, 111, 49, 178, 236, 14, 80],
    [175, 241, 19, 77, 206, 144, 114, 44, 109, 51, 209, 143, 12, 82, 176, 238],
    [50, 108, 142, 208, 83, 13, 239, 177, 240, 174, 76, 18, 145, 207, 45, 115],
    [202, 148, 118, 40, 171, 245, 23, 73, 8, 86, 180, 234, 105, 55, 213, 139],
    [87, 9, 235, 181, 54, 104, 138, 212, 149, 203, 41, 119, 244, 170, 72, 22],
    [233, 183, 85, 11, 136, 214, 52, 106, 43, 117, 151, 201, 74, 20, 246, 168],
    [116, 42, 200, 150, 21, 75, 169, 247, 182, 232, 10, 84, 215, 137, 107, 53]]

  /** Adding polynomials over the field of two elements. */
  function Sum(a: bv8, b: bv8): bv8 {
    a ^ b
  }

  /** One shift of the 8-bit register with feedback. */
  function Shift(c: bv8): bv8 {
    if c & 1 != 0 then (c >> 1) ^ 0x8C else c >> 1
  }

  /** A byte's worth of shifts. */
  function Shift8(c: bv8): bv8 {
    Shift(Shift(Shift(Shift(Shift(Shift(Shift(Shift(c))))))))
  }

  function Shifts(c: bv8, n: nat): bv8 {
    if n == 0 then c else Shift(Shifts(c, n - 1))
  }

  /** The checksum as the shift register defines it. */
  function Crc8(data: seq<bv8>): bv8 {
    if |data| == 0 then 0 else Shift8(Sum(Crc8(data[..|data| - 1]), data[|data| - 1]))
  }

  function Dropped(b: bv8, n: nat): bv8 {
    if n == 0 then b else Dropped(b, n - 1) >> 1
  }

  lemma DropOne(b: bv8, n: nat)
    ensures Dropped(b, n + 1) == Dropped(b, n) >> 1
  {}

  lemma NoneDropped(b: bv8)
    ensures Dropped(b, 0) == b
  {}

  lemma AllDropped(b: bv8)
    ensures Dropped(b, 8) == 0
  {
    assert Dropped(b, 1) == b >> 1;
    assert Dropped(b, 3) == b >> 3;
    assert Dropped(b, 5) == b >> 5;
    assert Dropped(b, 7) == b >> 7;
  }

  lemma EightShifts(c: bv8)
    ensures Shifts(c, 8) == Shift8(c)
  {
    hide Shift;
    assert Shifts(c, 1) == Shift(c);
    assert Shifts(c, 3) == Shift(Shift(Shifts(c, 1)));
    assert Shifts(c, 5) == Shift(Shift(Shifts(c, 3)));
    assert Shifts(c, 7) == Shift(Shift(Shifts(c, 5)));
  }

  /** Mixing in one bit at a time keeps step with shifting the sum of register and input. */
  lemma MixIsShift(crc: bv8, inbyte: bv8, mix: bv8)
    requires mix == (crc ^ inbyte) & 0x01
    ensures Sum(if mix != 0 then (crc >> 1) ^ 0x8C else crc >> 1, inbyte >> 1) == Shift(Sum(crc, inbyte))
  {}

  lemma XorZero(c: bv8)
    ensures Sum(c, 0) == c && Sum(0, c) == c && Sum(c, c) == 0
  {}

  /** The eight turns of the serial form for one byte. */
  method SerialByte(was: bv8, byte: bv8) returns (crc: bv8)
    ensures crc == Shift8(Sum(was, byte))
  {
    hide Sum, Shift, Shift8, Dropped;
    crc := was;
    var inbyte := byte;
    NoneDropped(byte);
    for i := 8 downto 0
      invariant Sum(crc, inbyte) == Shifts(Sum(was, byte), 8 - i) && inbyte == Dropped(byte, 8 - i)
    {
      var mix := (crc ^ inbyte) & 0x01;
      MixIsShift(crc, inbyte, mix);
      DropOne(byte, 8 - i - 1);
      crc := crc >> 1;
      if mix != 0 {
        crc := crc ^ 0x8C;
      }
      inbyte := inbyte >> 1;
    }
    AllDropped(byte);
    EightShifts(Sum(was, byte));
    XorZero(crc);
  }

  /** The compact form: bit by bit. */
  method SerialCrc8(data: seq<bv8>) returns (crc: bv8)
    ensures crc == Crc8(data)
  {
    hide Shift8;
    crc := 0;
    for k := 0 to |data|
      invariant crc == Crc8(data[..k])
    {
      assert data[..k + 1][..k] == data[..k];
      crc := SerialByte(crc, data[k]);
    }
    assert data[..|data|] == data;
  }

  lemma ShiftLinear(a: bv8, b: bv8)
    ensures Shift(Sum(a, b)) == Sum(Shift(a), Shift(b))
  {}

  lemma Shift8Linear(a: bv8, b: bv8)
    ensures Shift8(Sum(a, b)) == Sum(Shift8(a), Shift8(b))
  {
    hide Shift, Shift8, Sum;
    var x, y := a, b;
    for i := 0 to 8
      invariant x == Shifts(a, i) && y == Shifts(b, i) && Sum(x, y) == Shifts(Sum(a, b), i)
    {
      ShiftLinear(x, y);
      x, y := Shift(x), Shift(y);
    }
    EightShifts(a);
    EightShifts(b);
    EightShifts(Sum(a, b));
  }

  /** A row of the table is its first row added to its head. */
  predicate RowFrom(row: seq<bv8>, c: bv8) {
    && |row| == 16
    && row[0] == Sum(c, 0) && row[1] == Sum(c, 94) && row[2] == Sum(c, 188) && row[3] == Sum(c, 226)
    && row[4] == Sum(c, 97) && row[5] == Sum(c, 63) && row[6] == Sum(c, 221) && row[7] == Sum(c, 131)
    && row[8] == Sum(c, 194) && row[9] == Sum(c, 156) && row[10] == Sum(c, 126) && row[11] == Sum(c, 32)
    && row[12] == Sum(c, 163) && row[13] == Sum(c, 253) && row[14] == Sum(c, 31) && row[15] == Sum(c, 65)
  }

  lemma FirstRows()
    ensures
      && RowFrom(DSCRC_TABLE[0], 0) && RowFrom(DSCRC_TABLE[1], 157)
      && RowFrom(DSCRC_TABLE[2], 35) && RowFrom(DSCRC_TABLE[3], 190)
  {}

  lemma NextRows()
    ensures
      && RowFrom(DSCRC_TABLE[4], 70) && RowFrom(DSCRC_TABLE[5], 219)
      && RowFrom(DSCRC_TABLE[6], 101) && RowFrom(DSCRC_TABLE[7], 248)
  {}

  lemma LaterRows()
    ensures
      && RowFrom(DSCRC_TABLE[8], 140) && RowFrom(DSCRC_TABLE[9], 17)
      && RowFrom(DSCRC_TABLE[10], 175) && RowFrom(DSCRC_TABLE[11], 50)
  {}

  lemma LastRows()
    ensures
      && RowFrom(DSCRC_TABLE[12], 202) && RowFrom(DSCRC_TABLE[13], 87)
      && RowFrom(DSCRC_TABLE[14], 233) && RowFrom(DSCRC_TABLE[15], 116)
  {}

  lemma Heads()
    ensures
      && Shift8(0x00) == 0 && Shift8(0x10) == 157 && Shift8(0x20) == 35 && Shift8(0x30) == 190
      && Shift8(0x40) == 70 && Shift8(0x50) == 219 && Shift8(0x60) == 101 && Shift8(0x70) == 248
      && Shift8(0x80) == 140 && Shift8(0x90) == 17 && Shift8(0xA0) == 175 && Shift8(0xB0) == 50
      && Shift8(0xC0) == 202 && Shift8(0xD0) == 87 && Shift8(0xE0) == 233 && Shift8(0xF0) == 116
  {}

  lemma FirstRow()
    ensures
      && Shift8(0) == 0 && Shift8(1) == 94 && Shift8(2) == 188 && Shift8(3) == 226
      && Shift8(4) == 97 && Shift8(5) == 63 && Shift8(6) == 221 && Shift8(7) == 131
      && Shift8(8) == 194 && Shift8(9) == 156 && Shift8(10) == 126 && Shift8(11) == 32
      && Shift8(12) == 163 && Shift8(13) == 253 && Shift8(14) == 31 && Shift8(15) == 65
  {}

  lemma RowOf(h: bv8)
    requires h < 16
    ensures |DSCRC_TABLE[h as nat]| == 16 && RowFrom(DSCRC_TABLE[h as nat], Shift8(h << 4))
  {
    hide Shift8, RowFrom;
    FirstRows();
    NextRows();
    LaterRows();
    LastRows();
    Heads();
    if h == 0 { assert h as nat == 0 && h << 4 == 0x00; }
    else if h == 1 { assert h as nat == 1 && h << 4 == 0x10; }
    else if h == 2 { assert h as nat == 2 && h << 4 == 0x20; }
    else if h == 3 { assert h as nat == 3 && h << 4 == 0x30; }
    else if h == 4 { assert h as nat == 4 && h << 4 == 0x40; }
    else if h == 5 { assert h as nat == 5 && h << 4 == 0x50; }
    else if h == 6 { assert h as nat == 6 && h << 4 == 0x60; }
    else if h == 7 { assert h as nat == 7 && h << 4 == 0x70; }
    else if h == 8 { assert h as nat == 8 && h << 4 == 0x80; }
    else if h == 9 { assert h as nat == 9 && h << 4 == 0x90; }
    else if h == 10 { assert h as nat == 10 && h << 4 == 0xA0; }
    else if h == 11 { assert h as nat == 11 && h << 4 == 0xB0; }
    else if h == 12 { assert h as nat == 12 && h << 4 == 0xC0; }
    else if h == 13 { assert h as nat == 13 && h << 4 == 0xD0; }
    else if h == 14 { assert h as nat == 14 && h << 4 == 0xE0; }
    else if h == 15 { assert h as nat == 15 && h << 4 == 0xF0; }
  }

  lemma LowColumn(row: seq<bv8>, c: bv8, l: bv8)
    requires RowFrom(row, c) && l < 8
    ensures row[l as nat] == Sum(c, Shift8(l))
  {
    hide Shift8, Sum;
    FirstRow();
    if l == 0 { assert l as nat == 0; }
    else if l == 1 { assert l as nat == 1; }
    else if l == 2 { assert l as nat == 2; }
    else if l == 3 { assert l as nat == 3; }
    else if l == 4 { assert l as nat == 4; }
    else if l == 5 { assert l as nat == 5; }
    else if l == 6 { assert l as nat == 6; }
    else if l == 7 { assert l as nat == 7; }
  }

  lemma HighColumn(row: seq<bv8>, c: bv8, l: bv8)
    requires RowFrom(row, c) && 8 <= l < 16
    ensures row[l as nat] == Sum(c, Shift8(l))
  {
    hide Shift8, Sum;
    FirstRow();
    if l == 8 { assert l as nat == 8; }
    else if l == 9 { assert l as nat == 9; }
    else if l == 10 { assert l as nat == 10; }
    else if l == 11 { assert l as nat == 11; }
    else if l == 12 { assert l as nat == 12; }
    else if l == 13 { assert l as nat == 13; }
    else if l == 14 { assert l as nat == 14; }
    else if l == 15 { assert l as nat == 15; }
  }

  lemma ColumnOf(row: seq<bv8>, c: bv8, l: bv8)
    requires RowFrom(row, c) && l < 16
    ensures row[l as nat] == Sum(c, Shift8(l))
  {
    hide Shift8, Sum, RowFrom;
    if l < 8 {
      LowColumn(row, c, l);
    } else {
      HighColumn(row, c, l);
    }
  }

  lemma Nibbles(b: bv8)
    ensures b >> 4 < 16 && b & 0x0F < 16 && Sum((b >> 4) << 4, b & 0x0F) == b
  {}

  /** The table's entry for a byte. */
  function Entry(b: bv8): (r: bv8)
    ensures r == Shift8(b)
  {
    hide Shift8, RowFrom, Sum;
    Nibbles(b);
    RowOf(b >> 4);
    ColumnOf(DSCRC_TABLE[(b >> 4) as nat], Shift8((b >> 4) << 4), b & 0x0F);
    Shift8Linear((b >> 4) << 4, b & 0x0F);
    DSCRC_TABLE[(b >> 4) as nat][(b & 0x0F) as nat]
  }

  /** The fast form: one table look-up a byte. */
  method TableCrc8(data: seq<bv8>) returns (crc: bv8)
    ensures crc == Crc8(data)
  {
    hide Shift8;
    crc := 0;
    for k := 0 to |data|
      invariant crc == Crc8(data[..k])
    {
      assert data[..k + 1][..k] == data[..k];
      crc := Entry(Sum(crc, data[k]));
    }
    assert data[..|data|] == data;
  }

  lemma Shift8Zero(c: bv8)
    ensures Shift8(c) == 0 <==> c == 0
  {}

  /** Different registers stay different. */
  lemma Shift8Injective(a: bv8, b: bv8)
    ensures Shift8(a) == Shift8(b) <==> a == b
  {
    hide Shift8, Sum;
    Shift8Linear(a, b);
    Shift8Zero(Sum(a, b));
    SumZero(a, b);
    SumZero(Shift8(a), Shift8(b));
  }

  lemma SumZero(a: bv8, b: bv8)
    ensures Sum(a, b) == 0 <==> a == b
  {}

  lemma SumCancels(a: bv8, b: bv8, c: bv8)
    ensures Sum(a, c) == Sum(b, c) <==> a == b
    ensures Sum(c, a) == Sum(c, b) <==> a == b
  {}

  /** A message followed by its checksum has checksum zero. */
  lemma AppendedGivesZero(data: seq<bv8>, c: bv8)
    ensures Crc8(data + [c]) == 0 <==> c == Crc8(data)
  {
    hide Shift8, Sum;
    assert (data + [c])[..|data|] == data;
    Shift8Zero(Sum(Crc8(data), c));
    SumZero(Crc8(data), c);
  }

  /** A difference in the checksums of two beginnings is never undone by the same continuation. */
  lemma {:induction false} DifferencePersists(a: seq<bv8>, b: seq<bv8>, n: nat)
    requires n <= |a| == |b| && a[n..] == b[n..] && Crc8(a[..n]) != Crc8(b[..n])
    ensures Crc8(a) != Crc8(b)
  {
    hide Shift8, Sum;
    if n == |a| {
      assert a[..n] == a && b[..n] == b;
    } else {
      var k := |a| - 1;
      assert a[n..k] == a[n..][..k - n] == b[n..][..k - n] == b[n..k];
      assert a[..k][..n] == a[..n] && b[..k][..n] == b[..n];
      DifferencePersists(a[..k], b[..k], n);
      assert a[k] == a[n..][k - n] == b[n..][k - n] == b[k];
      SumCancels(Crc8(a[..k]), Crc8(b[..k]), a[k]);
      Shift8Injective(Sum(Crc8(a[..k]), a[k]), Sum(Crc8(b[..k]), b[k]));
    }
  }

  /** The bits of a byte that go over the wire before bit `k`. */
  function Earlier(k: nat): bv8
    requires k <= 8
  {
    if k == 0 then 0x00 else if k == 1 then 0x01 else if k == 2 then 0x03 else if k == 3 then 0x07
    else if k == 4 then 0x0F else if k == 5 then 0x1F else if k == 6 then 0x3F else if k == 7 then 0x7F else 0xFF
  }

  /** The messages differ, and only within the eight bits that start with bit `k` of byte `i`. */
  predicate Burst(a: seq<bv8>, b: seq<bv8>, i: nat, k: nat) {
    && i < |a| == |b| && k < 8 && a != b
    && a[..i] == b[..i]
    && Sum(a[i], b[i]) & Earlier(k) == 0
    && (i + 1 < |a| ==> Sum(a[i + 1], b[i + 1]) & !Earlier(k) == 0 && a[i + 2..] == b[i + 2..])
  }

  lemma BurstIsNoMultiple(d: bv8, e: bv8, k: nat)
    requires k < 8 && d & Earlier(k) == 0 && e & !Earlier(k) == 0 && (d != 0 || e != 0)
    ensures Shift8(d) != e
  {}

  lemma StepDiffers(c: bv8, x: bv8, y: bv8)
    ensures Sum(Shift8(Sum(c, x)), Shift8(Sum(c, y))) == Shift8(Sum(x, y))
  {
    hide Shift8;
    Shift8Linear(Sum(c, x), Sum(c, y));
    Regroup(c, x, c, y);
    XorZero(c);
    XorZero(Sum(x, y));
  }

  lemma Regroup(a: bv8, x: bv8, b: bv8, y: bv8)
    ensures Sum(Sum(a, x), Sum(b, y)) == Sum(Sum(a, b), Sum(x, y))
  {
    hide Sum;
    SumAssoc(a, x, Sum(b, y));
    SumAssoc(x, b, y);
    SumAssoc(b, x, y);
    SumAssoc(a, b, Sum(x, y));
    SumCommutes(x, b);
  }

  lemma SumAssoc(a: bv8, b: bv8, c: bv8)
    ensures Sum(Sum(a, b), c) == Sum(a, Sum(b, c))
  {}

  lemma SumCommutes(a: bv8, b: bv8)
    ensures Sum(a, b) == Sum(b, a)
  {}

  /** Every error confined to eight bits in a row changes the checksum. */
  lemma BurstDetected(a: seq<bv8>, b: seq<bv8>, i: nat, k: nat)
    requires Burst(a, b, i, k)
    ensures Crc8(a) != Crc8(b)
  {
    hide Shift8, Sum, Earlier;
    var c, d := Crc8(a[..i]), Sum(a[i], b[i]);
    CrcOfNext(a, i);
    CrcOfNext(b, i);
    StepDiffers(c, a[i], b[i]);
    SumZero(Crc8(a[..i + 1]), Crc8(b[..i + 1]));
    SumZero(a[i], b[i]);
    Shift8Zero(d);
    if i + 1 == |a| {
      assert a == a[..i] + [a[i]] && b == b[..i] + [b[i]];
      assert a[..i + 1] == a && b[..i + 1] == b;
    } else {
      BurstInTwo(a, b, i, k);
      DifferencePersists(a, b, i + 2);
    }
  }

  lemma CrcOfNext(a: seq<bv8>, i: nat)
    requires i < |a|
    ensures Crc8(a[..i + 1]) == Shift8(Sum(Crc8(a[..i]), a[i]))
  {
    assert a[..i + 1][..i] == a[..i];
  }

  lemma SameInParts(a: seq<bv8>, b: seq<bv8>, i: nat)
    requires i + 1 < |a| == |b|
    ensures a[..i] == b[..i] && a[i] == b[i] && a[i + 1] == b[i + 1] && a[i + 2..] == b[i + 2..] ==> a == b
  {
    assert a == a[..i] + [a[i], a[i + 1]] + a[i + 2..];
    assert b == b[..i] + [b[i], b[i + 1]] + b[i + 2..];
  }

  lemma BurstInTwo(a: seq<bv8>, b: seq<bv8>, i: nat, k: nat)
    requires Burst(a, b, i, k) && i + 1 < |a|
    ensures Crc8(a[..i + 2]) != Crc8(b[..i + 2])
  {
    hide Shift8, Sum, Earlier;
    var d, e := Sum(a[i], b[i]), Sum(a[i + 1], b[i + 1]);
    var x, y := Crc8(a[..i + 1]), Crc8(b[..i + 1]);
    CrcOfNext(a, i);
    CrcOfNext(b, i);
    StepDiffers(Crc8(a[..i]), a[i], b[i]);
    CrcOfNext(a, i + 1);
    CrcOfNext(b, i + 1);
    SumZero(a[i], b[i]);
    SumZero(a[i + 1], b[i + 1]);
    SameInParts(a, b, i);
    BurstIsNoMultiple(d, e, k);
    Regroup(x, a[i + 1], y, b[i + 1]);
    SumZero(Sum(x, y), e);
    SumZero(Sum(x, a[i + 1]), Sum(y, b[i + 1]));
    Shift8Injective(Sum(x, a[i + 1]), Sum(y, b[i + 1]));
  }

  function Bit(b: bv8): nat {
    if b & 1 != 0 then 1 else 0
  }

  function OnesIn(b: bv8, n: nat): nat {
    if n == 0 then 0 else Bit(b) + OnesIn(b >> 1, n - 1)
  }

  function Ones(b: bv8): nat {
    OnesIn(b, 8)
  }

  /** The number of bits in which two messages differ. */
  function Distance(a: seq<bv8>, b: seq<bv8>): nat
    requires |a| == |b|
  {
    if |a| == 0 then 0
    else Distance(a[..|a| - 1], b[..|b| - 1]) + Ones(Sum(a[|a| - 1], b[|b| - 1]))
  }

  function Common(a: bv8, b: bv8): bv8 {
    a & b
  }

  lemma OnesOfSum(a: bv8, b: bv8)
    ensures Ones(Sum(a, b)) % 2 == (Ones(a) + Ones(b)) % 2
  {
    hide Sum;
    CarryAll(a, b, 8);
  }

  lemma {:induction false} CarryAll(a: bv8, b: bv8, n: nat)
    ensures OnesIn(Sum(a, b), n) + 2 * OnesIn(Common(a, b), n) == OnesIn(a, n) + OnesIn(b, n)
  {
    hide Bit, Sum, Common;
    if n > 0 {
      Carry(a, b);
      ShiftParts(a, b);
      CarryAll(a >> 1, b >> 1, n - 1);
    }
  }

  lemma Carry(a: bv8, b: bv8)
    ensures Bit(Sum(a, b)) + 2 * Bit(Common(a, b)) == Bit(a) + Bit(b)
  {}

  lemma ShiftParts(a: bv8, b: bv8)
    ensures Sum(a, b) >> 1 == Sum(a >> 1, b >> 1) && Common(a, b) >> 1 == Common(a >> 1, b >> 1)
  {}

  lemma OnesSpelled(b: bv8)
    ensures Ones(b) == Bit(b) + Bit(b >> 1) + Bit(b >> 2) + Bit(b >> 3)
                       + Bit(b >> 4) + Bit(b >> 5) + Bit(b >> 6) + Bit(b >> 7)
  {
    hide Bit;
    assert OnesIn(b >> 7, 1) == Bit(b >> 7);
    assert OnesIn(b >> 6, 2) == Bit(b >> 6) + OnesIn(b >> 7, 1);
    assert OnesIn(b >> 5, 3) == Bit(b >> 5) + OnesIn(b >> 6, 2);
    assert OnesIn(b >> 4, 4) == Bit(b >> 4) + OnesIn(b >> 5, 3);
    assert OnesIn(b >> 3, 5) == Bit(b >> 3) + OnesIn(b >> 4, 4);
    assert OnesIn(b >> 2, 6) == Bit(b >> 2) + OnesIn(b >> 3, 5);
    assert OnesIn(b >> 1, 7) == Bit(b >> 1) + OnesIn(b >> 2, 6);
  }

  function Odd(b: bv8): bv8 {
    (b ^ (b >> 1) ^ (b >> 2) ^ (b >> 3) ^ (b >> 4) ^ (b >> 5) ^ (b >> 6) ^ (b >> 7)) & 1
  }

  lemma OnesAreOdd(b: bv8)
    ensures (Ones(b) % 2 == 1) == (Odd(b) == 1)
  {
    hide OnesIn, Ones;
    OnesSpelled(b);
  }

  lemma ShiftKeepsParity(c: bv8)
    ensures Odd(Shift8(c)) == Odd(c)
  {}

  /** The checksums of two messages differ in an odd number of bits exactly if the messages do. */
  lemma {:induction false} ParityKept(a: seq<bv8>, b: seq<bv8>)
    requires |a| == |b|
    ensures Ones(Sum(Crc8(a), Crc8(b))) % 2 == Distance(a, b) % 2
  {
    hide Shift8, Sum, Ones, Odd;
    if |a| == 0 {
      XorZero(0);
      OnesOfZero();
    } else {
      hide Crc8, Distance;
      var x, y := a[..|a| - 1], b[..|b| - 1];
      ParityKept(x, y);
      CrcLast(a);
      CrcLast(b);
      DistanceLast(a, b);
      ParityStep(Crc8(x), Crc8(y), a[|a| - 1], b[|b| - 1]);
    }
  }

  lemma CrcLast(a: seq<bv8>)
    requires |a| > 0
    ensures Crc8(a) == Shift8(Sum(Crc8(a[..|a| - 1]), a[|a| - 1]))
  {
    hide Shift8, Sum;
  }

  lemma DistanceLast(a: seq<bv8>, b: seq<bv8>)
    requires |a| == |b| > 0
    ensures Distance(a, b) == Distance(a[..|a| - 1], b[..|b| - 1]) + Ones(Sum(a[|a| - 1], b[|b| - 1]))
  {
    hide Ones, Sum;
  }

  lemma ParityStep(c: bv8, d: bv8, p: bv8, q: bv8)
    ensures Ones(Sum(Shift8(Sum(c, p)), Shift8(Sum(d, q)))) % 2 == (Ones(Sum(c, d)) + Ones(Sum(p, q))) % 2
  {
    hide Shift8, Sum, Ones, Odd;
    Shift8Linear(Sum(c, p), Sum(d, q));
    Regroup(c, p, d, q);
    var s := Sum(Sum(c, d), Sum(p, q));
    ShiftKeepsParity(s);
    OnesAreOdd(s);
    OnesAreOdd(Shift8(s));
    OnesOfSum(Sum(c, d), Sum(p, q));
  }

  lemma OnesOfZero()
    ensures Ones(0) == 0
  {}

  /** Every error of an odd number of bits changes the checksum. */
  lemma OddErrorDetected(a: seq<bv8>, b: seq<bv8>)
    requires |a| == |b| && Distance(a, b) % 2 == 1
    ensures Crc8(a) != Crc8(b)
  {
    hide Ones, Distance, Crc8;
    ParityKept(a, b);
    XorZero(Crc8(a));
    OnesOfZero();
  }

  // ---- The 16-bit checksum ----

  const ODD_PARITY: seq<bv8> := [0, 1, 1, 0, 1, 0, 0, 1, 1, 0, 0, 1, 0, 1, 1, 0]

  /** One shift of the 16-bit register, whose polynomial reads 0xA001 from the low end. */
  function WideShift(c: bv16): bv16 {
    if c & 1 != 0 then (c >> 1) ^ 0xA001 else c >> 1
  }

  function WideShift8(c: bv16): bv16 {
    WideShift(WideShift(WideShift(WideShift(WideShift(WideShift(WideShift(WideShift(c))))))))
  }

  function Mix(c: bv16, b: bv8): bv16 {
    c ^ (b as bv16)
  }

  /** The checksum as the shift register defines it. */
  function Crc16(data: seq<bv8>, iv: bv16): bv16 {
    if |data| == 0 then iv
    else WideShift8(Mix(Crc16(data[..|data| - 1], iv), data[|data| - 1]))
  }

  /** The odd-parity bit of a byte, without the table. */
  function Parity(n: bv16): bv16 {
    (n ^ (n >> 1) ^ (n >> 2) ^ (n >> 3)) & 1
  }

  lemma ParityEntry(n: bv16)
    requires n < 16
    ensures ODD_PARITY[n as nat] == 0 || ODD_PARITY[n as nat] == 1
    ensures (ODD_PARITY[n as nat] == 1) == (Parity(n) == 1) && (Parity(n) == 0 || Parity(n) == 1)
  {
    hide Parity;
    ParityValues();
    if n == 0 { assert n as nat == 0; }
    else if n == 1 { assert n as nat == 1; }
    else if n == 2 { assert n as nat == 2; }
    else if n == 3 { assert n as nat == 3; }
    else if n == 4 { assert n as nat == 4; }
    else if n == 5 { assert n as nat == 5; }
    else if n == 6 { assert n as nat == 6; }
    else if n == 7 { assert n as nat == 7; }
    else if n == 8 { assert n as nat == 8; }
    else if n == 9 { assert n as nat == 9; }
    else if n == 10 { assert n as nat == 10; }
    else if n == 11 { assert n as nat == 11; }
    else if n == 12 { assert n as nat == 12; }
    else if n == 13 { assert n as nat == 13; }
    else if n == 14 { assert n as nat == 14; }
    else if n == 15 { assert n as nat == 15; }
  }

  lemma ParityValues()
    ensures
      && Parity(0) == 0 && Parity(1) == 1 && Parity(2) == 1 && Parity(3) == 0
      && Parity(4) == 1 && Parity(5) == 0 && Parity(6) == 0 && Parity(7) == 1
      && Parity(8) == 1 && Parity(9) == 0 && Parity(10) == 0 && Parity(11) == 1
      && Parity(12) == 0 && Parity(13) == 1 && Parity(14) == 1 && Parity(15) == 0
  {}

  lemma NibblesSmall(c: bv16)
    requires c <= 0xFF
    ensures c & 0x0F < 16 && c >> 4 < 16
  {}

  lemma ByteMasked(c: bv16)
    ensures c & 0xFF <= 0xFF
  {}

  /** What the parity trick makes of the register for one byte. */
  function Tricked(crc: bv16, cdata: bv16): bv16 {
    Spread(if Parity(cdata & 0x0F) != Parity(cdata >> 4) then (crc >> 8) ^ 0xC001 else crc >> 8, cdata << 6)
  }

  function Spread(crc: bv16, cdata: bv16): bv16 {
    crc ^ cdata ^ (cdata << 1)
  }

  lemma TrickIsShifts(crc: bv16, byte: bv16)
    requires byte <= 0xFF
    ensures Tricked(crc, (byte ^ crc) & 0xFF) == WideShift8(crc ^ byte)
  {}

  lemma ParitiesDiffer(a: bv8, b: bv8)
    requires (a == 0 || a == 1) && (b == 0 || b == 1)
    ensures (a ^ b != 0) == (a != b)
  {}

  lemma Narrow(b: bv8)
    ensures b as bv16 <= 0xFF
  {}

  lemma TrickMixes(crc: bv16, byte: bv8)
    ensures Tricked(crc, ((byte as bv16) ^ crc) & 0xFF) == WideShift8(Mix(crc, byte))
  {
    Narrow(byte);
    hide Tricked, WideShift8;
    TrickIsShifts(crc, byte as bv16);
  }

  /** Whether a byte has an odd number of ones, by two look-ups. */
  function OddByte(cdata: bv16): (odd: bool)
    requires cdata <= 0xFF
    ensures odd == (Parity(cdata & 0x0F) != Parity(cdata >> 4))
  {
    hide Parity;
    NibblesSmall(cdata);
    ParityEntry(cdata & 0x0F);
    ParityEntry(cdata >> 4);
    ParitiesDiffer(ODD_PARITY[(cdata & 0x0F) as nat], ODD_PARITY[(cdata >> 4) as nat]);
    ODD_PARITY[(cdata & 0x0F) as nat] ^ ODD_PARITY[(cdata >> 4) as nat] != 0
  }

  /** The fast form's turn for one byte already mixed in. */
  method Trick(was: bv16, low: bv16) returns (crc: bv16)
    requires low <= 0xFF
    ensures crc == Tricked(was, low)
  {
    hide Parity, OddByte, Spread;
    crc := was >> 8;
    if OddByte(low) {
      crc := crc ^ 0xC001;
    }
    crc := SpreadOver(crc, low << 6);
  }

  method SpreadOver(high: bv16, low: bv16) returns (crc: bv16)
    ensures crc == Spread(high, low)
  {
    var cdata := low;
    crc := high ^ cdata;
    cdata := cdata << 1;
    crc := crc ^ cdata;
  }

  /** One byte of the fast form. */
  method TrickByte(was: bv16, byte: bv8) returns (crc: bv16)
    ensures crc == WideShift8(Mix(was, byte))
  {
    hide WideShift8, Mix, Tricked;
    TrickMixes(was, byte);
    var cdata := byte as bv16;
    ByteMasked(cdata ^ was);
    crc := Trick(was, (cdata ^ was) & 0xFF);
  }

  /** The fast form: two parity look-ups a byte. */
  method TrickCrc16(data: seq<bv8>, iv: bv16) returns (crc: bv16)
    ensures crc == Crc16(data, iv)
  {
    hide WideShift8, Mix;
    crc := iv;
    for k := 0 to |data|
      invariant crc == Crc16(data[..k], iv)
    {
      assert data[..k + 1][..k] == data[..k];
      crc := TrickByte(crc, data[k]);
    }
    assert data[..|data|] == data;
  }

  /** The check of a received message: its two checksum bytes are the complement of the checksum computed,
      low byte first. Equivalently, the checksum of the message together with them is 0xB001. */
  method CheckCrc16(data: seq<bv8>, inverted: seq<bv8>, iv: bv16) returns (ok: bool)
    requires |inverted| == 2
    ensures ok <==> Crc16(data + inverted, iv) == 0xB001
  {
    hide WideShift8, Crc16, Mix;
    var crc := TrickCrc16(data, iv);
    Residue(crc, inverted[0], inverted[1]);
    TwoMore(data, inverted, iv);
    crc := !crc;
    ok := crc & 0xFF == inverted[0] as bv16 && crc >> 8 == inverted[1] as bv16;
  }

  lemma TwoMore(data: seq<bv8>, more: seq<bv8>, iv: bv16)
    requires |more| == 2
    ensures Crc16(data + more, iv)
      == WideShift8(Mix(WideShift8(Mix(Crc16(data, iv), more[0])), more[1]))
  {
    hide WideShift8, Mix;
    assert (data + more)[..|data| + 1] == data + [more[0]];
    assert (data + [more[0]])[..|data|] == data;
  }

  lemma Residue(crc: bv16, low: bv8, high: bv8)
    ensures
      WideShift8(Mix(WideShift8(Mix(crc, low)), high)) == 0xB001 <==>
      !crc & 0xFF == low as bv16 && !crc >> 8 == high as bv16
  {
  }
}
