/** NOR flash as the firmware uses it: programming can only clear bits, and a whole sector is erased at once. */
module Flash {
  const SECTOR: nat := 4096
  const ERASED: bv8 := 0xFF

  /** The cells after programming `data` at `addr`. */
  function Programmed(cells: seq<bv8>, addr: nat, data: seq<bv8>): (r: seq<bv8>)
    requires addr + |data| <= |cells|
    ensures |r| == |cells|
    ensures forall i :: 0 <= i < |cells| ==>
      r[i] == if addr <= i < addr + |data| then cells[i] & data[i - addr] else cells[i]
  {
    seq(|cells|, i requires 0 <= i < |cells| =>
      if addr <= i < addr + |data| then cells[i] & data[i - addr] else cells[i])
  }

  /** The cells after erasing the sector at `addr`. */
  function Wiped(cells: seq<bv8>, addr: nat): (r: seq<bv8>)
    requires addr + SECTOR <= |cells|
    ensures |r| == |cells|
    ensures forall i :: 0 <= i < |cells| ==> r[i] == if addr <= i < addr + SECTOR then ERASED else cells[i]
  {
    seq(|cells|, i requires 0 <= i < |cells| => if addr <= i < addr + SECTOR then ERASED else cells[i])
  }

  predicate Blank(cells: seq<bv8>, from: nat, to: nat)
    requires to <= |cells|
  {
    forall i :: from <= i < to ==> cells[i] == ERASED
  }

  /** Data programmed onto erased cells reads back exactly; on other cells it reads back only if it clears
      no bit that is already clear. */
  lemma ReadsBackIffNoBitNeedsSetting(cells: seq<bv8>, addr: nat, data: seq<bv8>)
    requires addr + |data| <= |cells|
    ensures Blank(cells, addr, addr + |data|) ==> Programmed(cells, addr, data)[addr..addr + |data|] == data
    ensures Programmed(cells, addr, data)[addr..addr + |data|] == data
            <==> forall i :: 0 <= i < |data| ==> data[i] & !cells[addr + i] == 0
  {
    var r := Programmed(cells, addr, data);
    var back := r[addr..addr + |data|];
    forall i | 0 <= i < |data|
      ensures back[i] == cells[addr + i] & data[i]
      ensures back[i] == data[i] <==> data[i] & !cells[addr + i] == 0
      ensures cells[addr + i] == ERASED ==> back[i] == data[i]
    {
      assert back[i] == r[addr + i];
      AndKeeps(cells[addr + i], data[i]);
    }
  }

  lemma AndKeeps(c: bv8, d: bv8)
    ensures c & d == d <==> d & !c == 0
    ensures ERASED & d == d
  {}

  class Chip {
    const cells: array<bv8>

    constructor (size: nat)
      ensures cells.Length == size && fresh(cells)
    {
      cells := new bv8[size];
    }

    /** Erases the sector at `addr`; refuses an address that is not a sector's, or `fault`. */
    method EraseSector(addr: nat, fault: bool) returns (ok: bool)
      modifies cells
      ensures ok == (!fault && addr % SECTOR == 0 && addr + SECTOR <= cells.Length)
      ensures cells[..] == if ok then Wiped(old(cells[..]), addr) else old(cells[..])
    {
      ok := !fault && addr % SECTOR == 0 && addr + SECTOR <= cells.Length;
      if ok {
        for i := addr to addr + SECTOR
          invariant forall j :: 0 <= j < cells.Length ==> cells[j] == if addr <= j < i then ERASED else old(cells[j])
        {
          cells[i] := ERASED;
        }
      }
    }

    /** Programs `data` at `addr`. With `written` below its length the operation fails after that many bytes. */
    method Write(addr: nat, data: seq<bv8>, written: nat) returns (ok: bool)
      requires addr + |data| <= cells.Length
      modifies cells
      ensures ok == (|data| <= written)
      ensures cells[..] == Programmed(old(cells[..]), addr, if ok then data else data[..written])
    {
      var n := if |data| <= written then |data| else written;
      ok := n == |data|;
      for i := 0 to n
        invariant forall j :: 0 <= j < cells.Length ==>
          cells[j] == if addr <= j < addr + i then old(cells[j]) & data[j - addr] else old(cells[j])
      {
        cells[addr + i] := cells[addr + i] & data[i];
      }
    }
  }
}
