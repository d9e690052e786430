/** The installer's firmware download: a file fetched in ranges of one flash sector, over a network and a
    flash that may fail at any point, and kept unbootable until its signature is checked. */
module Ota {
  import opened Flash

  const MAX_DOWNLOAD_FILE_TRIES: nat := 4
  const RECEIVE_SIZE: nat := 1389  // RECV_BUF_LEN - 1

  /** How the headers of a range response read. */
  datatype Header = Complete | NoContentLength | NoContentRange

  /** What the world does at one step. On the network, connecting, sending and receiving look at `ok`; a receive
      delivers up to `n` body bytes; the first receive of a response also finds `header`. In the flash, erasing and
      writing fail unless `ok`, a write after `n` bytes. */
  datatype Chance = Chance(ok: bool, n: nat, header: Header)

  /** Bytes [1, c) of the slot are the file's. Byte 0 is withheld. */
  predicate Downloaded(cells: seq<bv8>, file: seq<bv8>, c: nat) {
    && c <= |file| && c <= |cells|
    && forall i :: 1 <= i < c ==> cells[i] == file[i]
  }

  /** Where a download can stop and be resumed. */
  predicate Resumable(cells: seq<bv8>, file: seq<bv8>, c: nat, firstByte: bv8) {
    && Downloaded(cells, file, c)
    && (c % SECTOR == 0 || c == |file|)
    && (c > 0 ==> firstByte == file[0])
  }

  /** In the middle of the range that starts at `l`: what is written is the file's and the rest of the sector
      is still blank, so the next write reads back exactly. */
  predicate InRange(cells: seq<bv8>, file: seq<bv8>, l: nat, c: nat, writespace: nat, firstByte: bv8) {
    && l % SECTOR == 0 && l <= c <= l + SECTOR && l + SECTOR <= |cells|
    && Downloaded(cells, file, c)
    && (c > 0 ==> firstByte == file[0])
    && writespace == (if c == l then 0 else SECTOR - (c - l))
    && (c > l ==> Blank(cells, c, l + SECTOR))
    && (l == 0 < c ==> cells[0] == ERASED)
  }

  /** The size of the range at `l` of a server that honours ranges. */
  function RangeSize(file: seq<bv8>, l: nat): nat
    requires l <= |file|
  {
    if |file| - l < SECTOR then |file| - l else SECTOR
  }

  /** The bytes that `ota_verify_sign` hashes: byte 0 is put back only while whole blocks are read, which
      never happens for a file that fits in one. */
  function Hashed(cells: seq<bv8>, size: nat, firstByte: bv8): (h: seq<bv8>)
    requires size <= |cells|
  {
    if size > 1024 then [firstByte] + cells[1..size] else cells[..size]
  }

  /** The hash is over the file exactly when the file is longer than a block or starts with a blank byte. */
  lemma HashedIsFileIff(cells: seq<bv8>, file: seq<bv8>, firstByte: bv8)
    requires |file| > 0 && Resumable(cells, file, |file|, firstByte) && cells[0] == ERASED
    ensures Hashed(cells, |file|, firstByte) == file <==> |file| > 1024 || file[0] == ERASED
  {
    var h := Hashed(cells, |file|, firstByte);
    assert |h| == |file|;
    assert forall i :: 1 <= i < |file| ==> h[i] == cells[i] == file[i];
  }

  /** A file of a single zero byte, downloaded: what is hashed is not the file. */
  lemma ShortFileIsNotHashed()
    ensures var cells, file := [ERASED], [0 as bv8]; Resumable(cells, file, 1, 0) && Hashed(cells, 1, 0) != file
  {
    assert [ERASED][..1] == [ERASED] && [ERASED][0] != [0 as bv8][0];
  }

  /** Up to `n` attempts: whether one succeeds, and what is left of the script then. */
  function Attempts(script: seq<Chance>, n: nat): (r: (bool, seq<Chance>))
    ensures r.0 <==> exists i :: 0 <= i < n && i < |script| && script[i].ok
    ensures |r.1| <= |script| && (r.0 ==> |r.1| < |script|)
  {
    if n == 0 || |script| == 0 then (false, script)
    else if script[0].ok then
      (true, script[1..])
    else
      var r := Attempts(script[1..], n - 1);
      assert r.0 ==> exists i :: 1 <= i < n && i < |script| && script[i].ok by {
        if r.0 {
          var i :| 0 <= i < n - 1 && i < |script[1..]| && script[1..][i].ok;
          assert script[i + 1].ok;
        }
      }
      assert !r.0 ==> forall i :: 1 <= i < n && i < |script| ==> !script[i].ok by {
        forall i | !r.0 && 1 <= i < n && i < |script|
          ensures !script[i].ok
        {
          assert script[i] == script[1..][i - 1];
        }
      }
      r
  }

  /** How far the response to a request for a range has been read: body bytes, what is left of the erased sector, and
      whether the headers are still to come. */
  datatype Reading = Reading(received: nat, writespace: nat, header: bool)
  {
    /** Chances that went into it without a setback, and how many of them stored nothing. */
    function Spare(): nat {
      if header then 1 else 2 + received
    }

    function Slack(): nat {
      if header then 1 else if received == 0 then 2 else 0
    }
  }

  // ---- when a download gets through --------------------------------------------------------

  /** A chance that may set the download back. */
  predicate Bad(c: Chance) {
    !c.ok || c.header != Complete
  }

  function Bads(s: seq<Chance>): (n: nat)
    ensures n <= |s|
  {
    if |s| == 0 then 0 else Bads(s[..|s| - 1]) + if Bad(s[|s| - 1]) then 1 else 0
  }

  const WINDOW: nat := 15

  /** Of any fifteen chances in a row at most three are bad. */
  ghost predicate Calm(s: seq<Chance>) {
    forall i, j :: 0 <= i <= j <= |s| && j - i <= WINDOW ==> Bads(s[i..j]) < MAX_DOWNLOAD_FILE_TRIES
  }

  /** How many chances are enough for so many bytes: a byte may take three of them, and a bad one may cost a range. */
  predicate Lasts(s: seq<Chance>, left: nat, spare: nat) {
    |s| + spare >= 3 * left + (SECTOR + 4) * Bads(s)
  }

  predicate Sound(s: seq<Chance>) {
    forall i :: 0 <= i < |s| ==> s[i].ok
  }

  /** The flash works as long as the network lasts. */
  predicate Works(flash: seq<Chance>, script: seq<Chance>) {
    Sound(flash) && |flash| > 2 * |script|
  }

  /** The network lets so many bytes through. */
  ghost predicate Reaches(script: seq<Chance>, left: nat) {
    Calm(script) && |script| >= 3 * left + (SECTOR + 4) * Bads(script) + 2
  }

  /** Without a setback three chances for each byte and two more are enough. */
  lemma AllGoodReaches(script: seq<Chance>, left: nat)
    requires forall i :: 0 <= i < |script| ==> script[i].ok && script[i].header == Complete
    requires |script| >= 3 * left + 2
    ensures Reaches(script, left)
  {
    AllGood(script);
    forall i, j | 0 <= i <= j <= |script|
      ensures Bads(script[i..j]) == 0
    {
      AllGood(script[i..j]);
    }
  }

  lemma {:induction false} AllGood(s: seq<Chance>)
    requires forall i :: 0 <= i < |s| ==> s[i].ok && s[i].header == Complete
    ensures Bads(s) == 0
  {
    if |s| > 0 {
      AllGood(s[..|s| - 1]);
    }
  }

  lemma {:induction false} BadsConcat(a: seq<Chance>, b: seq<Chance>)
    ensures Bads(a + b) == Bads(a) + Bads(b)
    decreases |b|
  {
    if |b| == 0 {
      assert a + b == a;
    } else {
      BadsConcat(a, b[..|b| - 1]);
      assert (a + b)[..|a + b| - 1] == a + b[..|b| - 1];
    }
  }

  lemma BadsFirst(s: seq<Chance>)
    requires |s| > 0
    ensures Bads(s) == (if Bad(s[0]) then 1 else 0) + Bads(s[1..])
  {
    assert s == [s[0]] + s[1..];
    BadsConcat([s[0]], s[1..]);
    assert [s[0]][..0] == [];
  }

  lemma CalmFront(recent: seq<Chance>, script: seq<Chance>, n: nat)
    requires Calm(recent + script) && n <= |script| && |recent| + n <= WINDOW
    ensures Bads(recent) + Bads(script[..n]) < MAX_DOWNLOAD_FILE_TRIES
  {
    assert (recent + script)[0..|recent| + n] == recent + script[..n];
    BadsConcat(recent, script[..n]);
  }

  lemma CalmBehind(a: seq<Chance>, b: seq<Chance>)
    requires Calm(a + b)
    ensures Calm(b)
  {
    forall i, j | 0 <= i <= j <= |b| && j - i <= WINDOW
      ensures Bads(b[i..j]) < MAX_DOWNLOAD_FILE_TRIES
    {
      assert (a + b)[|a| + i..|a| + j] == b[i..j];
    }
  }

  /** `g` bounds the chances since the last bytes were stored that neither were bad nor belong to an attempt that was;
      each bad one spoils at most three others. */
  ghost predicate Healthy(recent: seq<Chance>, script: seq<Chance>, tries: nat, g: nat) {
    && Calm(recent + script) && tries <= Bads(recent) < MAX_DOWNLOAD_FILE_TRIES
    && |recent| <= 4 * Bads(recent) + g
  }

  /** Connecting succeeds, and it uses up bad chances and one more. */
  lemma {:induction false} Reconnects(recent: seq<Chance>, script: seq<Chance>, n: nat)
    requires Calm(recent + script) && Bads(script) < |script|
    requires n + Bads(recent) >= MAX_DOWNLOAD_FILE_TRIES && |recent| + n <= WINDOW
    ensures Attempts(script, n).0 && Spent(script, |script| - |Attempts(script, n).1|, n)
    ensures Attempts(script, n).1 == script[|script| - |Attempts(script, n).1|..]
    decreases n
  {
    hide Calm, Bads, Spent;
    CalmFront(recent, script, 0);
    NoBads(script[..0]);
    if script[0].ok {
      SpentOne(script, n);
    } else {
      var more, rest := recent + [script[0]], script[1..];
      assert more + rest == recent + script;
      BadsMore(recent, script[0]);
      BadsFirst(script);
      Reconnects(more, rest, n - 1);
      SpentMore(script, |rest| - |Attempts(rest, n - 1).1|, n - 1);
    }
  }

  lemma NoBads(s: seq<Chance>)
    requires |s| == 0
    ensures Bads(s) == 0
  {}

  lemma BadsMore(s: seq<Chance>, c: Chance)
    ensures Bads(s + [c]) == Bads(s) + if Bad(c) then 1 else 0
  {
    assert (s + [c])[..|s|] == s;
  }

  lemma SpentOne(script: seq<Chance>, n: nat)
    requires |script| > 0 && n > 0
    ensures Spent(script, 1, n)
  {
    assert script == script[..1] + script[1..];
    BadsConcat(script[..1], script[1..]);
  }

  /** All of these chances but the last are bad. */
  predicate Spent(script: seq<Chance>, m: nat, n: nat) {
    1 <= m <= n && m <= |script| && m <= Bads(script[..m]) + 1 && Bads(script) == Bads(script[..m]) + Bads(script[m..])
  }

  lemma SpentMore(script: seq<Chance>, m: nat, n: nat)
    requires |script| > 0 && Bad(script[0]) && Spent(script[1..], m, n)
    ensures Spent(script, m + 1, n + 1) && script[m + 1..] == script[1..][m..]
  {
    var rest := script[1..];
    assert script[..m + 1][1..] == rest[..m] && script[..m + 1][0] == script[0];
    assert script[m + 1..] == rest[m..];
    BadsFirst(script[..m + 1]);
    BadsFirst(script);
  }

  lemma {:induction false} AttemptsMore(script: seq<Chance>, n: nat, k: nat)
    requires n <= k && Attempts(script, n).0
    ensures Attempts(script, k) == Attempts(script, n)
    decreases n
  {
    if n > 0 && |script| > 0 && !script[0].ok {
      AttemptsMore(script[1..], n - 1, k - 1);
    }
  }

  /** A download of so many more bytes gets on: the network will let them through, and the flash works. */
  ghost predicate GetsOn(recent: seq<Chance>, script: seq<Chance>, flash: seq<Chance>, tries: nat, g: nat, left: nat,
                         spare: nat) {
    Healthy(recent, script, tries, g) && Lasts(script, left, spare) && Works(flash, script)
  }

  lemma Nonempty(recent: seq<Chance>, script: seq<Chance>, flash: seq<Chance>, tries: nat, g: nat, left: nat,
                 spare: nat)
    requires GetsOn(recent, script, flash, tries, g, left, spare) && spare < 3 * left
    ensures |script| > 0 && |flash| > 2 && Sound(flash) && tries < MAX_DOWNLOAD_FILE_TRIES
  {
    hide Calm;
  }

  /** A chance that is not lost. */
  lemma StepsOn(recent: seq<Chance>, script: seq<Chance>, flash: seq<Chance>, tries: nat, g: nat, left: nat, spare: nat)
    requires GetsOn(recent, script, flash, tries, g, left, spare) && g <= 2 && |script| > 0
    ensures GetsOn(recent + [script[0]], script[1..], flash, tries, g + 1, left, spare + 1)
    ensures |flash| > 2 * |script[1..]| + 2
  {
    assert recent + [script[0]] + script[1..] == recent + script && script[..1] == [script[0]];
    CalmFront(recent, script, 1);
    BadsConcat(recent, script[..1]);
    BadsFirst(script);
    hide Calm, Sound;
  }

  /** Bytes that are stored. */
  lemma StoredOn(recent: seq<Chance>, script: seq<Chance>, was: seq<Chance>, flash: seq<Chance>, tries: nat, g: nat,
                 left: nat, spare: nat, more: nat)
    requires GetsOn(recent, script, was, tries, g, left, spare) && |was| > 2 * |script| + 2 && spare <= more
    requires Sound(flash) && |flash| >= |was| - 2
    ensures GetsOn([], script, flash, 0, 0, left, more)
  {
    CalmBehind(recent, script);
    Fresh(script);
    hide Calm, Sound;
  }

  lemma Fresh(script: seq<Chance>)
    requires Calm(script)
    ensures Healthy([], script, 0, 0)
  {
    assert [] + script == script;
  }

  lemma GetsOnFirst(script: seq<Chance>, flash: seq<Chance>, left: nat)
    requires Calm(script) && Lasts(script, left, 0) && Works(flash, script)
    ensures GetsOn([], script, flash, 0, 0, left, 0)
  {
    Fresh(script);
  }

  /** What is known all along: the tries do not run out, and the flash works. */
  lemma TriesLeft(recent: seq<Chance>, script: seq<Chance>, flash: seq<Chance>, tries: nat, left: nat)
    requires GetsOn(recent, script, flash, tries, 0, left, 0)
    ensures tries < MAX_DOWNLOAD_FILE_TRIES && |flash| > 0 && Sound(flash)
  {
    hide Calm, Sound;
  }

  lemma RangeDone(recent: seq<Chance>, script: seq<Chance>, flash: seq<Chance>, left: nat, n: nat)
    requires GetsOn(recent, script, flash, 0, 0, left, 2 + n) && 0 < n <= left
    ensures GetsOn(recent, script, flash, 0, 0, left - n, 0)
  {
    hide Healthy, Works;
  }

  /** A chance that is lost, and a new connection. */
  lemma SetBack(recent: seq<Chance>, script: seq<Chance>, flash: seq<Chance>, tries: nat, g: nat, left: nat, spare: nat)
    returns (since: seq<Chance>)
    requires GetsOn(recent, script, flash, tries, g, left, spare) && g <= 2 && |script| > 0 && Bad(script[0])
    requires spare <= SECTOR + 2 && left > 0
    ensures
      var r := Attempts(script[1..], 4);
      r.0 && GetsOn(since, r.1, flash, tries + 1, 0, left, 0)
  {
    hide Calm, Attempts, Sound;
    var rest, more := script[1..], recent + [script[0]];
    assert more + rest == recent + script;
    CalmFront(recent, script, 1);
    assert script[..1] == [script[0]];
    BadsFirst(script[..1]);
    BadsFirst(script);
    BadsConcat(recent, script[..1]);
    var n := MAX_DOWNLOAD_FILE_TRIES - Bads(more);
    Reconnects(more, rest, n);
    AttemptsMore(rest, n, 4);
    var m := |rest| - |Attempts(rest, 4).1|;
    since := more + rest[..m];
    assert since + rest[m..] == more + rest;
    CalmFront(more, rest, m);
    BadsConcat(more, rest[..m]);
  }

  lemma RangeStarts(cells: seq<bv8>, file: seq<bv8>, l: nat, firstByte: bv8)
    requires l % SECTOR == 0 && l + SECTOR <= |cells| && Downloaded(cells, file, l) && (l > 0 ==> firstByte == file[0])
    ensures InRange(cells, file, l, l, 0, firstByte)
  {}

  lemma RangeEnds(cells: seq<bv8>, file: seq<bv8>, l: nat, c: nat, writespace: nat, firstByte: bv8)
    requires InRange(cells, file, l, c, writespace, firstByte)
    ensures Downloaded(cells, file, c) && (c > 0 ==> c <= |file| && firstByte == file[0])
  {}

  /** A connection over a calm network, and what is left of it. */
  lemma Connects(script: seq<Chance>)
    requires Calm(script) && Bads(script) < |script|
    ensures
      var r := Attempts(script, 4);
      && r.0 && Calm(r.1) && |r.1| <= |script| && Bads(r.1) <= Bads(script)
      && |script| - |r.1| <= Bads(script) - Bads(r.1) + 1
  {
    hide Calm, Attempts;
    assert [] + script == script;
    Reconnects([], script, 4);
    var m := |script| - |Attempts(script, 4).1|;
    assert script == script[..m] + script[m..];
    CalmBehind(script[..m], script[m..]);
  }

  /** The file is located and a connection made, and enough of the network is left. */
  lemma TwoConnections(script: seq<Chance>, flash: seq<Chance>, left: nat)
    requires Reaches(script, left) && Works(flash, script)
    ensures
      var located := Attempts(script, 4);
      var connected := Attempts(located.1, 4);
      located.0 && connected.0 && GetsOn([], connected.1, flash, 0, 0, left, 0)
  {
    hide Calm, Attempts, Sound;
    Connects(script);
    Connects(Attempts(script, 4).1);
    GetsOnFirst(Attempts(Attempts(script, 4).1, 4).1, flash, left);
  }

  lemma InsideSlot(cells: seq<bv8>, file: seq<bv8>, c: nat, firstByte: bv8)
    requires Resumable(cells, file, c, firstByte)
    ensures c <= |cells|
  {}

  lemma NothingYet(cells: seq<bv8>, file: seq<bv8>, firstByte: bv8)
    ensures Resumable(cells, file, 0, firstByte)
  {}

  /** The signature is good for nothing else. */
  ghost predicate OnlyFile(genuine: seq<bv8> -> bool, file: seq<bv8>) {
    forall h :: genuine(h) ==> h == file
  }

  class Installer {
    const chip: Chip
    const file: seq<bv8>      // what the server serves
    var firstByte: bv8        // file_first_byte
    var script: seq<Chance>   // the network, until it goes down for good
    var flash: seq<Chance>    // the flash, until it fails for good
    ghost var seen: seq<bv8>  // byte 0 of the slot after each flash operation

    ghost predicate Valid()
      reads this, chip
    {
      chip.cells.Length > 0 && chip.cells.Length % SECTOR == 0 && |file| > 0
    }

    /** The slot's size, less sixteen bytes. */
    function MaxFileSize(): nat
      requires Valid()
      reads this, chip
    {
      chip.cells.Length - 16
    }

    constructor (chip: Chip, file: seq<bv8>, script: seq<Chance>, flash: seq<Chance>)
      requires chip.cells.Length > 0 && chip.cells.Length % SECTOR == 0 && |file| > 0
      ensures Valid() && this.chip == chip && this.file == file && firstByte == ERASED
      ensures this.script == script && this.flash == flash && seen == []
    {
      this.chip, this.file, firstByte, this.script, this.flash := chip, file, ERASED, script, flash;
      seen := [];
    }

    method Next() returns (c: Chance)
      modifies this`script
      ensures if old(script) == [] then !c.ok && script == [] else c == old(script)[0] && script == old(script)[1..]
    {
      if script == [] {
        c := Chance(false, 0, Complete);
      } else {
        c, script := script[0], script[1..];
      }
    }

    method NextOfFlash() returns (c: Chance)
      modifies this`flash
      ensures if old(flash) == [] then !c.ok && flash == [] else c == old(flash)[0] && flash == old(flash)[1..]
    {
      if flash == [] {
        c := Chance(false, 0, Complete);
      } else {
        c, flash := flash[0], flash[1..];
      }
    }

    /** `new_connection`: four attempts. */
    method NewConnection() returns (connected: bool)
      modifies this`script
      ensures (connected, script) == Attempts(old(script), 4)
    {
      var tries := 0;
      var c := Next();
      while !c.ok && tries < 3
        invariant tries <= 3
        invariant if c.ok then Attempts(old(script), 4) == (true, script)
                  else Attempts(old(script), 4) == Attempts(script, 3 - tries)
        decreases 3 - tries
      {
        tries := tries + 1;
        c := Next();
      }
      connected := c.ok;
    }

    method Erase(addr: nat) returns (ok: bool)
      requires Valid() && addr % SECTOR == 0 && addr + SECTOR <= chip.cells.Length
      modifies this`flash, this`seen, chip.cells
      ensures Valid() && (old(|flash| > 0 && Sound(flash)) ==> ok && Sound(flash) && |flash| == old(|flash|) - 1)
      ensures chip.cells[..] == if ok then Wiped(old(chip.cells[..]), addr) else old(chip.cells[..])
      ensures seen == if ok then old(seen) + [chip.cells[0]] else old(seen)
    {
      var c := NextOfFlash();
      ok := chip.EraseSector(addr, !c.ok);
      if ok {
        seen := seen + [chip.cells[0]];
      }
    }

    /** Every write the download makes lands on blank cells. */
    method WriteBlank(addr: nat, data: seq<bv8>) returns (ok: bool)
      requires Valid() && 0 < addr && addr + |data| <= chip.cells.Length
      requires Blank(chip.cells[..], addr, addr + |data|)
      modifies this`flash, this`seen, chip.cells
      ensures Valid() && (old(|flash| > 0 && Sound(flash)) ==> ok && Sound(flash) && |flash| == old(|flash|) - 1)
      ensures forall i :: 0 <= i < chip.cells.Length && !(addr <= i < addr + |data|) ==>
        chip.cells[i] == old(chip.cells[i])
      ensures ok ==> forall i :: addr <= i < addr + |data| ==> chip.cells[i] == data[i - addr]
      ensures seen == old(seen) + [chip.cells[0]]
    {
      ghost var before := chip.cells[..];
      var c := NextOfFlash();
      var done := if c.ok then |data| else if c.n < |data| then c.n else if |data| > 0 then |data| - 1 else 0;
      ok := chip.Write(addr, data, done);
      seen := seen + [chip.cells[0]];
      if ok {
        ReadsBackIffNoBitNeedsSetting(before, addr, data);
        var back := chip.cells[..][addr..addr + |data|];
        assert forall i :: addr <= i < addr + |data| ==> chip.cells[i] == back[i - addr];
      }
    }

    /** What the flash operations since `n` have left in byte 0. */
    ghost predicate SeenSince(n: nat, b: bv8)
      reads this
    {
      n <= |seen| && forall k :: n <= k < |seen| ==> seen[k] == b
    }

    /** Flash operations in the sector at `l` leave byte 0 blank if that is the first sector, and alone if not. */
    twostate predicate Withheld(l: nat)
      requires chip.cells.Length > 0
      reads this, chip, chip.cells
    {
      && old(seen) <= seen && SeenSince(|old(seen)|, chip.cells[0])
      && (if seen == old(seen) || l > 0 then chip.cells[0] == old(chip.cells[0]) else chip.cells[0] == ERASED)
    }

    /** Cells outside the sector at `l` are as they were, byte 0 in particular if that is not the first sector. */
    twostate predicate OnlySector(l: nat)
      reads this, chip, chip.cells
    {
      forall i :: 0 <= i < chip.cells.Length && !(l <= i < l + SECTOR) ==> chip.cells[i] == old(chip.cells[i])
    }

    /** Erases the sector before its first bytes and programs `bytes` at `collected`, all but byte 0. */
    method Store(bytes: seq<bv8>, l: nat, collected: nat, writespace: nat) returns (result: int, writespace': nat)
      requires Valid() && bytes != [] && collected + |bytes| <= |file|
      requires bytes == file[collected..collected + |bytes|] && collected + |bytes| <= l + SECTOR
      requires InRange(chip.cells[..], file, l, collected, writespace, firstByte)
      modifies this`flash, this`seen, this`firstByte, chip.cells
      ensures Valid() && result in {0, -6, -7, -8}
      ensures old(|flash| > 1 && Sound(flash)) ==> result == 0 && Sound(flash) && |flash| >= old(|flash|) - 2
      ensures result == 0 ==> InRange(chip.cells[..], file, l, collected + |bytes|, writespace', firstByte)
      ensures Downloaded(chip.cells[..], file, l) && (l > 0 ==> firstByte == file[0])
      ensures OnlySector(l) && Withheld(l)
      ensures result == 0 ==> seen != old(seen)
    {
      hide Sound;
      writespace' := writespace;
      var ok;
      if writespace < |bytes| {
        ok := Erase(collected);
        if !ok {
          return -6, writespace';
        }
        writespace' := writespace' + SECTOR;
      }
      ghost var cells := chip.cells[..];
      assert Blank(cells, if collected == 0 then 1 else collected, l + SECTOR);
      if collected > 0 {
        ok := WriteBlank(collected, bytes);
        if !ok {
          return -7, writespace';
        }
      } else {
        firstByte := bytes[0];
        ok := WriteBlank(1, bytes[1..]);
        if !ok {
          return -8, writespace';
        }
      }
      writespace' := writespace' - |bytes|;
      result := 0;
    }

    /** How many body bytes a receive delivers when `left` are still to come. */
    static function Delivered(n: nat, left: nat): nat {
      var most := if left < RECEIVE_SIZE then left else RECEIVE_SIZE;
      if n < most then n else most
    }

    /** One read of the response to a request for the range at `l`: if it fails, or if the headers are of no use,
        nothing is stored and the range starts over. `more` says that it is still being read. */
    method Receive(l: nat, r: Reading, tries: nat, length: nat, ghost recent: seq<Chance>)
      returns (result: int, more: bool, r': Reading, connected: bool, tries': nat, length': nat,
        ghost since: seq<Chance>)
      requires Valid() && l % SECTOR == 0 && l < |file| && l + SECTOR <= chip.cells.Length
      requires r.received < RangeSize(file, l) && (r.header ==> r.received == 0)
      requires InRange(chip.cells[..], file, l, l + r.received, r.writespace, firstByte)
      requires Downloaded(chip.cells[..], file, l) && (l > 0 ==> firstByte == file[0])
      modifies this`script, this`flash, this`seen, this`firstByte, chip.cells
      ensures Valid() && |script| <= |old(script)| && result in {0, -6, -7, -8, -10}
      ensures result == 0 && !more <==> old(script == [] || !script[0].ok || (r.header && script[0].header != Complete))
      ensures result == 0 && !more ==>
        && tries' == tries + 1 && length' == length
        && seen == old(seen) && unchanged(chip.cells) && unchanged(this`firstByte)
      ensures result == 0 && more ==>
        && |script| < |old(script)| && connected && !r'.header && length' == |file| <= MaxFileSize()
        && r.received <= r'.received <= RangeSize(file, l)
        && InRange(chip.cells[..], file, l, l + r'.received, r'.writespace, firstByte)
        && if r'.received > r.received then tries' == 0 && seen != old(seen) else tries' == tries
      ensures result == -10 ==> |file| > MaxFileSize()
      ensures length' == length || length' == |file|
      ensures Downloaded(chip.cells[..], file, l) && (l > 0 ==> firstByte == file[0])
      ensures OnlySector(l) && Withheld(l)
      ensures |file| <= MaxFileSize() && old(GetsOn(recent, script, flash, tries, r.Slack(), |file| - l, r.Spare())) ==>
        && result == 0 && connected
        && if more then GetsOn(since, script, flash, tries', r'.Slack(), |file| - l, r'.Spare())
           else GetsOn(since, script, flash, tries', 0, |file| - l, 0)
    {
      hide GetsOn, Sound, Calm, Attempts, InRange, Downloaded, Bads;
      ghost var left := |file| - l;
      ghost var goes := |file| <= MaxFileSize() && GetsOn(recent, script, flash, tries, r.Slack(), left, r.Spare());
      ghost var start, was := script, flash;
      if goes {
        Nonempty(recent, script, flash, tries, r.Slack(), left, r.Spare());
      }
      result, more, r', connected, tries', length', since := 0, true, r, true, tries, length, recent;
      var c := Next();
      if !c.ok || (r.header && c.header != Complete) {
        connected := NewConnection();
        if goes {
          since := SetBack(recent, start, flash, tries, r.Slack(), left, r.Spare());
        }
        return 0, false, r, connected, tries + 1, length, since;
      }
      if goes {
        StepsOn(recent, start, flash, tries, r.Slack(), left, r.Spare());
      }
      var n := Delivered(c.n, RangeSize(file, l) - r.received);
      if !r.header && n == 0 {
        n := 1;
      }
      r', length', since := r.(header := false), |file|, recent + [c];
      if |file| > MaxFileSize() {
        result := -10;
        return;
      }
      if n > 0 {
        tries' := 0;
        var collected, writespace := l + r.received, 0;
        result, writespace := Store(file[collected..collected + n], l, collected, r.writespace);
        r' := Reading(r.received + n, writespace, false);
        if goes {
          StoredOn(since, script, was, flash, tries, r.Slack() + 1, left, r.Spare() + 1, r'.Spare());
        }
        since := [];
      }
    }

    /** The loop that reads the response: headers, then body bytes in whatever pieces they come, until the announced
        length is there or the connection fails. */
    method ReceiveRange(l: nat, tries: nat, length: nat, ghost recent: seq<Chance>)
      returns (result: int, collected: nat, connected: bool, tries': nat, length': nat, ghost since: seq<Chance>)
      requires Valid() && l % SECTOR == 0 && l < |file| && l + SECTOR <= chip.cells.Length
      requires Downloaded(chip.cells[..], file, l) && (l > 0 ==> firstByte == file[0])
      modifies this`script, this`flash, this`seen, this`firstByte, chip.cells
      ensures Valid() && |script| <= |old(script)| && result in {0, -6, -7, -8, -10}
      ensures old(script == [] || !script[0].ok || script[0].header != Complete) ==>
        && result == 0 && collected == l && length' == length && tries' == tries + 1
        && seen == old(seen) && unchanged(chip.cells) && firstByte == old(firstByte)
      ensures result == -10 ==> |file| > MaxFileSize()
      ensures result == 0 ==> collected == l || collected == l + RangeSize(file, l)
      ensures result == 0 ==> Downloaded(chip.cells[..], file, collected) && (collected > 0 ==> firstByte == file[0])
      ensures result == 0 && collected > l ==> |file| <= MaxFileSize() && tries' == 0 && connected
      ensures Downloaded(chip.cells[..], file, l) && (l > 0 ==> firstByte == file[0])
      ensures OnlySector(l) && Withheld(l)
      ensures result == 0 && collected > l ==> seen != old(seen) && length' == |file|
      ensures length' == length || length' == |file|
      ensures |file| <= MaxFileSize() && old(GetsOn(recent, script, flash, tries, 1, |file| - l, 1)) ==>
        result == 0 && connected && GetsOn(since, script, flash, tries', 0, |file| - collected, 0)
    {
      hide GetsOn, InRange, Downloaded;
      RangeStarts(chip.cells[..], file, l, firstByte);
      connected, tries', length', since := true, tries, length, recent;
      ghost var goes := |file| <= MaxFileSize() && GetsOn(recent, script, flash, tries, 1, |file| - l, 1);
      var r, more := Reading(0, 0, true), true;
      while r.received < RangeSize(file, l)
        invariant Valid() && |script| <= |old(script)| && connected && r.received <= RangeSize(file, l)
        invariant InRange(chip.cells[..], file, l, l + r.received, r.writespace, firstByte)
        invariant Downloaded(chip.cells[..], file, l) && (l > 0 ==> firstByte == file[0])
        invariant OnlySector(l) && Withheld(l)
        invariant if r.header
          then r.received == 0 && seen == old(seen) && unchanged(chip.cells) && unchanged(this`firstByte)
          else length' == |file| <= MaxFileSize()
        invariant if r.header then script == old(script) && tries' == tries && length' == length
          else old(script != [] && script[0].ok && script[0].header == Complete)
        invariant r.received > 0 ==> tries' == 0 && seen != old(seen)
        invariant goes ==> GetsOn(since, script, flash, tries', r.Slack(), |file| - l, r.Spare())
        decreases |script|
      {
        result, more, r, connected, tries', length', since := Receive(l, r, tries', length', since);
        if result != 0 || !more {
          return result, l, connected, tries', length', since;
        }
      }
      result, collected := 0, l + r.received;
      RangeEnds(chip.cells[..], file, l, collected, r.writespace, firstByte);
      if goes {
        RangeDone(since, script, flash, |file| - l, r.received);
      }
    }

    /** One turn of the download loop: the request for the range at `l` is sent, and the response read. */
    method GetRange(l: nat, tries: nat, length: nat, ghost recent: seq<Chance>)
      returns (result: int, collected: nat, connected: bool, tries': nat, length': nat, ghost since: seq<Chance>)
      requires Valid() && l < |file| && (l > 0 ==> |file| <= MaxFileSize()) && tries < MAX_DOWNLOAD_FILE_TRIES
      requires Resumable(chip.cells[..], file, l, firstByte)
      modifies this`script, this`flash, this`seen, this`firstByte, chip.cells
      ensures Valid() && |script| <= |old(script)| && (connected ==> |script| < |old(script)|)
      ensures result in {0, -6, -7, -8, -10} && (connected || result != 0 || tries' >= MAX_DOWNLOAD_FILE_TRIES)
      ensures Downloaded(chip.cells[..], file, l) && (l > 0 ==> firstByte == file[0])
      ensures result == 0 ==> l <= collected && Resumable(chip.cells[..], file, collected, firstByte)
      ensures result == 0 && collected > l ==>
        seen != old(seen) && length' == |file| <= MaxFileSize() && tries' < MAX_DOWNLOAD_FILE_TRIES
      ensures length' == length || length' == |file|
      ensures OnlySector(l) && Withheld(l)
      ensures |file| <= MaxFileSize() && old(GetsOn(recent, script, flash, tries, 0, |file| - l, 0)) ==>
        result == 0 && connected && GetsOn(since, script, flash, tries', 0, |file| - collected, 0)
    {
      hide GetsOn, Sound, Calm, Attempts, Bads;
      ghost var start := script;
      ghost var goes := |file| <= MaxFileSize() && GetsOn(recent, script, flash, tries, 0, |file| - l, 0);
      if goes {
        Nonempty(recent, script, flash, tries, 0, |file| - l, 0);
      }
      result, collected, length', since := 0, l, length, recent;
      var c := Next();
      if c.ok {
        if goes {
          StepsOn(recent, start, flash, tries, 0, |file| - l, 0);
        }
        result, collected, connected, tries', length', since := ReceiveRange(l, tries, length, recent + [c]);
        if result != 0 {
          return;
        }
      } else {
        connected := NewConnection();
        if goes {
          since := SetBack(recent, start, flash, tries, 0, |file| - l, 0);
        }
        tries' := tries + 1;
      }
      if !connected {
        tries' := MAX_DOWNLOAD_FILE_TRIES;
      }
    }

    /** The download loop, once there is a connection: it ends with the whole file, or without a connection, or after
        too many tries. */
    method GetRanges(resume: nat) returns (result: int, collected: nat)
      requires Valid() && resume < |file| && (resume > 0 ==> |file| <= MaxFileSize())
      requires Resumable(chip.cells[..], file, resume, firstByte)
      modifies this`script, this`flash, this`seen, this`firstByte, chip.cells
      ensures Valid() && result in {0, 1, -6, -7, -8, -10}
      ensures |file| <= MaxFileSize() && old(GetsOn([], script, flash, 0, 0, |file| - resume, 0)) ==>
        result == 0 && |flash| > 0 && Sound(flash)
      ensures Resumable(chip.cells[..], file, collected, firstByte) && resume <= collected
      ensures result == 0 ==> collected == |file|
      ensures result < 0 ==> collected == resume
      ensures result == 1 ==> collected < |file|
      ensures collected > 0 ==> |file| <= MaxFileSize()
      ensures Withheld(resume) && (resume < collected ==> seen != old(seen))
      ensures forall i :: |file| + SECTOR <= i < chip.cells.Length ==> chip.cells[i] == old(chip.cells[i])
    {
      hide GetsOn, Sound;
      collected := resume;
      var length: nat, tries: nat := collected + 1, 0;
      ghost var recent: seq<Chance> := [];
      ghost var goes := |file| <= MaxFileSize() && GetsOn([], script, flash, 0, 0, |file| - resume, 0);
      var connected := true;
      while connected && collected < length && tries < MAX_DOWNLOAD_FILE_TRIES
        invariant Valid()
        invariant connected || tries >= MAX_DOWNLOAD_FILE_TRIES
        invariant resume <= collected && Resumable(chip.cells[..], file, collected, firstByte)
        invariant length == |file| || (length == resume + 1 && collected == resume)
        invariant collected > 0 ==> |file| <= MaxFileSize()
        invariant tries >= MAX_DOWNLOAD_FILE_TRIES ==> collected < |file|
        invariant Withheld(resume) && (resume < collected ==> seen != old(seen))
        invariant forall i :: |file| + SECTOR <= i < chip.cells.Length ==> chip.cells[i] == old(chip.cells[i])
        invariant goes ==> connected && GetsOn(recent, script, flash, tries, 0, |file| - collected, 0)
        decreases connected, |script|
      {
        result, collected, connected, tries, length, recent := GetRange(collected, tries, length, recent);
        if result != 0 {
          return result, resume;
        }
      }
      if goes {
        TriesLeft(recent, script, flash, tries, |file| - collected);
      }
      result := if tries >= MAX_DOWNLOAD_FILE_TRIES then 1 else 0;
    }

    /** `ota_get_file_part` into a flash slot. It returns 0 when the whole file is there, and also when no connection
        could be made after the file was located; nothing was downloaded then. Whatever the network and the flash do,
        what it reports as collected is really there and can be resumed from; the slot's first byte stays blank from
        the first erase on. */
    method GetFile(resume: nat) returns (result: int, collected: nat)
      requires Valid() && resume < |file| && (resume > 0 ==> |file| <= MaxFileSize())
      requires Resumable(chip.cells[..], file, resume, firstByte)
      modifies this`script, this`flash, this`seen, this`firstByte, chip.cells
      ensures Valid() && result in {0, 1, -1, -6, -7, -8, -10}
      ensures |file| <= MaxFileSize() && old(Reaches(script, |file| - resume) && Works(flash, script)) ==>
        result == 0 && collected == |file| && |flash| > 0 && Sound(flash)
      ensures
        var located := Attempts(old(script), 4);
        var connected := Attempts(located.1, 4);
        && (result == -1 <==> !located.0)
        && (located.0 && !connected.0 ==> result == 0 && collected == resume)
        && (result == 0 ==> (collected == |file| <==> connected.0))
      ensures Resumable(chip.cells[..], file, collected, firstByte) && resume <= collected
      ensures result < 0 ==> collected == resume
      ensures result == 1 ==> collected < |file|
      ensures collected > 0 ==> |file| <= MaxFileSize()
      ensures Withheld(resume) && (resume < collected ==> seen != old(seen))
      ensures forall i :: |file| + SECTOR <= i < chip.cells.Length ==> chip.cells[i] == old(chip.cells[i])
    {
      hide Attempts, Downloaded, Calm, GetsOn, Reaches, Sound, Works;
      ghost var start := script;
      ghost var goes := Reaches(start, |file| - resume) && Works(flash, start);
      if goes {
        TwoConnections(start, flash, |file| - resume);
      }
      var located := NewConnection();  // ota_get_final_location, with as many attempts
      if !located {
        return -1, resume;
      }
      var connected := NewConnection();
      if !connected {
        return 0, resume;
      }
      result, collected := GetRanges(resume);
    }

    /** The block loop of `ota_verify_sign`, up to the call that checks the signature of the hash. */
    method HashInput(size: nat) returns (hashed: seq<bv8>)
      requires size <= chip.cells.Length
      ensures hashed == Hashed(chip.cells[..], size, firstByte)
    {
      var bytes := 0;
      hashed := [];
      while bytes < size - 1024
        invariant bytes <= size && (bytes > 0 ==> size > 1024)
        invariant hashed == if bytes == 0 then [] else [firstByte] + chip.cells[1..bytes]
      {
        var buffer := chip.cells[bytes..bytes + 1024];
        if bytes == 0 {
          buffer := buffer[0 := firstByte];
          assert buffer == [firstByte] + chip.cells[1..1024];
        } else {
          assert chip.cells[1..bytes] + buffer == chip.cells[1..bytes + 1024];
        }
        hashed := hashed + buffer;
        bytes := bytes + 1024;
      }
      hashed := hashed + chip.cells[bytes..size];
    }

    /** `ota_finalize_file`: a failing write leaves the slot as it was. */
    method Finalize() returns (ok: bool)
      requires Valid()
      modifies this`flash, this`seen, chip.cells
      ensures Valid() && seen == old(seen) + [chip.cells[0]] && (old(|flash| > 0 && Sound(flash)) ==> ok)
      ensures chip.cells[..] == if ok then Programmed(old(chip.cells[..]), 0, [firstByte]) else old(chip.cells[..])
    {
      var c := NextOfFlash();
      ghost var before := chip.cells[..];
      ok := chip.Write(0, [firstByte], if c.ok then 1 else 0);
      seen := seen + [chip.cells[0]];
      if !ok {
        assert chip.cells[..] == before;
      }
    }

    /** The loop that downloads in up to five parts, each of which goes on where the one before stopped. */
    method GetParts() returns (result: int, size: nat)
      requires Valid()
      modifies this`script, this`flash, this`seen, this`firstByte, chip.cells
      ensures Valid() && result in {0, 1, -1, -6, -7, -8, -10}
      ensures Resumable(chip.cells[..], file, size, firstByte) && Withheld(0) && (size > 0 ==> seen != old(seen))
      ensures size <= chip.cells.Length && (size > 0 ==> |file| <= MaxFileSize())
      ensures |file| <= MaxFileSize() && old(Reaches(script, |file|) && Works(flash, script)) ==>
        result == 0 && size == |file| && |flash| > 0 && Sound(flash)
    {
      hide Resumable, Reaches, Sound, Attempts, Works;
      NothingYet(chip.cells[..], file, firstByte);
      ghost var goes := |file| <= MaxFileSize() && Reaches(script, |file|) && Works(flash, script);
      var parts := 0;
      size, result := 0, 1;
      while result == 1 && parts < 5
        invariant Valid() && result in {0, 1, -1, -6, -7, -8, -10}
        invariant Resumable(chip.cells[..], file, size, firstByte) && Withheld(0) && (size > 0 ==> seen != old(seen))
        invariant (result == 1 ==> size < |file|) && (size > 0 ==> |file| <= MaxFileSize())
        invariant goes && parts == 0 ==> Reaches(script, |file|) && Works(flash, script) && size == 0 && result == 1
        invariant goes && parts > 0 ==> result == 0 && size == |file| && |flash| > 0 && Sound(flash)
        decreases 5 - parts
      {
        parts := parts + 1;
        result, size := GetFile(size);
      }
      InsideSlot(chip.cells[..], file, size, firstByte);
    }

    /** The installer's loop: download in up to five resumed parts, check the signature, and only then write
        the first byte. `genuine` says which hashed bytes the signature is good for. From the first erase to
        that last write the slot cannot boot, and if only the file is genuine it ends up being the file;
        a file of one block that starts with a programmed byte can never be installed. */
    method Install(genuine: seq<bv8> -> bool) returns (installed: bool)
      requires Valid()
      modifies this`script, this`flash, this`seen, this`firstByte, chip.cells
      ensures Valid() && old(seen) <= seen
      ensures
        var gets := |file| <= MaxFileSize() && old(Reaches(script, |file|) && Works(flash, script));
        gets && genuine(file) && (|file| > 1024 || file[0] == ERASED) ==> installed && chip.cells[..|file|] == file
      ensures forall k :: |old(seen)| <= k < |seen| - 1 ==> seen[k] == ERASED
      ensures !installed ==> chip.cells[0] == ERASED || chip.cells[0] == old(chip.cells[0])
      ensures installed && OnlyFile(genuine, file) ==> |file| > 1024 || file[0] == ERASED
      ensures installed && OnlyFile(genuine, file) ==>
        |file| <= chip.cells.Length && chip.cells[..|file|] == file
    {
      hide Reaches, Works, Sound, Hashed, OnlyFile, Downloaded;
      ghost var goes := |file| <= MaxFileSize() && Reaches(script, |file|) && Works(flash, script);
      installed := false;
      var result, size := GetParts();
      if result == 0 {
        var hashed := HashInput(size);
        if goes {
          HashedIsFileIff(chip.cells[..], file, firstByte);
          FinishedIsFile(chip.cells[..], file, firstByte);
        }
        if genuine(hashed) {
          FinishedSlot(chip.cells[..], file, size, firstByte, genuine);
          installed := Finalize();
        }
      }
    }
  }

  lemma FinishedIsFile(cells: seq<bv8>, file: seq<bv8>, firstByte: bv8)
    requires Resumable(cells, file, |file|, firstByte) && |file| > 0 && cells[0] == ERASED
    ensures Programmed(cells, 0, [firstByte])[..|file|] == file
  {
    AndKeeps(cells[0], firstByte);
    var done := Programmed(cells, 0, [firstByte])[..|file|];
    assert forall i :: 0 <= i < |file| ==> done[i] == file[i];
  }

  /** A slot whose hash only the file has, once its first byte is programmed, is the file. */
  lemma FinishedSlot(cells: seq<bv8>, file: seq<bv8>, size: nat, firstByte: bv8, genuine: seq<bv8> -> bool)
    requires Resumable(cells, file, size, firstByte) && |cells| > 0 && |file| > 0
    requires size > 0 ==> cells[0] == ERASED
    requires genuine(Hashed(cells, size, firstByte))
    ensures OnlyFile(genuine, file) ==>
      size == |file| && (|file| > 1024 || file[0] == ERASED) && Programmed(cells, 0, [firstByte])[..|file|] == file
  {
    if OnlyFile(genuine, file) {
      assert |Hashed(cells, size, firstByte)| == size;
      HashedIsFileIff(cells, file, firstByte);
      FinishedIsFile(cells, file, firstByte);
    }
  }

  /** A run in which the file is located and no connection succeeds after that: the result is 0, and nothing was
      downloaded. */
  method LocatedOnly(chip: Chip, file: seq<bv8>) returns (result: int, collected: nat)
    requires chip.cells.Length > 0 && chip.cells.Length % SECTOR == 0 && |file| > 0
    modifies chip.cells
    ensures result == 0 && collected == 0
  {
    var script := [Chance(true, 0, Complete)];
    var installer := new Installer(chip, file, script, []);
    assert script[0].ok;
    result, collected := installer.GetFile(0);
  }
}
