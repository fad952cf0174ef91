/** Erasing, programming and verifying a partition of NOR flash over IPC. */
module FlashPartition {
  import opened LittleEndian
  import BitOps

  const CHUNK: nat := 4096

  // --- The device --------------------------------------------------------------------------------

  /** How a request turns out: as asked, refused, or acknowledged with some other effect. */
  datatype Outcome = Performed | Refused | Corrupted(cells: seq<Byte>)

  /** Programming can only clear bits. */
  function Burn(cell: Byte, value: Byte): Byte {
    cell & value
  }

  function Erased(cells: seq<Byte>, n: nat): (r: seq<Byte>)
    requires n <= |cells|
    ensures |r| == |cells|
  {
    seq(|cells|, i requires 0 <= i < |cells| => if i < n then 0xFF else cells[i])
  }

  function Programmed(cells: seq<Byte>, offset: nat, data: seq<Byte>): (r: seq<Byte>)
    requires offset + |data| <= |cells|
    ensures |r| == |cells|
  {
    seq(|cells|, i requires 0 <= i < |cells| =>
      if offset <= i < offset + |data| then Burn(cells[i], data[i - offset]) else cells[i])
  }

  datatype ProgramCall = ProgramCall(offset: nat, data: seq<Byte>)

  /** A partition whose erase and program may go wrong as the script says; reads return what is there. */
  class Partition {
    const eraseSize: nat
    var cells: seq<Byte>
    var script: seq<Outcome>
    /** The program requests received. */
    var programs: seq<ProgramCall>

    constructor (eraseSize: nat, cells: seq<Byte>, script: seq<Outcome>)
      ensures this.eraseSize == eraseSize && this.cells == cells && this.script == script && programs == []
    {
      this.eraseSize, this.cells, this.script, programs := eraseSize, cells, script, [];
    }

    predicate Honest()
      reads this
    {
      forall i | 0 <= i < |script| :: script[i].Performed?
    }

    method NextOutcome() returns (o: Outcome)
      modifies `script
      ensures old(Honest()) ==> Honest() && o == Performed
    {
      if script == [] { return Performed; }
      o := script[0];
      script := script[1..];
    }

    method Erase(n: nat) returns (ok: bool)
      modifies `script, `cells
      ensures |cells| == |old(cells)|
      ensures old(Honest()) ==> Honest() && (ok <==> n <= |cells|) && (ok ==> cells == Erased(old(cells), n))
    {
      var o := NextOutcome();
      match o {
        case Performed =>
          if n > |cells| { return false; }
          cells := Erased(cells, n);
          ok := true;
        case Refused => ok := false;
        case Corrupted(c) =>
          if |c| == |cells| { cells := c; }
          ok := true;
      }
    }

    method Program(offset: nat, data: seq<Byte>) returns (ok: bool)
      modifies `script, `cells, `programs
      ensures |cells| == |old(cells)| && programs == old(programs) + [ProgramCall(offset, data)]
      ensures old(Honest()) ==>
              Honest() && (ok <==> offset + |data| <= |cells|) && (ok ==> cells == Programmed(old(cells), offset, data))
    {
      programs := programs + [ProgramCall(offset, data)];
      var o := NextOutcome();
      match o {
        case Performed =>
          if offset + |data| > |cells| { return false; }
          cells := Programmed(cells, offset, data);
          ok := true;
        case Refused => ok := false;
        case Corrupted(c) =>
          if |c| == |cells| { cells := c; }
          ok := true;
      }
    }

    /** A read past the end comes back short. */
    method ReadBack(offset: nat, n: nat) returns (ok: bool, data: seq<Byte>)
      requires n > 0
      modifies `script
      ensures ok && |data| == n ==> offset + n <= |cells| && data == cells[offset..offset + n]
      ensures old(Honest()) ==> Honest() && ok && (offset + n <= |cells| ==> |data| == n)
    {
      var o := NextOutcome();
      ok := !o.Refused?;
      data := if offset + n <= |cells| then cells[offset..offset + n] else [];
    }
  }

  // --- Erase length ------------------------------------------------------------------------------

  function EraseLen(n: nat, eraseSize: nat): nat
    requires eraseSize > 0
  {
    (n + eraseSize - 1) / eraseSize * eraseSize
  }

  /** The erase covers the data in whole blocks and wastes less than one, so it fits whenever the data does. */
  lemma EraseCovers(n: nat, e: nat)
    requires e > 0
    ensures n <= EraseLen(n, e) < n + e && EraseLen(n, e) % e == 0
    ensures forall blocks: nat | n <= blocks * e :: EraseLen(n, e) <= blocks * e
  {
    var m := n + e - 1;
    var q := m / e;
    assert m == e * q + m % e;
    assert q * e == e * q;
    BitOps.DivModUnique(q * e, e, q, 0);
    forall blocks: nat | n <= blocks * e ensures q * e <= blocks * e {
      BlocksSuffice(q, blocks, e, m);
    }
  }

  lemma BlocksSuffice(q: nat, blocks: nat, e: nat, m: nat)
    requires q * e <= m < blocks * e + e
    ensures q * e <= blocks * e
  {
    Distribute(blocks, e);
    MoreBlocks(if q <= blocks then q else blocks + 1, if q <= blocks then blocks else q, e);
  }

  lemma Distribute(k: nat, e: nat)
    ensures (k + 1) * e == k * e + e
  {
  }

  lemma MoreBlocks(a: nat, b: nat, e: nat)
    requires a <= b
    ensures a * e <= b * e
  {
  }

  // --- Chunks ------------------------------------------------------------------------------------

  function ChunkEnd(data: seq<Byte>, offset: nat): (end: nat)
    requires offset <= |data|
    ensures offset <= end <= |data| && (offset < |data| ==> offset < end)
  {
    if offset + CHUNK < |data| then offset + CHUNK else |data|
  }

  /** The program requests for the data from `offset` on. */
  function Tiles(data: seq<Byte>, offset: nat): seq<ProgramCall>
    requires offset <= |data|
    decreases |data| - offset
  {
    if offset == |data| then []
    else [ProgramCall(offset, data[offset..ChunkEnd(data, offset)])] + Tiles(data, ChunkEnd(data, offset))
  }

  predicate Hits(t: ProgramCall, i: nat) {
    t.offset <= i < t.offset + |t.data|
  }

  /** Request `k`, and no other, carries byte `i`, with value `b`. */
  predicate CarriedBy(tiles: seq<ProgramCall>, k: nat, i: nat, b: Byte) {
    && k < |tiles| && Hits(tiles[k], i) && tiles[k].data[i - tiles[k].offset] == b
    && forall j | 0 <= j < |tiles| && j != k :: !Hits(tiles[j], i)
  }

  /** Every byte of the data goes out in exactly one request, at its own place. */
  lemma {:induction false} TilesCover(data: seq<Byte>, offset: nat, i: nat)
    requires offset <= i < |data|
    ensures exists k :: CarriedBy(Tiles(data, offset), k, i, data[i])
    decreases |data| - offset
  {
    var end := ChunkEnd(data, offset);
    var first := ProgramCall(offset, data[offset..end]);
    TilesStart(data, end);
    assert Tiles(data, offset) == [first] + Tiles(data, end);
    if i < end {
      assert CarriedBy([first] + Tiles(data, end), 0, i, data[i]);
    } else {
      TilesCover(data, end, i);
      var k :| CarriedBy(Tiles(data, end), k, i, data[i]);
      CarriedBehind(first, Tiles(data, end), k, i, data[i]);
    }
  }

  lemma CarriedBehind(first: ProgramCall, rest: seq<ProgramCall>, k: nat, i: nat, b: Byte)
    requires CarriedBy(rest, k, i, b) && !Hits(first, i)
    ensures CarriedBy([first] + rest, k + 1, i, b)
  {
    var all := [first] + rest;
    assert forall j | 1 <= j < |all| :: all[j] == rest[j - 1];
  }

  lemma {:induction false} TilesStart(data: seq<Byte>, offset: nat)
    requires offset <= |data|
    ensures forall t | t in Tiles(data, offset) ::
            offset <= t.offset && 0 < |t.data| <= 4096 && t.offset + |t.data| <= |data|
    decreases |data| - offset
  {
    if offset < |data| { TilesStart(data, ChunkEnd(data, offset)); }
  }

  // --- The flash procedure -----------------------------------------------------------------------

  datatype FlashResult =
    | Done
    | EraseSizeZero
    | EraseFailed
    | ProgramFailed(offset: nat)
    | ReadFailed(offset: nat)
    | ShortRead(offset: nat)
    | Mismatch(offset: nat)

  /** The data up to `n`, erased cells up to `erased`, and what was there behind. */
  function Written(before: seq<Byte>, data: seq<Byte>, n: nat, erased: nat): (r: seq<Byte>)
    requires n <= |data| && erased <= |before|
    ensures |r| == |before|
  {
    seq(|before|, i requires 0 <= i < |before| => if i < n then data[i] else if i < erased then 0xFF else before[i])
  }

  lemma BurnErased(b: Byte)
    ensures Burn(0xFF, b) == b
  {
  }

  lemma ProgramChunk(before: seq<Byte>, data: seq<Byte>, n: nat, end: nat, erased: nat)
    requires n <= end <= |data| <= erased <= |before|
    ensures Programmed(Written(before, data, n, erased), n, data[n..end]) == Written(before, data, end, erased)
  {
    hide Burn;
    var cells := Written(before, data, n, erased);
    forall i | 0 <= i < |cells| ensures Programmed(cells, n, data[n..end])[i] == Written(before, data, end, erased)[i] {
      if n <= i < end { BurnErased(data[i]); }
    }
  }

  /** Addresses travel as 32-bit numbers. */
  function Wire(x: nat): nat {
    x % U32_LIMIT
  }

  method ProgramAll(p: Partition, data: seq<Byte>, ghost clean: bool, ghost before: seq<Byte>, ghost erased: nat)
    returns (r: FlashResult)
    requires |before| == |p.cells|
    requires clean ==>
               && |data| <= U32_LIMIT && p.Honest() && |data| <= erased <= |before|
               && p.cells == Written(before, data, 0, erased)
    modifies p
    ensures |p.cells| == |before|
    ensures r.Done? || r.ProgramFailed?
    ensures r.Done? && |data| <= U32_LIMIT ==> p.programs == old(p.programs) + Tiles(data, 0)
    ensures clean ==> p.Honest() && r.Done? && p.cells == Written(before, data, |data|, erased)
  {
    hide Written, Programmed, Partition.Honest;
    var offset := 0;
    ghost var start := p.programs;
    while offset < |data|
      invariant offset <= |data| && |p.cells| == |before|
      invariant |data| <= U32_LIMIT ==> start + Tiles(data, 0) == p.programs + Tiles(data, offset)
      invariant clean ==> p.Honest() && p.cells == Written(before, data, offset, erased)
    {
      var end := ChunkEnd(data, offset);
      assert |data| <= U32_LIMIT ==> Wire(offset) == offset;
      if clean { ProgramChunk(before, data, offset, end, erased); }
      assert p.programs + Tiles(data, offset) ==
          p.programs + [ProgramCall(offset, data[offset..end])] + Tiles(data, end);
      var ok := p.Program(Wire(offset), data[offset..end]);
      if !ok { return ProgramFailed(offset); }
      offset := end;
    }
    r := Done;
  }

  lemma SliceAgrees(cells: seq<Byte>, data: seq<Byte>, a: nat, b: nat)
    requires a <= b <= |data| <= |cells| && cells[..|data|] == data
    ensures cells[a..b] == data[a..b]
  {
    assert forall i | a <= i < b :: cells[i] == cells[..|data|][i];
  }

  method VerifyAll(p: Partition, data: seq<Byte>) returns (r: FlashResult)
    modifies p`script
    ensures r.Done? || r.ReadFailed? || r.ShortRead? || r.Mismatch?
    ensures r.Done? && |data| <= U32_LIMIT ==> |data| <= |p.cells| && p.cells[..|data|] == data
    ensures old(p.Honest()) && |data| <= U32_LIMIT && |data| <= |p.cells| && p.cells[..|data|] == data ==> r.Done?
  {
    hide Partition.Honest;
    var offset := 0;
    ghost var good := p.Honest() && |data| <= U32_LIMIT && |data| <= |p.cells| && p.cells[..|data|] == data;
    while offset < |data|
      invariant offset <= |data|
      invariant |data| <= U32_LIMIT ==> offset <= |p.cells| && p.cells[..offset] == data[..offset]
      invariant good ==> p.Honest()
    {
      var end := ChunkEnd(data, offset);
      assert |data| <= U32_LIMIT ==> Wire(offset) == offset;
      if good { SliceAgrees(p.cells, data, offset, end); }
      var ok, got := p.ReadBack(Wire(offset), end - offset);
      if !ok { return ReadFailed(offset); }
      if |got| != end - offset { return ShortRead(offset); }
      if got != data[offset..end] { return Mismatch(offset); }
      assert |data| <= U32_LIMIT ==> p.cells[..end] == p.cells[..offset] + p.cells[offset..end];
      assert data[..end] == data[..offset] + data[offset..end];
      offset := end;
    }
    assert data[..offset] == data;
    r := Done;
  }

  /**
   Flashes a partition. Success means the data is there, whatever the device did on the way; an honest
   device succeeds exactly when the erase fits, and is then erased behind the data up to the block end.
   */
  method Flash(p: Partition, data: seq<Byte>) returns (r: FlashResult)
    modifies p
    ensures r.EraseSizeZero? <==> p.eraseSize == 0
    ensures p.eraseSize == 0 ==> p.cells == old(p.cells) && p.programs == old(p.programs)
    ensures r.Done? && |data| <= U32_LIMIT ==>
              |data| <= |p.cells| && p.cells[..|data|] == data && p.programs == old(p.programs) + Tiles(data, 0)
    ensures old(p.Honest()) && p.eraseSize > 0 && EraseLen(|data|, p.eraseSize) < U32_LIMIT ==>
              && (r.Done? <==> EraseLen(|data|, p.eraseSize) <= |old(p.cells)|)
              && (r.Done? ==> p.cells == Written(old(p.cells), data, |data|, EraseLen(|data|, p.eraseSize)))
  {
    hide Partition.Honest, EraseLen, Tiles;
    if p.eraseSize == 0 { return EraseSizeZero; }
    var len := EraseLen(|data|, p.eraseSize);
    EraseCovers(|data|, p.eraseSize);
    ghost var before := p.cells;
    ghost var honest := p.Honest() && len < U32_LIMIT;
    var ok := p.Erase(Wire(len));
    if !ok { return EraseFailed; }
    if honest { ErasedIsWritten(before, data, len); }
    r := ProgramAll(p, data, honest, before, len);
    if !r.Done? { return; }
    if honest { WrittenHolds(before, data, len); }
    r := VerifyAll(p, data);
  }

  lemma ErasedIsWritten(before: seq<Byte>, data: seq<Byte>, len: nat)
    requires len <= |before|
    ensures Erased(before, len) == Written(before, data, 0, len)
  {
  }

  lemma WrittenHolds(before: seq<Byte>, data: seq<Byte>, len: nat)
    requires |data| <= len <= |before|
    ensures Written(before, data, |data|, len)[..|data|] == data
  {
  }
}
