/**
 The `places.bin` firmware image: builder, parser, integrity state and slot
 selection. The data region comes first, tables and footer are at the end.
 */
module PlacesImage {
  import opened Wrappers
  import opened LittleEndian
  import BitOps
  import Crc32

  const MAGIC: nat := 0x504C_4342
  const FOOTER_V1_SIZE: nat := 24
  const FOOTER_V2_SIZE: nat := 48
  const RECORD_SIZE: nat := 16
  /** Bytes taken by `n` table records. */
  function Records(n: nat): nat { 16 * n }

  const STATE_DEFAULT_RAW: nat := 0xFFFF_FFFF
  const STATE_OFFSET_FROM_END: nat := 28

  datatype Partition = Partition(nameHash: nat, offset: nat, size: nat, flags: nat)

  datatype Segment = Segment(dest: nat, fileOffset: nat, data: seq<Byte>, memSize: nat) {
    function FileEnd(): nat { fileOffset + |data| }

    /** Bytes to clear after the copied ones. */
    function ZeroFill(): nat { if memSize >= |data| then memSize - |data| else 0 }
  }

  datatype Version = Version(major: nat, minor: nat, patch: nat)

  datatype Builder = Builder(
    entryPoint: nat, version: Version, timestamp: nat, partitions: seq<Partition>, segments: seq<Segment>)

  // --- Layout of the file -------------------------------------------------------------

  function DataEnd(segments: seq<Segment>): (e: nat)
    ensures forall i | 0 <= i < |segments| :: segments[i].FileEnd() <= e
    ensures e == 0 || exists i :: 0 <= i < |segments| && segments[i].FileEnd() == e
  {
    if segments == [] then 0
    else
      var rest := DataEnd(segments[..|segments| - 1]);
      var last := segments[|segments| - 1].FileEnd();
      if last > rest then last else rest
  }

  /** `(data_end + 3) & !3` */
  function TablesOffset(segments: seq<Segment>): (t: nat)
    requires DataEnd(segments) + 3 < BitOps.U64_LIMIT
    ensures DataEnd(segments) <= t < DataEnd(segments) + 4
  {
    BitOps.AlignUp(DataEnd(segments), 4)
  }

  /** The tables start at the first multiple of four behind the data. */
  lemma {:induction false} TablesAligned(segments: seq<Segment>)
    requires DataEnd(segments) + 3 < BitOps.U64_LIMIT
    ensures TablesOffset(segments) % 4 == 0 && DataEnd(segments) <= TablesOffset(segments) < DataEnd(segments) + 4
  {
    hide BitOps.AlignUp, BitOps.IsPow2, BitOps.Aligned, DataEnd;
    var end, four := DataEnd(segments), 4;
    assert BitOps.IsPow2(four) by { FourIsPow2(); }
    BitOps.AlignUpRoundsUp(end, four);
    BitOps.AlignedIffRemainder(TablesOffset(segments), four);
  }

  lemma FourIsPow2()
    ensures BitOps.IsPow2(4)
  {
    assert BitOps.IsPow2(2);
  }

  function PartitionBytes(p: Partition): (b: seq<Byte>)
    ensures |b| == RECORD_SIZE
  {
    Encode(p.nameHash, 4) + (Encode(p.offset, 4) + (Encode(p.size, 4) + Encode(p.flags, 4)))
  }

  function SegmentBytes(s: Segment): (b: seq<Byte>)
    ensures |b| == RECORD_SIZE
  {
    Encode(s.dest, 4) + (Encode(s.fileOffset, 4) + (Encode(|s.data|, 4) + Encode(s.memSize, 4)))
  }

  function PartitionTable(ps: seq<Partition>): (b: seq<Byte>)
    ensures |b| == Records(|ps|)
  {
    if ps == [] then [] else PartitionTable(ps[..|ps| - 1]) + PartitionBytes(ps[|ps| - 1])
  }

  function SegmentTable(ss: seq<Segment>): (b: seq<Byte>)
    ensures |b| == Records(|ss|)
  {
    if ss == [] then [] else SegmentTable(ss[..|ss| - 1]) + SegmentBytes(ss[|ss| - 1])
  }

  /** Version, timestamp and reserved bytes, between checksum and state. */
  function MetaBytes(b: Builder): (r: seq<Byte>)
    ensures |r| == 16
  {
    Encode(b.version.major, 2) + (Encode(b.version.minor, 2) + (Encode(b.version.patch, 2) +
    (Encode(0xFFFF, 2) + Encode(b.timestamp, 8))))
  }

  /** The last 24 bytes, common to both format versions. */
  function CoreBytes(b: Builder, tables: nat): (r: seq<Byte>)
    ensures |r| == FOOTER_V1_SIZE
  {
    Encode(tables, 4) + (Encode(|b.segments|, 4) + (Encode(|b.partitions|, 4) +
    (Encode(b.entryPoint, 4) + (Encode(2, 4) + Encode(MAGIC, 4)))))
  }

  function FooterBytes(b: Builder, tables: nat, checksum: seq<Byte>): (r: seq<Byte>)
    requires |checksum| == 4
    ensures |r| == FOOTER_V2_SIZE
  {
    checksum + (MetaBytes(b) + (Encode(STATE_DEFAULT_RAW, 4) + CoreBytes(b, tables)))
  }

  // --- Checksum ------------------------------------------------------------------------

  /** Everything the checksum covers: all but the checksum field itself and the state field. */
  function Covered(data: seq<Byte>): seq<Byte>
    requires |data| >= FOOTER_V2_SIZE
  {
    var fb := |data| - FOOTER_V2_SIZE;
    data[..fb] + data[fb + 4..fb + 20] + data[fb + 24..]
  }

  function ChecksumOf(data: seq<Byte>): bv32
    requires |data| >= FOOTER_V2_SIZE
  {
    Crc32.Xor(Crc32.Fold(Crc32.INIT, Covered(data)), Crc32.INIT)
  }

  /** The three table-driven updates over the covered parts give the specified checksum. */
  method ComputeChecksum(table: seq<bv32>, data: seq<Byte>) returns (c: bv32)
    requires Crc32.TableOk(table) && |data| >= FOOTER_V2_SIZE
    ensures c == ChecksumOf(data)
  {
    hide Crc32.Fold, Crc32.Xor;
    var fb := |data| - FOOTER_V2_SIZE;
    c := Crc32.Update(table, Crc32.INIT, data[..fb]);
    c := Crc32.Update(table, c, data[fb + 4..fb + 20]);
    c := Crc32.Update(table, c, data[fb + 24..]);
    Crc32.FoldAppend(Crc32.INIT, data[..fb], data[fb + 4..fb + 20]);
    Crc32.FoldAppend(Crc32.INIT, data[..fb] + data[fb + 4..fb + 20], data[fb + 24..]);
    c := Crc32.Xor(c, Crc32.INIT);
  }

  // --- Building ------------------------------------------------------------------------

  predicate FileDisjoint(s: Segment, t: Segment) {
    s.FileEnd() <= t.fileOffset || t.FileEnd() <= s.fileOffset
  }

  /** Each segment's bytes sit at its file offset; all other bytes are erased flash. */
  ghost predicate RegionOk(out: seq<Byte>, segments: seq<Segment>, n: nat)
    requires n <= |segments|
  {
    && (forall i | 0 <= i < n :: Holds(out, segments[i].fileOffset, segments[i].data))
    && (forall p | 0 <= p < |out| && (forall i | 0 <= i < n :: !InSegment(p, segments[i])) :: out[p] == 0xFF)
  }

  predicate InSegment(p: nat, s: Segment) {
    s.fileOffset <= p < s.FileEnd()
  }

  ghost predicate AllFileDisjoint(segments: seq<Segment>) {
    forall i, j | 0 <= i < j < |segments| :: FileDisjoint(segments[i], segments[j])
  }

  method FillRegion(segments: seq<Segment>, size: nat) returns (out: seq<Byte>)
    requires AllFileDisjoint(segments) && forall i | 0 <= i < |segments| :: segments[i].FileEnd() <= size
    ensures |out| == size && RegionOk(out, segments, |segments|)
  {
    out := seq(size, _ => 0xFF);
    for n := 0 to |segments|
      invariant |out| == size && RegionOk(out, segments, n)
    {
      RegionStep(out, segments, n);
      out := Blit(out, segments[n].fileOffset, segments[n].data);
    }
  }

  lemma RegionStep(out: seq<Byte>, segments: seq<Segment>, n: nat)
    requires n < |segments| && AllFileDisjoint(segments) && RegionOk(out, segments, n) && segments[n].FileEnd() <= |out|
    ensures RegionOk(Blit(out, segments[n].fileOffset, segments[n].data), segments, n + 1)
  {
    var s := segments[n];
    var r := Blit(out, s.fileOffset, s.data);
    BlitHolds(out, s.fileOffset, s.data);
    forall i | 0 <= i < n ensures Holds(r, segments[i].fileOffset, segments[i].data) {
      BlitKeeps(out, s.fileOffset, s.data, segments[i].fileOffset, segments[i].data);
    }
    forall p | 0 <= p < |r| && (forall i | 0 <= i < n + 1 :: !InSegment(p, segments[i])) ensures r[p] == 0xFF {
      assert !InSegment(p, segments[n]);
    }
  }

  ghost predicate FieldsFit(b: Builder) {
    && b.entryPoint < U32_LIMIT && b.timestamp < Limit(8)
    && b.version.major < U16_LIMIT && b.version.minor < U16_LIMIT && b.version.patch < U16_LIMIT
    && (forall i | 0 <= i < |b.partitions| ::
          var p := b.partitions[i];
          p.nameHash < U32_LIMIT && p.offset < U32_LIMIT && p.size < U32_LIMIT && p.flags < U32_LIMIT)
    && (forall i | 0 <= i < |b.segments| :: SegmentFits(b.segments[i]))
    && DataEnd(b.segments) + 3 < BitOps.U64_LIMIT
    && TablesOffset(b.segments) + Records(|b.partitions| + |b.segments|) + FOOTER_V2_SIZE < U32_LIMIT
  }

  predicate SegmentFits(s: Segment) {
    s.dest < U32_LIMIT && s.fileOffset < U32_LIMIT && |s.data| < U32_LIMIT && s.memSize < U32_LIMIT
  }

  /** The file, section by section, around a given data region and checksum field. */
  function FileBytes(b: Builder, region: seq<Byte>, checksum: seq<Byte>): seq<Byte>
    requires |checksum| == 4
  {
    region + (PartitionTable(b.partitions) + (SegmentTable(b.segments) + FooterBytes(b, |region|, checksum)))
  }

  /** A well-made image: region, tables, footer, and the checksum over the rest. */
  ghost predicate Built(b: Builder, bytes: seq<Byte>) {
    exists region: seq<Byte> :: BuiltFrom(b, bytes, region)
  }

  ghost predicate BuiltFrom(b: Builder, bytes: seq<Byte>, region: seq<Byte>) {
    && DataEnd(b.segments) + 3 < BitOps.U64_LIMIT
    && |region| == TablesOffset(b.segments)
    && RegionOk(region, b.segments, |b.segments|)
    && |bytes| >= FOOTER_V2_SIZE
    && bytes == FileBytes(b, region, Crc32.BytesOf(ChecksumOf(bytes)))
  }

  method Build(table: seq<bv32>, b: Builder) returns (bytes: seq<Byte>)
    requires Crc32.TableOk(table) && FieldsFit(b) && AllFileDisjoint(b.segments)
    ensures Built(b, bytes)
  {
    hide RegionOk, Crc32.TableOk, PartitionTable, SegmentTable, FooterBytes, ChecksumOf, Covered, Crc32.BytesOf,
         AllFileDisjoint;
    FitsSize(b);
    var tables := TablesOffset(b.segments);
    var region := FillRegion(b.segments, tables);
    var draft := FileBytes(b, region, [0, 0, 0, 0]);
    var checksum := ComputeChecksum(table, draft);
    bytes := FileBytes(b, region, Crc32.BytesOf(checksum)) by { ChecksumLength(checksum); }
    ChecksumLength(checksum);
    ChecksumIgnoresItself(b, region, [0, 0, 0, 0], Crc32.BytesOf(checksum));
    assert BuiltFrom(b, bytes, region);
  }

  lemma FitsSize(b: Builder)
    requires FieldsFit(b)
    ensures DataEnd(b.segments) + 3 < BitOps.U64_LIMIT
  {
  }

  lemma ChecksumLength(c: bv32)
    ensures |Crc32.BytesOf(c)| == 4
  {
  }

  /** The covered bytes of a file do not depend on its checksum field. */
  lemma CoveredOfFile(b: Builder, region: seq<Byte>, checksum: seq<Byte>)
    requires |checksum| == 4
    ensures |FileBytes(b, region, checksum)| >= FOOTER_V2_SIZE
    ensures Covered(FileBytes(b, region, checksum)) ==
            region + PartitionTable(b.partitions) + SegmentTable(b.segments) + MetaBytes(b) + CoreBytes(b, |region|)
  {
    hide PartitionTable, SegmentTable, MetaBytes, CoreBytes, Encode;
    var data := FileBytes(b, region, checksum);
    var head := region + PartitionTable(b.partitions) + SegmentTable(b.segments);
    var fb := |data| - FOOTER_V2_SIZE;
    var state := Encode(STATE_DEFAULT_RAW, 4);
    assert data == head + checksum + MetaBytes(b) + state + CoreBytes(b, |region|);
    assert |head| == fb;
    assert data[..fb] == head;
    assert data[fb + 4..fb + 20] == MetaBytes(b);
    assert data[fb + 24..] == CoreBytes(b, |region|);
  }

  lemma ChecksumIgnoresItself(b: Builder, region: seq<Byte>, c: seq<Byte>, d: seq<Byte>)
    requires |c| == 4 && |d| == 4
    ensures |FileBytes(b, region, c)| >= FOOTER_V2_SIZE && |FileBytes(b, region, d)| >= FOOTER_V2_SIZE
    ensures ChecksumOf(FileBytes(b, region, c)) == ChecksumOf(FileBytes(b, region, d))
  {
    hide Covered, FileBytes;
    CoveredOfFile(b, region, c);
    CoveredOfFile(b, region, d);
  }

  // --- Parsing -------------------------------------------------------------------------

  datatype ParseError = TooSmall | BadMagic | BadVersion | SegmentOutOfBounds | TablesOutOfBounds

  datatype Image = Image(
    data: seq<Byte>, formatVersion: nat, entryPoint: nat, partitionCount: nat, segmentCount: nat, tablesOffset: nat,
    checksum: bv32, version: Version, timestamp: nat, stateRaw: nat)

  function SegmentTableBase(tables: nat, partitions: nat): nat {
    tables + Records(partitions)
  }

  /** File offset plus file size of table entry `i`. */
  function EntryEnd(data: seq<Byte>, base: nat, i: nat): nat
    requires base + Records(i + 1) <= |data|
  {
    Read(data, base + Records(i) + 4, 4) + Read(data, base + Records(i) + 8, 4)
  }

  predicate EntriesInside(data: seq<Byte>, base: nat, count: nat, tables: nat)
    requires base + Records(count) <= |data|
  {
    forall i | 0 <= i < count :: (EntryFits(base, i, count); EntryEnd(data, base, i) <= tables)
  }

  lemma EntryFits(base: nat, i: nat, count: nat)
    requires i < count
    ensures base + Records(i + 1) <= base + Records(count)
  {
  }

  function ReadWord(data: seq<Byte>, offset: nat): bv32
    requires offset + 4 <= |data|
  {
    Crc32.Word(data[offset..offset + 4])
  }

  function Parse(data: seq<Byte>): Result<Image, ParseError> {
    if |data| < FOOTER_V1_SIZE then Failure(TooSmall)
    else if Read(data, |data| - 4, 4) != MAGIC then Failure(BadMagic)
    else
      var format := Read(data, |data| - 8, 4);
      if format == 1 then
        ParseTables(data, 1, FOOTER_V1_SIZE, 0, Version(0, 0, 0), 0, STATE_DEFAULT_RAW)
      else if format == 2 then
        if |data| < FOOTER_V2_SIZE then Failure(TooSmall)
        else
          var fb := |data| - FOOTER_V2_SIZE;
          ParseTables(data, 2, FOOTER_V2_SIZE, ReadWord(data, fb),
                      Version(Read(data, fb + 4, 2), Read(data, fb + 6, 2), Read(data, fb + 8, 2)),
                      Read(data, fb + 12, 8), Read(data, fb + 20, 4))
      else Failure(BadVersion)
  }

  function ParseTables(data: seq<Byte>, format: nat, footer: nat, checksum: bv32, version: Version, timestamp: nat,
                       stateRaw: nat): Result<Image, ParseError>
    requires |data| >= FOOTER_V1_SIZE
  {
    var core := |data| - FOOTER_V1_SIZE;
    var tables := Read(data, core, 4);
    var segments := Read(data, core + 4, 4);
    var partitions := Read(data, core + 8, 4);
    var base := SegmentTableBase(tables, partitions);
    if base + Records(segments) + footer > |data| then Failure(TablesOutOfBounds)
    else if !EntriesInside(data, base, segments, tables) then Failure(SegmentOutOfBounds)
    else
      Success(Image(data, format, Read(data, core + 12, 4), partitions, segments, tables, checksum, version, timestamp,
                    stateRaw))
  }

  /** The tables lie before the footer and every segment's bytes lie before the tables. */
  predicate ImageOk(img: Image) {
    && var base := SegmentTableBase(img.tablesOffset, img.partitionCount);
    && base + Records(img.segmentCount) <= |img.data|
    && EntriesInside(img.data, base, img.segmentCount, img.tablesOffset)
  }

  lemma ParsedIsOk(data: seq<Byte>)
    requires Parse(data).Success?
    ensures ImageOk(Parse(data).value) && Parse(data).value.data == data
  {
    hide EntriesInside, Read, ReadWord;
  }

  /** Partition `i` of a parsed image. */
  function PartitionAt(img: Image, i: nat): Partition
    requires ImageOk(img) && i < img.partitionCount
  {
    var at := img.tablesOffset + Records(i);
    Partition(Read(img.data, at, 4), Read(img.data, at + 4, 4), Read(img.data, at + 8, 4), Read(img.data, at + 12, 4))
  }

  /** The first partition with the name hash, if there is one. */
  method FindPartition(img: Image, hash: nat) returns (r: Option<Partition>)
    requires ImageOk(img)
    ensures r.None? <==> forall i | 0 <= i < img.partitionCount :: PartitionAt(img, i).nameHash != hash
    ensures r.Some? ==> exists i ::
              && 0 <= i < img.partitionCount && r.value == PartitionAt(img, i) && r.value.nameHash == hash
              && forall j | 0 <= j < i :: PartitionAt(img, j).nameHash != hash
  {
    hide ImageOk, Read;
    for i := 0 to img.partitionCount
      invariant forall j | 0 <= j < i :: PartitionAt(img, j).nameHash != hash
    {
      var p := PartitionAt(img, i);
      if p.nameHash == hash { return Some(p); }
    }
    r := None;
  }

  /** Segment `i` of a parsed image; never reads outside the file. */
  function SegmentAt(img: Image, i: nat): Segment
    requires ImageOk(img) && i < img.segmentCount
  {
    var base := SegmentTableBase(img.tablesOffset, img.partitionCount) + Records(i);
    EntryFits(SegmentTableBase(img.tablesOffset, img.partitionCount), i, img.segmentCount);
    var offset := Read(img.data, base + 4, 4);
    var size := Read(img.data, base + 8, 4);
    assert offset + size <= |img.data| by {
      assert EntryEnd(img.data, SegmentTableBase(img.tablesOffset, img.partitionCount), i) <= img.tablesOffset;
    }
    Segment(Read(img.data, base, 4), offset, img.data[offset..offset + size], Read(img.data, base + 12, 4))
  }

  // --- Build then parse ------------------------------------------------------------------

  lemma {:induction false} SegmentTableHolds(ss: seq<Segment>, i: nat)
    requires i < |ss|
    ensures Holds(SegmentTable(ss), Records(i), SegmentBytes(ss[i]))
  {
    hide SegmentBytes;
    var n := |ss| - 1;
    var init := SegmentTable(ss[..n]);
    if i < n {
      SegmentTableHolds(ss[..n], i);
      HoldsExtended(init, Records(i), SegmentBytes(ss[i]), SegmentBytes(ss[n]));
    }
  }

  lemma {:induction false} PartitionTableHolds(ps: seq<Partition>, i: nat)
    requires i < |ps|
    ensures Holds(PartitionTable(ps), Records(i), PartitionBytes(ps[i]))
  {
    hide PartitionBytes;
    var n := |ps| - 1;
    var init := PartitionTable(ps[..n]);
    if i < n {
      PartitionTableHolds(ps[..n], i);
      HoldsExtended(init, Records(i), PartitionBytes(ps[i]), PartitionBytes(ps[n]));
    }
  }

  lemma HoldsExtended(data: seq<Byte>, at: nat, held: seq<Byte>, more: seq<Byte>)
    requires Holds(data, at, held)
    ensures Holds(data + more, at, held)
  {
    assert (data + more)[at..at + |held|] == data[at..at + |held|];
  }

  /** What the file holds where. */
  lemma FileHolds(b: Builder, region: seq<Byte>, checksum: seq<Byte>)
    requires |checksum| == 4
    ensures var data := FileBytes(b, region, checksum);
            var fb := |data| - FOOTER_V2_SIZE;
            && |data| == |region| + Records(|b.partitions|) + Records(|b.segments|) + FOOTER_V2_SIZE
            && Holds(data, 0, region) && Holds(data, |region|, PartitionTable(b.partitions))
            && Holds(data, |region| + Records(|b.partitions|), SegmentTable(b.segments))
            && Holds(data, fb, checksum) && Holds(data, fb + 4, MetaBytes(b))
            && Holds(data, fb + 20, Encode(STATE_DEFAULT_RAW, 4)) && Holds(data, fb + 24, CoreBytes(b, |region|))
  {
    hide PartitionTable, SegmentTable, MetaBytes, CoreBytes, Encode;
    var data := FileBytes(b, region, checksum);
    assert data[0..|data|] == data;
    var footer := FooterBytes(b, |region|, checksum);
    HoldsParts(data, 0, region, PartitionTable(b.partitions) + (SegmentTable(b.segments) + footer));
    HoldsParts(data, |region|, PartitionTable(b.partitions), SegmentTable(b.segments) + footer);
    HoldsParts(data, |region| + |PartitionTable(b.partitions)|, SegmentTable(b.segments), footer);
    var fb := |data| - FOOTER_V2_SIZE;
    HoldsParts(data, fb, checksum, MetaBytes(b) + (Encode(STATE_DEFAULT_RAW, 4) + CoreBytes(b, |region|)));
    HoldsParts(data, fb + 4, MetaBytes(b), Encode(STATE_DEFAULT_RAW, 4) + CoreBytes(b, |region|));
    HoldsParts(data, fb + 20, Encode(STATE_DEFAULT_RAW, 4), CoreBytes(b, |region|));
  }

  lemma ReadCore(data: seq<Byte>, at: nat, b: Builder, tables: nat)
    requires Holds(data, at, CoreBytes(b, tables))
    requires tables < U32_LIMIT && |b.segments| < U32_LIMIT && |b.partitions| < U32_LIMIT && b.entryPoint < U32_LIMIT
    ensures Read(data, at, 4) == tables && Read(data, at + 4, 4) == |b.segments|
            && Read(data, at + 8, 4) == |b.partitions|
    ensures Read(data, at + 12, 4) == b.entryPoint && Read(data, at + 16, 4) == 2 && Read(data, at + 20, 4) == MAGIC
  {
    hide Encode, Read, Holds;
    Limits();
    CoreShape(data, at, b, tables);
    ReadHeld(data, at, tables, 4);
    ReadHeld(data, at + 4, |b.segments|, 4);
    ReadHeld(data, at + 8, |b.partitions|, 4);
    ReadHeld(data, at + 12, b.entryPoint, 4);
    ReadHeld(data, at + 16, 2, 4);
    ReadHeld(data, at + 20, MAGIC, 4);
  }

  lemma {:induction false} CoreShape(data: seq<Byte>, at: nat, b: Builder, tables: nat)
    requires Holds(data, at, CoreBytes(b, tables))
    ensures at + 24 <= |data|
    ensures Holds(data, at, Encode(tables, 4)) && Holds(data, at + 4, Encode(|b.segments|, 4))
    ensures Holds(data, at + 8, Encode(|b.partitions|, 4)) && Holds(data, at + 12, Encode(b.entryPoint, 4))
    ensures Holds(data, at + 16, Encode(2, 4)) && Holds(data, at + 20, Encode(MAGIC, 4))
  {
    hide Encode;
    var e0, e1, e2 := Encode(tables, 4), Encode(|b.segments|, 4), Encode(|b.partitions|, 4);
    var e3, e4, e5 := Encode(b.entryPoint, 4), Encode(2, 4), Encode(MAGIC, 4);
    HoldsParts(data, at, e0, e1 + (e2 + (e3 + (e4 + e5))));
    HoldsParts(data, at + 4, e1, e2 + (e3 + (e4 + e5)));
    HoldsParts(data, at + 8, e2, e3 + (e4 + e5));
    HoldsParts(data, at + 12, e3, e4 + e5);
    HoldsParts(data, at + 16, e4, e5);
  }

  lemma ReadMeta(data: seq<Byte>, at: nat, b: Builder)
    requires Holds(data, at, MetaBytes(b)) && FieldsFit(b)
    ensures at + 16 <= |data|
    ensures Version(Read(data, at, 2), Read(data, at + 2, 2), Read(data, at + 4, 2)) == b.version
    ensures Read(data, at + 8, 8) == b.timestamp
  {
    hide Encode, Read;
    Limits();
    var e0, e1, e2 := Encode(b.version.major, 2), Encode(b.version.minor, 2), Encode(b.version.patch, 2);
    var e3, e4 := Encode(0xFFFF, 2), Encode(b.timestamp, 8);
    HoldsParts(data, at, e0, e1 + (e2 + (e3 + e4)));
    HoldsParts(data, at + 2, e1, e2 + (e3 + e4));
    HoldsParts(data, at + 4, e2, e3 + e4);
    HoldsParts(data, at + 6, e3, e4);
    ReadHeld(data, at, b.version.major, 2);
    ReadHeld(data, at + 2, b.version.minor, 2);
    ReadHeld(data, at + 4, b.version.patch, 2);
    ReadHeld(data, at + 8, b.timestamp, 8);
  }

  lemma ReadSegment(data: seq<Byte>, at: nat, s: Segment)
    requires Holds(data, at, SegmentBytes(s)) && SegmentFits(s)
    ensures at + 16 <= |data|
    ensures Read(data, at, 4) == s.dest && Read(data, at + 4, 4) == s.fileOffset
    ensures Read(data, at + 8, 4) == |s.data| && Read(data, at + 12, 4) == s.memSize
  {
    hide Encode, Read;
    Limits();
    var e0, e1, e2, e3 := Encode(s.dest, 4), Encode(s.fileOffset, 4), Encode(|s.data|, 4), Encode(s.memSize, 4);
    HoldsParts(data, at, e0, e1 + (e2 + e3));
    HoldsParts(data, at + 4, e1, e2 + e3);
    HoldsParts(data, at + 8, e2, e3);
    ReadHeld(data, at, s.dest, 4);
    ReadHeld(data, at + 4, s.fileOffset, 4);
    ReadHeld(data, at + 8, |s.data|, 4);
    ReadHeld(data, at + 12, s.memSize, 4);
  }

  ghost predicate Fits(b: Builder, region: seq<Byte>) {
    && FieldsFit(b)
    && |region| + Records(|b.partitions| + |b.segments|) + FOOTER_V2_SIZE < U32_LIMIT
  }

  /** Segment-table entries of a built file read back as written. */
  lemma EntryReads(b: Builder, region: seq<Byte>, checksum: seq<Byte>, i: nat)
    requires |checksum| == 4 && Fits(b, region) && i < |b.segments|
    ensures var data := FileBytes(b, region, checksum);
            var at := |region| + Records(|b.partitions|) + Records(i);
            && at + 16 <= |data|
            && Read(data, at, 4) == b.segments[i].dest && Read(data, at + 4, 4) == b.segments[i].fileOffset
            && Read(data, at + 8, 4) == |b.segments[i].data| && Read(data, at + 12, 4) == b.segments[i].memSize
  {
    hide SegmentTable, FileBytes, Read, SegmentBytes, Fits, Holds, MetaBytes, CoreBytes, Encode;
    var data := FileBytes(b, region, checksum);
    FileHolds(b, region, checksum);
    FitsSegment(b, region, i);
    SegmentTableHolds(b.segments, i);
    HeldInside(data, |region| + Records(|b.partitions|), SegmentTable(b.segments), Records(i),
               SegmentBytes(b.segments[i]));
    ReadSegment(data, |region| + Records(|b.partitions|) + Records(i), b.segments[i]);
  }

  lemma FitsSegment(b: Builder, region: seq<Byte>, i: nat)
    requires Fits(b, region) && i < |b.segments|
    ensures SegmentFits(b.segments[i])
  {
  }

  lemma HeldInside(data: seq<Byte>, at: nat, block: seq<Byte>, inner: nat, held: seq<Byte>)
    requires Holds(data, at, block) && Holds(block, inner, held)
    ensures Holds(data, at + inner, held)
  {
    forall i | 0 <= i < |held| ensures data[at + inner + i] == held[i] {
      assert data[at..at + |block|][inner + i] == block[inner..inner + |held|][i];
    }
    assert data[at + inner..at + inner + |held|] == held;
  }

  lemma CountFits(b: Builder, region: seq<Byte>)
    requires Fits(b, region)
    ensures |region| < U32_LIMIT && |b.segments| < U32_LIMIT && |b.partitions| < U32_LIMIT && b.entryPoint < U32_LIMIT
  {
  }

  function ExpectedImage(b: Builder, bytes: seq<Byte>, tables: nat, checksum: bv32): Image {
    Image(bytes, 2, b.entryPoint, |b.partitions|, |b.segments|, tables, checksum, b.version, b.timestamp,
          STATE_DEFAULT_RAW)
  }

  lemma TablesParse(b: Builder, region: seq<Byte>, checksum: seq<Byte>, word: bv32)
    requires |checksum| == 4 && Fits(b, region) && DataEnd(b.segments) <= |region|
    ensures var data := FileBytes(b, region, checksum);
            && |data| >= FOOTER_V2_SIZE
            && ParseTables(data, 2, FOOTER_V2_SIZE, word, b.version, b.timestamp, STATE_DEFAULT_RAW) ==
               Success(ExpectedImage(b, data, |region|, word))
  {
    hide SegmentTable, FileBytes, Read, CoreBytes, MetaBytes, FieldsFit, EntriesInside, DataEnd, Holds, Fits, Encode,
         Records, SegmentTableBase;
    var data := FileBytes(b, region, checksum);
    FileCore(b, region, checksum);
    EntriesInsideHolds(b, region, checksum);
  }

  lemma FileCore(b: Builder, region: seq<Byte>, checksum: seq<Byte>)
    requires |checksum| == 4 && Fits(b, region)
    ensures var data := FileBytes(b, region, checksum);
            var core := |data| - FOOTER_V1_SIZE;
            && |data| >= FOOTER_V2_SIZE
            && SegmentTableBase(|region|, |b.partitions|) + Records(|b.segments|) + FOOTER_V2_SIZE <= |data|
            && Read(data, core, 4) == |region| && Read(data, core + 4, 4) == |b.segments|
            && Read(data, core + 8, 4) == |b.partitions| && Read(data, core + 12, 4) == b.entryPoint
            && Read(data, core + 16, 4) == 2 && Read(data, core + 20, 4) == MAGIC
  {
    hide SegmentTable, FileBytes, Read, CoreBytes, MetaBytes, Fits, Encode, Holds;
    var data := FileBytes(b, region, checksum);
    FileHolds(b, region, checksum);
    CountFits(b, region);
    ReadCore(data, |data| - FOOTER_V1_SIZE, b, |region|);
  }

  lemma EntriesInsideHolds(b: Builder, region: seq<Byte>, checksum: seq<Byte>)
    requires |checksum| == 4 && Fits(b, region) && DataEnd(b.segments) <= |region|
    ensures var data := FileBytes(b, region, checksum);
            var base := SegmentTableBase(|region|, |b.partitions|);
            base + Records(|b.segments|) <= |data| && EntriesInside(data, base, |b.segments|, |region|)
  {
    hide SegmentTable, FileBytes, Read, CoreBytes, MetaBytes, FieldsFit, Holds, Fits, DataEnd, EntryEnd, Encode,
         SegmentTableBase;
    var data := FileBytes(b, region, checksum);
    var base := SegmentTableBase(|region|, |b.partitions|);
    FileRoom(b, region, checksum);
    forall i | 0 <= i < |b.segments| ensures base + Records(i + 1) <= |data| && EntryEnd(data, base, i) <= |region| {
      EntryEndReads(b, region, checksum, i);
      assert b.segments[i].FileEnd() <= DataEnd(b.segments);
    }
  }

  lemma FileRoom(b: Builder, region: seq<Byte>, checksum: seq<Byte>)
    requires |checksum| == 4
    ensures SegmentTableBase(|region|, |b.partitions|) + Records(|b.segments|) <= |FileBytes(b, region, checksum)|
  {
    hide SegmentTable, FileBytes, CoreBytes, MetaBytes, Encode, Holds;
    FileHolds(b, region, checksum);
  }

  lemma EntryEndReads(b: Builder, region: seq<Byte>, checksum: seq<Byte>, i: nat)
    requires |checksum| == 4 && Fits(b, region) && i < |b.segments|
    ensures var data := FileBytes(b, region, checksum);
            var base := SegmentTableBase(|region|, |b.partitions|);
            base + Records(i + 1) <= |data| && EntryEnd(data, base, i) == b.segments[i].FileEnd()
  {
    hide SegmentTable, FileBytes, Read, CoreBytes, MetaBytes, Fits, Encode, Holds;
    EntryReads(b, region, checksum, i);
  }

  lemma FileParses(b: Builder, region: seq<Byte>, checksum: seq<Byte>)
    requires |checksum| == 4 && Fits(b, region) && DataEnd(b.segments) <= |region|
    ensures var data := FileBytes(b, region, checksum);
            Parse(data) == Success(ExpectedImage(b, data, |region|, Crc32.Word(checksum)))
  {
    hide SegmentTable, FileBytes, Read, CoreBytes, MetaBytes, ParseTables, Crc32.Word, DataEnd, Encode;
    var data := FileBytes(b, region, checksum);
    FileHolds(b, region, checksum);
    var fb := |data| - FOOTER_V2_SIZE;
    FileCore(b, region, checksum);
    ReadMeta(data, fb + 4, b);
    Limits();
    ReadHeld(data, fb + 20, STATE_DEFAULT_RAW, 4);
    assert ReadWord(data, fb) == Crc32.Word(checksum);
    TablesParse(b, region, checksum, Crc32.Word(checksum));
  }

  // --- Integrity and state -----------------------------------------------------------------

  datatype FirmwareState =
    | IntegrityCompromised
    | WatchdogConcern
    | KernelConcern
    | SupervisorConcern
    | RuntimeConcern
    | Default

  predicate ChecksumValid(img: Image) {
    match img.formatVersion
    case 1 => true
    case 2 => |img.data| >= FOOTER_V2_SIZE && ChecksumOf(img.data) == img.checksum
    case _ => false
  }

  function DecodeState(raw: nat): FirmwareState {
    if raw == STATE_DEFAULT_RAW then Default
    else
      match raw / 0x100_0000
      case 1 => WatchdogConcern
      case 2 => KernelConcern
      case 3 => SupervisorConcern
      case _ => RuntimeConcern
  }

  datatype ConcernSource = Watchdog | Kernel | Supervisor | Runtime {
    function Tag(): nat {
      match this
      case Watchdog => 1
      case Kernel => 2
      case Supervisor => 3
      case Runtime => 4
    }

    function Concern(): FirmwareState {
      match this
      case Watchdog => WatchdogConcern
      case Kernel => KernelConcern
      case Supervisor => SupervisorConcern
      case Runtime => RuntimeConcern
    }
  }

  /** A concern as it is written to flash: the source in the top byte. */
  function EncodeConcern(source: ConcernSource): nat {
    source.Tag() * 0x100_0000
  }

  /**
   A stored concern is read back, whatever comes to stand in the lower three bytes; only the erased field
   leaves the image bootable; and a top byte that names no source counts as the runtime's concern.
   */
  lemma ConcernReadsBack(source: ConcernSource, raw: nat)
    ensures raw / 0x100_0000 == EncodeConcern(source) / 0x100_0000 ==> DecodeState(raw) == source.Concern()
    ensures DecodeState(EncodeConcern(source)) == source.Concern() && EncodeConcern(source) % 0x100_0000 == 0
    ensures DecodeState(raw) == Default <==> raw == 0xFFFF_FFFF
    ensures raw != 0xFFFF_FFFF && !(1 <= raw / 0x100_0000 <= 4) ==> DecodeState(raw) == RuntimeConcern
  {
  }

  function StateOf(img: Image): FirmwareState {
    if img.formatVersion >= 2 && !ChecksumValid(img) then IntegrityCompromised else DecodeState(img.stateRaw)
  }

  /**
   What the linker built is what the boot loader reads: a built file parses, is bootable, and
   every segment comes back with its destination, offset, bytes and memory size.
   */
  lemma BuildThenParse(b: Builder, bytes: seq<Byte>)
    requires Built(b, bytes) && FieldsFit(b) && AllFileDisjoint(b.segments)
    ensures Parse(bytes).Success?
    ensures var img := Parse(bytes).value;
            && ImageOk(img) && img.data == bytes && img.entryPoint == b.entryPoint && img.version == b.version
            && img.timestamp == b.timestamp && img.segmentCount == |b.segments| && img.partitionCount == |b.partitions|
            && ChecksumValid(img) && StateOf(img) == Default
            && (forall i | 0 <= i < |b.segments| :: SegmentAt(img, i) == b.segments[i])
            && (forall i | 0 <= i < |b.partitions| :: PartitionAt(img, i) == b.partitions[i])
  {
    hide SegmentTable, FileBytes, Read, ParseTables, Crc32.Word, Crc32.BytesOf, RegionOk, ChecksumOf, Parse,
         EntriesInside, ImageOk, SegmentAt, PartitionAt, FieldsFit, Fits, AllFileDisjoint, DataEnd, TablesOffset;
    var region :| BuiltFrom(b, bytes, region);
    var c := ChecksumOf(bytes);
    var checksum := Crc32.BytesOf(c);
    Crc32.BytesWord(c);
    RegionFits(b, region);
    FileParses(b, region, checksum);
    ParsedIsOk(bytes);
    var img := Parse(bytes).value;
    assert img == ExpectedImage(b, bytes, |region|, c);
    forall i | 0 <= i < |b.segments| ensures SegmentAt(img, i) == b.segments[i] {
      SegmentReadsBack(b, bytes, region, img, i);
    }
    forall i | 0 <= i < |b.partitions| ensures PartitionAt(img, i) == b.partitions[i] {
      PartitionReadsBack(b, bytes, region, img, i);
    }
  }

  lemma PartitionReadsBack(b: Builder, bytes: seq<Byte>, region: seq<Byte>, img: Image, i: nat)
    requires BuiltFrom(b, bytes, region) && Fits(b, region) && i < |b.partitions|
    requires img == ExpectedImage(b, bytes, |region|, ChecksumOf(bytes)) && ImageOk(img)
    ensures PartitionAt(img, i) == b.partitions[i]
  {
    hide SegmentTable, PartitionTable, FileBytes, Read, Crc32.BytesOf, RegionOk, ChecksumOf, DataEnd, TablesOffset,
         Covered, Encode, Holds, MetaBytes, CoreBytes;
    var p, at := b.partitions[i], |region| + Records(i);
    ChecksumLength(ChecksumOf(bytes));
    FileHolds(b, region, Crc32.BytesOf(ChecksumOf(bytes)));
    PartitionTableHolds(b.partitions, i);
    HeldInside(bytes, |region|, PartitionTable(b.partitions), Records(i), PartitionBytes(p));
    PartitionReads(bytes, at, p);
  }

  lemma PartitionReads(data: seq<Byte>, at: nat, p: Partition)
    requires Holds(data, at, PartitionBytes(p))
    requires p.nameHash < U32_LIMIT && p.offset < U32_LIMIT && p.size < U32_LIMIT && p.flags < U32_LIMIT
    ensures at + 16 <= |data|
    ensures Partition(Read(data, at, 4), Read(data, at + 4, 4), Read(data, at + 8, 4), Read(data, at + 12, 4)) == p
  {
    hide Encode, Read;
    Limits();
    var e0, e1, e2, e3 := Encode(p.nameHash, 4), Encode(p.offset, 4), Encode(p.size, 4), Encode(p.flags, 4);
    HoldsParts(data, at, e0, e1 + (e2 + e3));
    HoldsParts(data, at + 4, e1, e2 + e3);
    HoldsParts(data, at + 8, e2, e3);
    ReadHeld(data, at, p.nameHash, 4);
    ReadHeld(data, at + 4, p.offset, 4);
    ReadHeld(data, at + 8, p.size, 4);
    ReadHeld(data, at + 12, p.flags, 4);
  }

  lemma {:induction false} StateField(data: seq<Byte>, at: nat)
    requires Holds(data, at, Encode(STATE_DEFAULT_RAW, 4))
    ensures at + 4 <= |data| && Read(data, at, 4) == 0xFFFF_FFFF
  {
    hide Encode, Read;
    Limits();
    ReadHeld(data, at, STATE_DEFAULT_RAW, 4);
  }

  lemma WordHeld(data: seq<Byte>, at: nat, c: bv32)
    requires |Crc32.BytesOf(c)| == 4 && Holds(data, at, Crc32.BytesOf(c)) && Crc32.Word(Crc32.BytesOf(c)) == c
    ensures at + 4 <= |data| && ReadWord(data, at) == c
  {
    hide Crc32.Word, Crc32.BytesOf;
  }

  lemma {:induction false} MagicBytes(data: seq<Byte>, b: Builder, tables: nat)
    requires |data| >= 24 && Holds(data, |data| - 24, CoreBytes(b, tables))
    ensures data[|data| - 4..] == [0x42, 0x43, 0x4C, 0x50]
  {
    hide Encode;
    CoreShape(data, |data| - 24, b, tables);
    MagicEncoded();
  }

  lemma {:induction false} MagicEncoded()
    ensures Encode(MAGIC, 4) == [0x42, 0x43, 0x4C, 0x50]
  {
    assert MAGIC / 256 == 0x50_4C43 && MAGIC % 256 == 0x42;
    assert 0x50_4C43 / 256 == 0x504C && 0x50_4C43 % 256 == 0x43;
    assert 0x504C / 256 == 0x50 && 0x504C % 256 == 0x4C;
    assert Encode(0x50, 1) == [0x50];
    assert Encode(0x504C, 2) == [0x4C] + Encode(0x50, 1);
    assert Encode(0x50_4C43, 3) == [0x43] + Encode(0x504C, 2);
  }

  /** What is refused before the tables are looked at. */
  lemma ParseRejects(data: seq<Byte>)
    ensures |data| < 24 ==> Parse(data) == Failure(TooSmall)
    ensures |data| >= 24 && Read(data, |data| - 4, 4) != 0x504C_4342 ==> Parse(data) == Failure(BadMagic)
    ensures |data| >= 24 && Read(data, |data| - 4, 4) == 0x504C_4342 ==>
              var format := Read(data, |data| - 8, 4);
              && (format != 1 && format != 2 ==> Parse(data) == Failure(BadVersion))
              && (format == 2 && |data| < 48 ==> Parse(data) == Failure(TooSmall))
  {
    hide Read;
  }

  /** The footer of a built file, read backwards from its end; the file ends with the letters of the magic number. */
  lemma FooterLayout(b: Builder, bytes: seq<Byte>)
    requires Built(b, bytes) && FieldsFit(b)
    ensures var n := |bytes|;
            && n >= 48 && ReadWord(bytes, n - 48) == ChecksumOf(bytes)
            && Read(bytes, n - 44, 2) == b.version.major && Read(bytes, n - 42, 2) == b.version.minor
            && Read(bytes, n - 40, 2) == b.version.patch && Read(bytes, n - 36, 8) == b.timestamp
            && Read(bytes, n - 28, 4) == 0xFFFF_FFFF && Read(bytes, n - 24, 4) == TablesOffset(b.segments)
            && Read(bytes, n - 20, 4) == |b.segments| && Read(bytes, n - 16, 4) == |b.partitions|
            && Read(bytes, n - 12, 4) == b.entryPoint && Read(bytes, n - 8, 4) == 2
            && bytes[n - 4..] == [0x42, 0x43, 0x4C, 0x50]
  {
    hide SegmentTable, FileBytes, Read, CoreBytes, MetaBytes, Encode, FieldsFit, Fits, RegionOk, ChecksumOf, DataEnd,
         TablesOffset, Crc32.Word, Crc32.BytesOf, Holds, Limit;
    var region :| BuiltFrom(b, bytes, region);
    var c := ChecksumOf(bytes);
    Crc32.BytesWord(c);
    ChecksumLength(c);
    RegionFits(b, region);
    FileHolds(b, region, Crc32.BytesOf(c));
    FileCore(b, region, Crc32.BytesOf(c));
    ReadMeta(bytes, |bytes| - 44, b);
    StateField(bytes, |bytes| - 28);
    WordHeld(bytes, |bytes| - 48, c);
    MagicBytes(bytes, b, |region|);
  }

  lemma SegmentReadsBack(b: Builder, bytes: seq<Byte>, region: seq<Byte>, img: Image, i: nat)
    requires BuiltFrom(b, bytes, region) && Fits(b, region) && i < |b.segments|
    requires img == ExpectedImage(b, bytes, |region|, ChecksumOf(bytes)) && ImageOk(img)
    ensures SegmentAt(img, i) == b.segments[i]
  {
    hide SegmentTable, FileBytes, Read, Crc32.BytesOf, RegionOk, ChecksumOf, FieldsFit, DataEnd, TablesOffset, Covered;
    ChecksumLength(ChecksumOf(bytes));
    EntryReads(b, region, Crc32.BytesOf(ChecksumOf(bytes)), i);
    SegmentDataHeld(b, bytes, region, i);
    EntryFits(SegmentTableBase(img.tablesOffset, img.partitionCount), i, img.segmentCount);
  }

  lemma RegionFits(b: Builder, region: seq<Byte>)
    requires FieldsFit(b) && DataEnd(b.segments) + 3 < BitOps.U64_LIMIT && |region| == TablesOffset(b.segments)
    ensures Fits(b, region) && DataEnd(b.segments) <= |region|
  {
    hide DataEnd;
  }

  lemma SegmentDataHeld(b: Builder, bytes: seq<Byte>, region: seq<Byte>, i: nat)
    requires BuiltFrom(b, bytes, region) && i < |b.segments|
    ensures Holds(bytes, b.segments[i].fileOffset, b.segments[i].data)
  {
    hide SegmentTable, FooterBytes, PartitionTable, DataEnd, ChecksumOf, Crc32.BytesOf;
    assert Holds(region, b.segments[i].fileOffset, b.segments[i].data);
    ChecksumLength(ChecksumOf(bytes));
    HoldsExtended(region, b.segments[i].fileOffset, b.segments[i].data,
                  PartitionTable(b.partitions) + (SegmentTable(b.segments) +
                  FooterBytes(b, |region|, Crc32.BytesOf(ChecksumOf(bytes)))));
  }

  /** A runtime concern is a 4-byte program of the state field. */
  function WithState(data: seq<Byte>, raw: nat): (r: seq<Byte>)
    requires |data| >= FOOTER_V2_SIZE
    ensures |r| == |data|
  {
    Blit(data, |data| - STATE_OFFSET_FROM_END, Encode(raw, 4))
  }

  lemma ReadOutside(data: seq<Byte>, raw: nat, at: nat, n: nat)
    requires |data| >= FOOTER_V2_SIZE && at + n <= |data|
    requires at + n <= |data| - STATE_OFFSET_FROM_END || |data| - STATE_OFFSET_FROM_END + 4 <= at
    ensures WithState(data, raw)[at..at + n] == data[at..at + n]
  {
    BlitKeeps(data, |data| - STATE_OFFSET_FROM_END, Encode(raw, 4), at, data[at..at + n]);
  }

  lemma CoveredIgnoresState(data: seq<Byte>, raw: nat)
    requires |data| >= FOOTER_V2_SIZE
    ensures Covered(WithState(data, raw)) == Covered(data)
  {
    hide WithState;
    var fb := |data| - FOOTER_V2_SIZE;
    ReadOutside(data, raw, 0, fb);
    ReadOutside(data, raw, fb + 4, 16);
    ReadOutside(data, raw, fb + 24, 24);
    var d := WithState(data, raw);
    assert d[..fb] == d[0..0 + fb] && data[..fb] == data[0..0 + fb];
    assert d[fb + 24..] == d[fb + 24..fb + 24 + 24] && data[fb + 24..] == data[fb + 24..fb + 24 + 24];
  }

  lemma EntriesIgnoreState(data: seq<Byte>, raw: nat, base: nat, count: nat, tables: nat)
    requires |data| >= FOOTER_V2_SIZE && base + Records(count) + FOOTER_V2_SIZE <= |data|
    ensures EntriesInside(WithState(data, raw), base, count, tables) <==> EntriesInside(data, base, count, tables)
  {
    hide WithState, Decode;
    forall i | 0 <= i < count ensures EntryEnd(WithState(data, raw), base, i) == EntryEnd(data, base, i) {
      EntryFits(base, i, count);
      ReadOutside(data, raw, base + Records(i) + 4, 4);
      ReadOutside(data, raw, base + Records(i) + 8, 4);
    }
  }

  /** Recording a concern changes the state field and nothing else: the image still parses and still checks. */
  lemma ConcernKeepsImage(data: seq<Byte>, raw: nat)
    requires Parse(data).Success? && Parse(data).value.formatVersion == 2 && raw < U32_LIMIT
    ensures |data| >= FOOTER_V2_SIZE
    ensures Parse(WithState(data, raw)) == Success(Parse(data).value.(data := WithState(data, raw), stateRaw := raw))
    ensures ChecksumValid(Parse(WithState(data, raw)).value) <==> ChecksumValid(Parse(data).value)
    ensures ChecksumValid(Parse(data).value) ==> StateOf(Parse(WithState(data, raw)).value) == DecodeState(raw)
  {
    hide WithState, EntriesInside, Decode, Crc32.Word, Crc32.Fold, Crc32.Xor, DecodeState;
    var n := |data|;
    var fb := n - FOOTER_V2_SIZE;
    ReadOutside(data, raw, fb, 4);
    ReadOutside(data, raw, fb + 4, 2);
    ReadOutside(data, raw, fb + 6, 2);
    ReadOutside(data, raw, fb + 8, 2);
    ReadOutside(data, raw, fb + 12, 8);
    ReadOutside(data, raw, fb + 24, 4);
    ReadOutside(data, raw, fb + 28, 4);
    ReadOutside(data, raw, fb + 32, 4);
    ReadOutside(data, raw, fb + 36, 4);
    ReadOutside(data, raw, fb + 40, 4);
    ReadOutside(data, raw, fb + 44, 4);
    StateReadsBack(data, raw);
    var core := n - FOOTER_V1_SIZE;
    var tables := Read(data, core, 4);
    EntriesIgnoreState(data, raw, SegmentTableBase(tables, Read(data, core + 8, 4)), Read(data, core + 4, 4), tables);
    CoveredIgnoresState(data, raw);
  }

  lemma StateReadsBack(data: seq<Byte>, raw: nat)
    requires |data| >= FOOTER_V2_SIZE && raw < U32_LIMIT
    ensures Read(WithState(data, raw), |data| - FOOTER_V2_SIZE + 20, 4) == raw
  {
    Limits();
    BlitHolds(data, |data| - STATE_OFFSET_FROM_END, Encode(raw, 4));
    ReadHeld(WithState(data, raw), |data| - STATE_OFFSET_FROM_END, raw, 4);
  }

  // --- Damage ------------------------------------------------------------------------------

  /** The file is accepted as an image and its state allows booting. */
  predicate Boots(data: seq<Byte>) {
    Parse(data).Success? && StateOf(Parse(data).value) == Default
  }

  /** Images of the first format count as intact. */
  lemma OldIsValid(data: seq<Byte>)
    requires Parse(data).Success? && |data| >= FOOTER_V1_SIZE && FormatField(data) == 1
    ensures ChecksumValid(Parse(data).value)
  {
    hide Read, EntriesInside, ReadWord;
  }

  function FormatField(data: seq<Byte>): nat
    requires |data| >= FOOTER_V1_SIZE
  {
    Read(data, |data| - 8, 4)
  }

  function MagicField(data: seq<Byte>): nat
    requires |data| >= FOOTER_V1_SIZE
  {
    Read(data, |data| - 4, 4)
  }

  /** Damage to at most four adjacent bytes that the checksum covers; the checksum field itself is intact. */
  ghost predicate BurstDamage(data: seq<Byte>, damaged: seq<Byte>, i: nat) {
    && |data| == |damaged| >= FOOTER_V2_SIZE
    && Crc32.DifferInWindow(Covered(data), Covered(damaged), i)
    && ReadWord(damaged, |data| - FOOTER_V2_SIZE) == ReadWord(data, |data| - FOOTER_V2_SIZE)
  }

  /** With the format field still 2, the checksum notices the damage. */
  lemma DamageNoticed(data: seq<Byte>, damaged: seq<Byte>, i: nat)
    requires Parse(data).Success? && Parse(data).value.formatVersion == 2 && ChecksumValid(Parse(data).value)
    requires BurstDamage(data, damaged, i) && Parse(damaged).Success? && FormatField(damaged) == 2
    ensures StateOf(Parse(damaged).value) == IntegrityCompromised
  {
    hide Crc32.Fold, Covered, Read, EntriesInside, ReadWord;
    Crc32.BurstChangesChecksum(Crc32.INIT, Covered(data), Covered(damaged), i);
    if ChecksumOf(data) == ChecksumOf(damaged) {
      Crc32.XorCancel(Crc32.Fold(Crc32.INIT, Covered(data)), Crc32.Fold(Crc32.INIT, Covered(damaged)), Crc32.INIT);
    }
    ParsedIsOk(data);
    ParsedIsOk(damaged);
  }

  /** The byte at `p`, seen among the covered bytes. */
  lemma CoveredAt(data: seq<Byte>, p: nat)
    requires |data| >= FOOTER_V2_SIZE && p < |data|
    ensures p < |data| - FOOTER_V2_SIZE ==> p < |Covered(data)| && Covered(data)[p] == data[p]
    ensures |data| - FOOTER_V1_SIZE <= p ==> p - 8 < |Covered(data)| && Covered(data)[p - 8] == data[p]
  {
  }

  lemma FormatByte(data: seq<Byte>)
    requires |data| >= FOOTER_V1_SIZE
    ensures FormatField(data) == 1 ==> data[|data| - 8] == 1
    ensures FormatField(data) == 2 ==> data[|data| - 8] == 2
  {
    var f := data[|data| - 8..|data| - 8 + 4];
    assert Decode(f) == f[0] as nat + 256 * Decode(f[1..]);
  }

  /** A burst that reaches the low format byte leaves everything before the entry point alone. */
  lemma FormatDamageIsLate(data: seq<Byte>, damaged: seq<Byte>, i: nat, p: nat)
    requires BurstDamage(data, damaged, i) && FormatField(data) == 2 && FormatField(damaged) == 1
    requires p < |data| - FOOTER_V2_SIZE || |data| - FOOTER_V1_SIZE <= p < |data| - 12
    ensures damaged[p] == data[p]
  {
    hide Covered, FormatField, ReadWord;
    FormatByte(data);
    FormatByte(damaged);
    CoveredAt(data, |data| - 8);
    CoveredAt(damaged, |data| - 8);
    CoveredAt(data, p);
    CoveredAt(damaged, p);
  }

  lemma SameRead(data: seq<Byte>, damaged: seq<Byte>, at: nat, n: nat)
    requires at + n <= |data| == |damaged| && forall p | at <= p < at + n :: damaged[p] == data[p]
    ensures Read(damaged, at, n) == Read(data, at, n)
  {
    assert damaged[at..at + n] == data[at..at + n];
  }

  lemma ParsesAsOld(data: seq<Byte>, damaged: seq<Byte>)
    requires Parse(data).Success? && Parse(data).value.formatVersion == 2 && |data| == |damaged| >= FOOTER_V2_SIZE
    requires FormatField(damaged) == 1 && MagicField(damaged) == MAGIC
    requires forall p | 0 <= p < |data| - FOOTER_V2_SIZE || |data| - FOOTER_V1_SIZE <= p < |data| - 12 ::
             damaged[p] == data[p]
    ensures Boots(damaged)
  {
    hide Read, ReadWord, Covered;
    var core := |data| - FOOTER_V1_SIZE;
    SameRead(data, damaged, core, 4);
    SameRead(data, damaged, core + 4, 4);
    SameRead(data, damaged, core + 8, 4);
    var tables, count := Read(data, core, 4), Read(data, core + 4, 4);
    var base := SegmentTableBase(tables, Read(data, core + 8, 4));
    forall i | 0 <= i < count ensures base + Records(i + 1) <= |data| && EntryEnd(damaged, base, i) <= tables {
      EntryFits(base, i, count);
      SameRead(data, damaged, base + Records(i) + 4, 4);
      SameRead(data, damaged, base + Records(i) + 8, 4);
      assert EntryEnd(data, base, i) <= tables;
    }
  }

  /**
   A burst of up to four covered bytes leaves an image bootable if and only if it turns the format field
   into 1: version 1 images carry no checksum, so nothing is checked any more.
   */
  lemma DamageBootsIff(data: seq<Byte>, damaged: seq<Byte>, i: nat)
    requires Parse(data).Success? && Parse(data).value.formatVersion == 2 && ChecksumValid(Parse(data).value)
    requires BurstDamage(data, damaged, i)
    ensures Boots(damaged) <==> FormatField(damaged) == 1 && MagicField(damaged) == MAGIC
  {
    hide Covered, Read, EntriesInside, ReadWord, StateOf, BurstDamage, ParseTables;
    BurstSize(data, damaged, i);
    assert FormatField(data) == 2 by { ParsedFormat(data); }
    if Parse(damaged).Success? {
      ParsedFormat(damaged);
      if FormatField(damaged) == 2 { DamageNoticed(data, damaged, i); }
    }
    if FormatField(damaged) == 1 && MagicField(damaged) == MAGIC {
      forall p | 0 <= p < |data| - FOOTER_V2_SIZE || |data| - FOOTER_V1_SIZE <= p < |data| - 12
          ensures damaged[p] == data[p] {
        FormatDamageIsLate(data, damaged, i, p);
      }
      ParsesAsOld(data, damaged);
    }
  }

  lemma BurstSize(data: seq<Byte>, damaged: seq<Byte>, i: nat)
    requires BurstDamage(data, damaged, i)
    ensures |data| == |damaged| >= FOOTER_V2_SIZE
  {
  }

  lemma ParsedFormat(data: seq<Byte>)
    requires Parse(data).Success?
    ensures |data| >= FOOTER_V1_SIZE && MagicField(data) == MAGIC
            && Parse(data).value.formatVersion == FormatField(data)
    ensures FormatField(data) == 1 || FormatField(data) == 2
  {
    hide Read, EntriesInside, ReadWord;
  }

  /** One byte is enough: any version 2 image boots, unchecked, once its format byte is 1. */
  lemma FormatByteBypassesChecksum(data: seq<Byte>)
    requires Parse(data).Success? && Parse(data).value.formatVersion == 2 && |data| >= FOOTER_V2_SIZE
    ensures var damaged := data[|data| - 8 := 1];
            && BurstDamage(data, damaged, |data| - 16) && Boots(damaged)
            && Parse(damaged).Success? && ChecksumValid(Parse(damaged).value)
  {
    hide EntriesInside, ParseTables, StateOf;
    var n := |data|;
    var damaged := data[n - 8 := 1];
    ParsedFormat(data);
    FormatByte(data);
    var f, g := data[n - 8..n - 8 + 4], damaged[n - 8..n - 8 + 4];
    assert f[1..] == g[1..];
    assert Decode(f) == f[0] as nat + 256 * Decode(f[1..]) && Decode(g) == g[0] as nat + 256 * Decode(g[1..]);
    assert FormatField(damaged) == 1;
    assert damaged[n - 4..n - 4 + 4] == data[n - 4..n - 4 + 4];
    ParsesAsOld(data, damaged);
    OldIsValid(damaged);
    BypassIsBurst(data);
  }

  lemma BypassIsBurst(data: seq<Byte>)
    requires |data| >= FOOTER_V2_SIZE && data[|data| - 8] == 2
    ensures BurstDamage(data, data[|data| - 8 := 1], |data| - 16)
  {
    var n := |data|;
    var damaged := data[n - 8 := 1];
    var fb := n - FOOTER_V2_SIZE;
    assert damaged[..fb] == data[..fb] && damaged[fb + 4..fb + 20] == data[fb + 4..fb + 20];
    assert damaged[fb..fb + 4] == data[fb..fb + 4];
    CoveredAt(data, n - 8);
    CoveredAt(damaged, n - 8);
  }

  // --- Slot selection ----------------------------------------------------------------------

  datatype Slot = A | B

  function CompareVersion(a: Version, b: Version): int {
    if a.major != b.major then a.major - b.major
    else if a.minor != b.minor then a.minor - b.minor
    else a.patch - b.patch
  }

  /** None when neither slot is bootable. */
  function SelectFirmware(a: Image, b: Image): Option<Slot> {
    match (StateOf(a) == Default, StateOf(b) == Default)
    case (true, false) => Some(A)
    case (false, true) => Some(B)
    case (false, false) => None
    case (true, true) =>
      var c := CompareVersion(a.version, b.version);
      if c > 0 then Some(A) else if c < 0 then Some(B)
      else if a.timestamp > b.timestamp then Some(A) else if a.timestamp < b.timestamp then Some(B)
      else Some(A)
  }

  /** The preference order over bootable images: newer version, then newer flash. */
  predicate Newer(a: Image, b: Image) {
    var v, w := a.version, b.version;
    || v.major > w.major
    || (v.major == w.major && v.minor > w.minor)
    || (v.major == w.major && v.minor == w.minor && v.patch > w.patch)
    || (v == w && a.timestamp > b.timestamp)
  }

  /** A slot is chosen exactly when one is bootable; the chosen one is bootable and no bootable slot is newer. */
  lemma SelectionIsBest(a: Image, b: Image)
    ensures SelectFirmware(a, b).Some? <==> StateOf(a) == Default || StateOf(b) == Default
    ensures var chosen := SelectFirmware(a, b);
            chosen.Some? ==>
              var (c, other) := if chosen.value == A then (a, b) else (b, a);
              StateOf(c) == Default && (StateOf(other) == Default ==> !Newer(other, c))
    ensures StateOf(a) == Default && StateOf(b) == Default ==> (SelectFirmware(a, b) == Some(B) <==> Newer(b, a))
  {
    hide StateOf;
  }
}
