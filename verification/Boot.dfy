/**
 The boot loader's segment loop over raw memory, and the end-to-end statement:
 what was linked is what memory holds after boot.
 */
module Boot {
  import opened Wrappers
  import opened LittleEndian
  import opened PlacesImage
  import Crc32
  import BitOps
  import Link
  import LayoutCursors
  import LayoutSolver
  import LayoutSolve
  import LayoutPasses
  import LayoutRoom
  import LayoutTheorems

  type Memory = array<Byte>

  function Zeros(n: nat): (z: seq<Byte>)
    ensures |z| == n
  {
    seq(n, _ => 0)
  }

  /** `ptr::copy`: source and destination may overlap. */
  method CopyBytes(mem: Memory, src: nat, dest: nat, n: nat)
    requires src + n <= mem.Length && dest + n <= mem.Length
    modifies mem
    ensures mem[..] == Blit(old(mem[..]), dest, old(mem[src..src + n]))
  {
    forall i | 0 <= i < n {
      mem[dest + i] := mem[src + i];
    }
  }

  method ZeroBytes(mem: Memory, start: nat, n: nat)
    requires start + n <= mem.Length
    modifies mem
    ensures mem[..] == Blit(old(mem[..]), start, Zeros(n))
  {
    forall i | 0 <= i < n {
      mem[start + i] := 0;
    }
  }

  /** The bytes are already at their linker address inside the image. */
  predicate SelfResident(s: Segment, base: nat) {
    s.dest == base + s.fileOffset
  }

  /** Bytes a loaded segment occupies: copied ones and cleared ones. */
  function Span(s: Segment): nat {
    |s.data| + s.ZeroFill()
  }

  predicate SpansApart(s: Segment, t: Segment) {
    s.dest + Span(s) <= t.dest || t.dest + Span(t) <= s.dest
  }

  /** Destinations exist, do not meet each other, and do not meet the image they are read from. */
  ghost predicate Loadable(segments: seq<Segment>, base: nat, size: nat, limit: nat) {
    && base + size <= limit
    && (forall i | 0 <= i < |segments| && !SelfResident(segments[i], base) ::
          && segments[i].dest + Span(segments[i]) <= limit
          && (segments[i].dest + Span(segments[i]) <= base || base + size <= segments[i].dest))
    && (forall i, j | 0 <= i < j < |segments| && !SelfResident(segments[i], base) && !SelfResident(segments[j], base) ::
          SpansApart(segments[i], segments[j]))
  }

  /** Memory holds the segment where it runs, and cleared memory behind copied segments. */
  ghost predicate Loaded(s: Segment, base: nat, mem: seq<Byte>) {
    && Holds(mem, s.dest, s.data)
    && (!SelfResident(s, base) ==> Holds(mem, s.dest + |s.data|, Zeros(s.ZeroFill())))
  }

  ghost predicate SegmentsOf(img: Image, segments: seq<Segment>) {
    ImageOk(img) && |segments| == img.segmentCount && forall i | 0 <= i < |segments| :: SegmentAt(img, i) == segments[i]
  }

  /** State after the first `n` segments. */
  ghost predicate LoadDone(segments: seq<Segment>, n: nat, base: nat, image: seq<Byte>, before: seq<Byte>,
                           mem: seq<Byte>)
    requires n <= |segments|
  {
    && |mem| == |before|
    && Holds(mem, base, image)
    && (forall i | 0 <= i < n && !SelfResident(segments[i], base) :: Loaded(segments[i], base, mem))
    && (forall a | 0 <= a < |mem| && Untouched(segments, n, base, a) :: mem[a] == before[a])
  }

  ghost predicate Untouched(segments: seq<Segment>, n: nat, base: nat, a: nat)
    requires n <= |segments|
  {
    forall i | 0 <= i < n && !SelfResident(segments[i], base) ::
        a < segments[i].dest || segments[i].dest + Span(segments[i]) <= a
  }

  function AfterLoad(mem: seq<Byte>, s: Segment): seq<Byte>
    requires s.dest + Span(s) <= |mem|
  {
    Blit(Blit(mem, s.dest, s.data), s.dest + |s.data|, Zeros(s.ZeroFill()))
  }

  lemma LoadStep(segments: seq<Segment>, n: nat, base: nat, image: seq<Byte>, before: seq<Byte>, mem: seq<Byte>)
    requires n < |segments| && Loadable(segments, base, |image|, |before|)
             && LoadDone(segments, n, base, image, before, mem)
    requires !SelfResident(segments[n], base)
    ensures segments[n].dest + Span(segments[n]) <= |mem|
    ensures LoadDone(segments, n + 1, base, image, before, AfterLoad(mem, segments[n]))
  {
    hide Holds, SelfResident;
    var s := segments[n];
    var zeros := Zeros(s.ZeroFill());
    var mid := Blit(mem, s.dest, s.data);
    var out := Blit(mid, s.dest + |s.data|, zeros);
    LoadKeeps(mem, s, base, image);
    LoadPuts(mem, s);
    forall i | 0 <= i < n && !SelfResident(segments[i], base) ensures Loaded(segments[i], base, out) {
      LoadKeeps(mem, s, segments[i].dest, segments[i].data);
      LoadKeeps(mem, s, segments[i].dest + |segments[i].data|, Zeros(segments[i].ZeroFill()));
    }
    forall a | 0 <= a < |out| && Untouched(segments, n + 1, base, a) ensures out[a] == before[a] {
      assert Untouched(segments, n, base, a);
      assert a < s.dest || s.dest + Span(s) <= a;
    }
  }

  lemma LoadKeeps(mem: seq<Byte>, s: Segment, at: nat, held: seq<Byte>)
    requires s.dest + Span(s) <= |mem| && Holds(mem, at, held)
    requires at + |held| <= s.dest || s.dest + Span(s) <= at
    ensures Holds(AfterLoad(mem, s), at, held)
  {
    hide Holds;
    BlitKeeps(mem, s.dest, s.data, at, held);
    BlitKeeps(Blit(mem, s.dest, s.data), s.dest + |s.data|, Zeros(s.ZeroFill()), at, held);
  }

  lemma LoadPuts(mem: seq<Byte>, s: Segment)
    requires s.dest + Span(s) <= |mem|
    ensures Holds(AfterLoad(mem, s), s.dest, s.data)
    ensures Holds(AfterLoad(mem, s), s.dest + |s.data|, Zeros(s.ZeroFill()))
  {
    hide Holds;
    var mid := Blit(mem, s.dest, s.data);
    BlitHolds(mem, s.dest, s.data);
    BlitHolds(mid, s.dest + |s.data|, Zeros(s.ZeroFill()));
    BlitKeeps(mid, s.dest + |s.data|, Zeros(s.ZeroFill()), s.dest, s.data);
  }

  /**
   Loads every segment of the image that sits in memory at `base`. The image is read in place
   while the loop writes, so destinations must keep clear of it.
   */
  method LoadSegments(mem: Memory, base: nat, size: nat, ghost segments: seq<Segment>)
    returns (r: Result<nat, ParseError>)
    requires base + size <= mem.Length
    requires Parse(mem[base..base + size]).Success? ==> SegmentsOf(Parse(mem[base..base + size]).value, segments)
    requires Loadable(segments, base, size, mem.Length)
    modifies mem
    ensures r.Success? <==> old(Parse(mem[base..base + size])).Success?
    ensures r.Success? ==> r.value == old(Parse(mem[base..base + size])).value.entryPoint
    ensures r.Success? ==> forall i | 0 <= i < |segments| :: Loaded(segments[i], base, mem[..])
    ensures mem[base..base + size] == old(mem[base..base + size])
    ensures forall a | 0 <= a < mem.Length && Untouched(segments, |segments|, base, a) :: mem[a] == old(mem[a])
  {
    hide Parse, SegmentAt, ImageOk, LoadDone, Loadable, Untouched, Loaded, Holds, Blit;
    ghost var before := mem[..];
    ghost var image := mem[base..base + size];
    var parsed := Parse(mem[base..base + size]);
    if parsed.Failure? { return Failure(parsed.error); }
    var img := parsed.value;
    ParsedIsOk(image);
    LoadStart(segments, base, image, before);
    for n := 0 to img.segmentCount
      invariant LoadDone(segments, n, base, image, before, mem[..])
    {
      assert SegmentAt(img, n) == segments[n];
      LoadOne(mem, base, SegmentAt(img, n), n, segments, img, image, before);
    }
    AllLoaded(img, segments, base, image, before, mem[..]);
    LoadEnd(segments, base, image, before, mem[..]);
    assert mem[base..base + size] == mem[..][base..base + size];
    r := Success(img.entryPoint);
  }

  lemma LoadStart(segments: seq<Segment>, base: nat, image: seq<Byte>, before: seq<Byte>)
    requires base + |image| <= |before| && image == before[base..base + |image|]
    ensures LoadDone(segments, 0, base, image, before, before)
  {
  }

  lemma LoadEnd(segments: seq<Segment>, base: nat, image: seq<Byte>, before: seq<Byte>, mem: seq<Byte>)
    requires LoadDone(segments, |segments|, base, image, before, mem)
    ensures |mem| == |before| && base + |image| <= |mem| && mem[base..base + |image|] == image
    ensures forall a | 0 <= a < |mem| && Untouched(segments, |segments|, base, a) :: mem[a] == before[a]
  {
    hide Untouched, Loaded;
  }

  /** One iteration: skip bytes that already sit at their address, otherwise copy and clear. */
  method LoadOne(mem: Memory, base: nat, s: Segment, ghost n: nat, ghost segments: seq<Segment>, ghost img: Image,
                 ghost image: seq<Byte>, ghost before: seq<Byte>)
    requires n < |segments| && segments[n] == s && SegmentsOf(img, segments) && img.data == image
    requires Loadable(segments, base, |image|, |before|) && LoadDone(segments, n, base, image, before, mem[..])
    modifies mem
    ensures LoadDone(segments, n + 1, base, image, before, mem[..])
  {
    hide Loadable, Untouched, Loaded, Holds, Blit, SegmentAt, ImageOk, LoadDone;
    assert SegmentAt(img, n) == s;
    SegmentInsideImage(img, n);
    var src := base + s.fileOffset;
    if s.dest != src {
      LoadStep(segments, n, base, image, before, mem[..]);
      ImageHeld(segments, n, base, image, before, mem[..]);
      SourceIsData(mem[..], base, image, s);
      assert mem[src..src + |s.data|] == mem[..][src..src + |s.data|];
      CopyBytes(mem, src, s.dest, |s.data|);
      ZeroBytes(mem, s.dest + |s.data|, s.ZeroFill());
    } else {
      SkipStep(segments, n, base, image, before, mem[..]);
    }
  }

  lemma ImageHeld(segments: seq<Segment>, n: nat, base: nat, image: seq<Byte>, before: seq<Byte>, mem: seq<Byte>)
    requires n <= |segments| && LoadDone(segments, n, base, image, before, mem)
    ensures Holds(mem, base, image) && |mem| == |before|
  {
  }

  lemma SkipStep(segments: seq<Segment>, n: nat, base: nat, image: seq<Byte>, before: seq<Byte>, mem: seq<Byte>)
    requires n < |segments| && LoadDone(segments, n, base, image, before, mem) && SelfResident(segments[n], base)
    ensures LoadDone(segments, n + 1, base, image, before, mem)
  {
    hide Loaded, Holds, SelfResident;
    forall a | 0 <= a < |mem| && Untouched(segments, n + 1, base, a) ensures mem[a] == before[a] {
      assert Untouched(segments, n, base, a);
    }
  }

  lemma SegmentInsideImage(img: Image, i: nat)
    requires ImageOk(img) && i < img.segmentCount
    ensures var s := SegmentAt(img, i); s.FileEnd() <= |img.data| && s.data == img.data[s.fileOffset..s.FileEnd()]
  {
    hide Read;
    var base := SegmentTableBase(img.tablesOffset, img.partitionCount);
    EntryFits(base, i, img.segmentCount);
    assert EntryEnd(img.data, base, i) <= img.tablesOffset;
  }

  lemma SourceIsData(mem: seq<Byte>, base: nat, image: seq<Byte>, s: Segment)
    requires Holds(mem, base, image) && s.FileEnd() <= |image| && s.data == image[s.fileOffset..s.FileEnd()]
    ensures base + s.FileEnd() <= |mem| && mem[base + s.fileOffset..base + s.FileEnd()] == s.data
  {
    forall k | 0 <= k < |s.data| ensures mem[base + s.fileOffset + k] == s.data[k] {
      assert mem[base..base + |image|][s.fileOffset + k] == image[s.fileOffset + k];
    }
  }

  /** Self-resident segments are loaded because the image itself is untouched. */
  lemma AllLoaded(img: Image, segments: seq<Segment>, base: nat, image: seq<Byte>, before: seq<Byte>, mem: seq<Byte>)
    requires SegmentsOf(img, segments) && img.data == image
    requires LoadDone(segments, |segments|, base, image, before, mem)
    ensures forall i | 0 <= i < |segments| :: Loaded(segments[i], base, mem)
  {
    hide SegmentAt;
    forall i | 0 <= i < |segments| ensures Loaded(segments[i], base, mem) {
      if SelfResident(segments[i], base) {
        assert SegmentAt(img, i) == segments[i];
        SegmentInsideImage(img, i);
        SourceIsData(mem, base, image, segments[i]);
      }
    }
  }

  // --- End to end ------------------------------------------------------------------------

  /** Room for the image: at the start of the host place, or clear of every place. */
  ghost predicate HasRoom(ranges: seq<Link.PlaceRange>, host: Option<Link.PlaceRange>, base: nat, room: nat,
                          limit: nat) {
    && base + room <= limit && base + room < U32_LIMIT
    && (forall r | r in ranges :: r.end <= limit)
    && (host.Some? ==> base == host.value.start && base + room <= host.value.end)
    && (host.None? ==> forall r | r in ranges :: base + room <= r.start || r.end <= base)
  }

  /** Linked entries of different places never write over each other or over the image. */
  lemma LinkedIsLoadable(entries: seq<Segment>, ranges: seq<Link.PlaceRange>, segments: seq<Link.LoadSegment>,
                         placed: Link.Placed, host: Option<Link.PlaceRange>, base: nat, size: nat, room: nat,
                         limit: nat)
    requires Link.LinkInput(ranges, segments, placed, host) && Link.Linked(entries, ranges, segments, placed, host)
    requires HasRoom(ranges, host, base, room, limit) && size <= room
    ensures Loadable(entries, base, size, limit)
  {
    hide Link.LinkInput, Link.LinkDone, HasRoom;
    var names, tail :| && |names| == |entries| && Link.Distinct(names)
                       && Link.LinkDone(names, |names|, entries, tail, ranges, segments, placed, host);
    forall i | 0 <= i < |entries|
      ensures Span(entries[i]) == entries[i].memSize
      ensures !SelfResident(entries[i], base) ==>
                entries[i].dest + entries[i].memSize <= limit &&
                (entries[i].dest + entries[i].memSize <= base || base + size <= entries[i].dest)
    {
      EntryClear(names, entries, tail, ranges, segments, placed, host, base, size, room, limit, i);
    }
    forall i, j | 0 <= i < j < |entries| ensures SpansApart(entries[i], entries[j]) {
      Link.EntriesApart(names, entries, tail, ranges, segments, placed, host, i, j);
    }
    RoomBound(ranges, host, base, room, limit);
  }

  lemma RoomBound(ranges: seq<Link.PlaceRange>, host: Option<Link.PlaceRange>, base: nat, room: nat, limit: nat)
    requires HasRoom(ranges, host, base, room, limit)
    ensures base + room <= limit
  {
  }

  lemma EntryClear(names: seq<string>, entries: seq<Segment>, tail: nat, ranges: seq<Link.PlaceRange>,
                   segments: seq<Link.LoadSegment>, placed: Link.Placed, host: Option<Link.PlaceRange>, base: nat,
                   size: nat, room: nat, limit: nat, i: nat)
    requires Link.LinkInput(ranges, segments, placed, host) && HasRoom(ranges, host, base, room, limit) && size <= room
    requires Link.LinkDone(names, |names|, entries, tail, ranges, segments, placed, host) && i < |names|
    ensures Span(entries[i]) == entries[i].memSize
    ensures !SelfResident(entries[i], base) ==>
              entries[i].dest + entries[i].memSize <= limit &&
              (entries[i].dest + entries[i].memSize <= base || base + size <= entries[i].dest)
  {
    hide Link.BlobOf, Link.SinglyMapped, Link.RangeOf, Link.FileOrder;
    var e := entries[i];
    assert Link.EntryOk(e, names[i], ranges, segments, placed, host);
    var r := Link.RangeOf(ranges, names[i]).value;
    if !SelfResident(e, base) && host.Some? {
      assert r != host.value;
      Link.DifferentNamesApart(ranges, r, host.value);
    }
  }

  /** A linked segment is wherever its place's blob is loaded. */
  lemma SegmentLoaded(entries: seq<Segment>, ranges: seq<Link.PlaceRange>, segments: seq<Link.LoadSegment>,
                      placed: Link.Placed, host: Option<Link.PlaceRange>, base: nat, mem: seq<Byte>,
                      s: Link.LoadSegment)
    requires Link.Linked(entries, ranges, segments, placed, host) && s in segments
    requires forall i | 0 <= i < |entries| :: Loaded(entries[i], base, mem)
    ensures Holds(mem, s.paddr, s.data)
  {
    hide Link.FindPlace, Link.LinkDone, Holds, Link.EntryOk;
    var names, tail :| && |names| == |entries|
                       && (forall s | s in segments ::
                           Link.FindPlace(ranges, s.paddr).Some? && Link.FindPlace(ranges, s.paddr).value in names)
                       && Link.LinkDone(names, |names|, entries, tail, ranges, segments, placed, host);
    var i :| 0 <= i < |names| && names[i] == Link.FindPlace(ranges, s.paddr).value;
    EntryParts(names, entries, tail, ranges, segments, placed, host, i);
    assert s in Link.SegmentsOf(ranges, segments, names[i]);
    assert Loaded(entries[i], base, mem);
    HeldInside(mem, entries[i].dest, entries[i].data, s.paddr - entries[i].dest, s.data);
  }

  lemma EntryParts(names: seq<string>, entries: seq<Segment>, tail: nat, ranges: seq<Link.PlaceRange>,
                   segments: seq<Link.LoadSegment>, placed: Link.Placed, host: Option<Link.PlaceRange>, i: nat)
    requires i < |names| && Link.LinkDone(names, |names|, entries, tail, ranges, segments, placed, host)
    ensures Link.EntryOk(entries[i], names[i], ranges, segments, placed, host)
    ensures Link.BlobOf(entries[i].data, entries[i].dest, Link.SegmentsOf(ranges, segments, names[i]))
    ensures entries[i].FileEnd() <= tail < U32_LIMIT && |entries[i].data| <= entries[i].memSize
    ensures exists r :: r in ranges && entries[i].dest + entries[i].memSize <= r.end
  {
    hide Link.BlobOf, Link.FileOrder, Link.RangeOf;
  }

  ghost predicate HeaderFits(header: Builder) {
    && header.segments == [] && header.entryPoint < U32_LIMIT && header.timestamp < Limit(8)
    && header.version.major < U16_LIMIT && header.version.minor < U16_LIMIT && header.version.patch < U16_LIMIT
    && (forall i | 0 <= i < |header.partitions| ::
          var p := header.partitions[i];
          p.nameHash < U32_LIMIT && p.offset < U32_LIMIT && p.size < U32_LIMIT && p.flags < U32_LIMIT)
  }

  lemma LinkedFits(header: Builder, entries: seq<Segment>, ranges: seq<Link.PlaceRange>,
                   segments: seq<Link.LoadSegment>, placed: Link.Placed, host: Option<Link.PlaceRange>)
    requires HeaderFits(header) && Link.LinkInput(ranges, segments, placed, host)
             && Link.Linked(entries, ranges, segments, placed, host)
    ensures forall i | 0 <= i < |entries| :: SegmentFits(entries[i]) && entries[i].FileEnd() < U32_LIMIT
  {
    hide Link.LinkDone, Link.EntryOk, Link.BlobOf;
    var names, tail :| && |names| == |entries|
        && Link.LinkDone(names, |names|, entries, tail, ranges, segments, placed, host);
    forall i | 0 <= i < |entries| ensures SegmentFits(entries[i]) && entries[i].FileEnd() < U32_LIMIT {
      EntryParts(names, entries, tail, ranges, segments, placed, host, i);
    }
  }

  lemma {:induction false} DataEndBound(segments: seq<Segment>, limit: nat)
    requires forall i | 0 <= i < |segments| :: segments[i].FileEnd() < limit
    requires limit > 0
    ensures DataEnd(segments) < limit
  {
    if segments != [] { DataEndBound(segments[..|segments| - 1], limit); }
  }

  /** Size of the image file; `DataEnd` is within 32 bits for anything the linker emits. */
  function ImageSize(header: Builder, entries: seq<Segment>): nat {
    if DataEnd(entries) + 3 < BitOps.U64_LIMIT then
      TablesOffset(entries) + Records(|header.partitions| + |entries|) + FOOTER_V2_SIZE
    else DataEnd(entries)
  }

  datatype BootOutcome = Booted(entry: nat) | LinkFailed(error: Link.LinkError) | TooLarge | NotParsed

  /** Memory the boot neither programs nor loads: outside the image and outside every copied segment. */
  ghost predicate Spared(header: Builder, entries: seq<Segment>, base: nat, a: nat) {
    (a < base || base + ImageSize(header, entries) <= a) && Untouched(entries, |entries|, base, a)
  }

  /** `a` lies in an allocation of the place behind the last of its segments. */
  ghost predicate Behind(ranges: seq<Link.PlaceRange>, segments: seq<Link.LoadSegment>, placed: Link.Placed,
                         r: Link.PlaceRange, a: nat) {
    && (exists k :: k in placed && r.Contains(placed[k].base) && placed[k].base <= a < placed[k].base + placed[k].size)
    && (exists s :: s in segments && r.Contains(s.paddr))
    && (forall s | s in segments && r.Contains(s.paddr) :: s.End() <= a)
  }

  /**
   Links the segments, builds the image, programs it at `base` and runs the boot loop. Once it has
   booted, every PT_LOAD segment's bytes are in memory at its address, copied or in place; what a place
   outside the host allocates behind its segments is cleared; and everything else is as before.
   */
  method LinkAndBoot(ranges: seq<Link.PlaceRange>, segments: seq<Link.LoadSegment>, placed: Link.Placed,
                     host: Option<Link.PlaceRange>, header: Builder, mem: Memory, base: nat, room: nat)
    returns (r: BootOutcome, ghost entries: seq<Segment>)
    requires Link.LinkInput(ranges, segments, placed, host) && HeaderFits(header)
    requires HasRoom(ranges, host, base, room, mem.Length)
    modifies mem
    ensures !r.NotParsed?
    ensures r.LinkFailed? ==> !Link.Placeable(ranges, segments) || forall span ::
            !Link.Compact(ranges, segments, placed, span)
    ensures r.TooLarge? ==> exists entries ::
            Link.Linked(entries, ranges, segments, placed, host) && ImageSize(header, entries) > room
    ensures r.Booted? ==> r.entry == header.entryPoint
    ensures r.Booted? ==> forall s | s in segments :: Holds(mem[..], s.paddr, s.data)
    ensures r.Booted? ==>
              forall q, a | q in ranges && host != Some(q) && 0 <= a < mem.Length
                  && Behind(ranges, segments, placed, q, a) :: mem[a] == 0
    ensures r.Booted? ==> Link.Linked(entries, ranges, segments, placed, host)
    ensures r.Booted? ==> forall a | 0 <= a < mem.Length && Spared(header, entries, base, a) :: mem[a] == old(mem[a])
  {
    hide Link.Placeable, Link.Compact, Link.LinkInput, Link.Linked, HeaderFits, HasRoom, Built, FieldsFit,
         AllFileDisjoint, Parse, Loadable, Loaded, DataEnd, ImageOk, SegmentAt, Holds, Crc32.TableOk, TablesOffset,
         StateOf, ChecksumValid, Untouched, Behind, Link.Emitted;
    entries := [];
    InputNonempty(ranges, segments, placed, host);
    var linked := Link.LinkImage(ranges, segments, placed, host);
    if linked.Failure? { return LinkFailed(linked.error), entries; }
    entries := linked.value;
    var b := header.(segments := linked.value);
    Link.LinkedFilesDisjoint(entries, ranges, segments, placed, host);
    EntriesBounded(header, entries, ranges, segments, placed, host);
    if ImageSize(header, linked.value) > room { return TooLarge, entries; }
    BuilderFits(header, entries, ranges, segments, placed, host, base, room, mem.Length);
    var table := Crc32.BuildTable();
    var bytes := Build(table, b);
    BuildThenParse(b, bytes);
    BuiltSize(b, bytes);
    RoomBound(ranges, host, base, room, mem.Length);
    Program(mem, base, bytes);
    LinkedIsLoadable(entries, ranges, segments, placed, host, base, |bytes|, room, mem.Length);
    assert mem[base..base + |bytes|] == bytes;
    var loaded := LoadSegments(mem, base, |bytes|, entries);
    if loaded.Failure? { return NotParsed, entries; }
    forall s | s in segments ensures Holds(mem[..], s.paddr, s.data) {
      SegmentLoaded(entries, ranges, segments, placed, host, base, mem[..], s);
    }
    forall q, a | q in ranges && host != Some(q) && 0 <= a < mem.Length && Behind(ranges, segments, placed, q, a)
        ensures mem[a] == 0 {
      BehindCleared(header, entries, ranges, segments, placed, host, base, room, mem[..], q, a);
    }
    r := Booted(loaded.value);
  }

  lemma InputNonempty(ranges: seq<Link.PlaceRange>, segments: seq<Link.LoadSegment>, placed: Link.Placed,
                      host: Option<Link.PlaceRange>)
    requires Link.LinkInput(ranges, segments, placed, host)
    ensures forall i | 0 <= i < |segments| :: segments[i].data != []
  {
  }

  /**
   The entry of a place outside the host is copied, and its zero fill reaches to the end of what the place
   allocates.
   */
  lemma {:induction false} BehindCleared(header: Builder, entries: seq<Segment>, ranges: seq<Link.PlaceRange>,
                      segments: seq<Link.LoadSegment>, placed: Link.Placed, host: Option<Link.PlaceRange>, base: nat,
                      room: nat, mem: seq<Byte>, q: Link.PlaceRange, a: nat)
    requires Link.LinkInput(ranges, segments, placed, host) && Link.Linked(entries, ranges, segments, placed, host)
    requires HasRoom(ranges, host, base, room, |mem|) && DataEnd(entries) + 3 < BitOps.U64_LIMIT
             && ImageSize(header, entries) <= room
    requires forall i | 0 <= i < |entries| :: Loaded(entries[i], base, mem)
    requires q in ranges && host != Some(q) && a < |mem| && Behind(ranges, segments, placed, q, a)
    ensures mem[a] == 0
  {
    hide Link.FindPlace, Link.LinkDone, Holds, Link.EntryOk, Link.LinkInput, HasRoom, DataEnd, TablesOffset, Records,
         Loaded;
    var names, tail :| && |names| == |entries|
                       && (forall s | s in segments ::
                           Link.FindPlace(ranges, s.paddr).Some? && Link.FindPlace(ranges, s.paddr).value in names)
                       && Link.LinkDone(names, |names|, entries, tail, ranges, segments, placed, host);
    var s :| s in segments && q.Contains(s.paddr);
    InPlaceIffHeld(ranges, segments, placed, host, q, s);
    var i :| 0 <= i < |names| && names[i] == q.name;
    EntryParts(names, entries, tail, ranges, segments, placed, host, i);
    var e := entries[i];
    EntryReaches(e, ranges, segments, placed, host, q, a);
    DataEndCovers(entries, i);
    TablesBehind(header, entries);
    NotInImage(e, ranges, segments, placed, host, q, base, room, |mem|);
    assert Loaded(e, base, mem);
    ZeroAt(e, base, mem, a);
  }

  lemma {:induction false} InPlaceIffHeld(ranges: seq<Link.PlaceRange>, segments: seq<Link.LoadSegment>,
                                          placed: Link.Placed, host: Option<Link.PlaceRange>, q: Link.PlaceRange,
                                          s: Link.LoadSegment)
    requires Link.LinkInput(ranges, segments, placed, host) && q in ranges
    ensures Link.FindPlace(ranges, s.paddr) == Some(q.name) <==> q.Contains(s.paddr)
    ensures Link.RangeOf(ranges, q.name) == Some(q)
  {
    Link.PlaceOfAddress(ranges, s.paddr, q);
  }

  lemma ZeroAt(e: Segment, base: nat, mem: seq<Byte>, a: nat)
    requires Loaded(e, base, mem) && !SelfResident(e, base) && e.dest + |e.data| <= a < e.dest + e.memSize
             && |e.data| <= e.memSize
    ensures a < |mem| && mem[a] == 0
  {
    var start, zeros := e.dest + |e.data|, Zeros(e.ZeroFill());
    assert Holds(mem, start, zeros);
    assert mem[start..start + |zeros|][a - start] == zeros[a - start];
  }

  lemma {:induction false} EntryReaches(e: Segment, ranges: seq<Link.PlaceRange>, segments: seq<Link.LoadSegment>,
                                        placed: Link.Placed, host: Option<Link.PlaceRange>, q: Link.PlaceRange, a: nat)
    requires Link.LinkInput(ranges, segments, placed, host) && q in ranges
             && Link.EntryOk(e, q.name, ranges, segments, placed, host)
    requires Behind(ranges, segments, placed, q, a)
    ensures e.dest + |e.data| <= a < e.dest + e.memSize
    ensures q.start <= e.dest < q.end && Link.RangeOf(ranges, q.name) == Some(q)
  {
    hide Link.FindPlace, Holds;
    var last :| last in Link.SegmentsOf(ranges, segments, q.name) && last.End() == e.dest + |e.data|;
    assert last in segments && Link.FindPlace(ranges, last.paddr) == Some(q.name);
    InPlaceIffHeld(ranges, segments, placed, host, q, last);
  }

  lemma {:induction false} DataEndCovers(segments: seq<Segment>, i: nat)
    requires i < |segments|
    ensures segments[i].FileEnd() <= DataEnd(segments)
  {
    if i < |segments| - 1 { DataEndCovers(segments[..|segments| - 1], i); }
  }

  lemma {:induction false} TablesBehind(header: Builder, entries: seq<Segment>)
    requires DataEnd(entries) + 3 < BitOps.U64_LIMIT
    ensures DataEnd(entries) < ImageSize(header, entries)
  {
    hide DataEnd, BitOps.AlignUp;
  }

  /** A blob outside the host place is never already where it runs. */
  lemma NotInImage(e: Segment, ranges: seq<Link.PlaceRange>, segments: seq<Link.LoadSegment>, placed: Link.Placed,
                   host: Option<Link.PlaceRange>, q: Link.PlaceRange, base: nat, room: nat, limit: nat)
    requires q in ranges && q.start <= e.dest < q.end && host != Some(q)
             && Link.LinkInput(ranges, segments, placed, host)
    requires HasRoom(ranges, host, base, room, limit) && e.FileEnd() < room
    ensures !SelfResident(e, base)
  {
    hide Link.SinglyMapped;
    if host.Some? { Link.DifferentNamesApart(ranges, host.value, q); }
  }

  method Program(mem: Memory, base: nat, bytes: seq<Byte>)
    requires base + |bytes| <= mem.Length
    modifies mem
    ensures mem[base..base + |bytes|] == bytes
    ensures forall a | 0 <= a < mem.Length && (a < base || base + |bytes| <= a) :: mem[a] == old(mem[a])
  {
    forall i | 0 <= i < |bytes| {
      mem[base + i] := bytes[i];
    }
  }

  lemma {:induction false} EntriesBounded(header: Builder, entries: seq<Segment>, ranges: seq<Link.PlaceRange>,
                       segments: seq<Link.LoadSegment>, placed: Link.Placed, host: Option<Link.PlaceRange>)
    requires HeaderFits(header) && Link.LinkInput(ranges, segments, placed, host)
             && Link.Linked(entries, ranges, segments, placed, host)
    ensures DataEnd(entries) + 3 < BitOps.U64_LIMIT
  {
    hide Link.LinkInput, Link.Linked, HeaderFits;
    LinkedFits(header, entries, ranges, segments, placed, host);
    DataEndBound(entries, U32_LIMIT);
  }

  lemma {:induction false} BuilderFits(header: Builder, entries: seq<Segment>, ranges: seq<Link.PlaceRange>,
                    segments: seq<Link.LoadSegment>, placed: Link.Placed, host: Option<Link.PlaceRange>, base: nat,
                    room: nat, limit: nat)
    requires HeaderFits(header) && Link.LinkInput(ranges, segments, placed, host)
             && Link.Linked(entries, ranges, segments, placed, host)
    requires HasRoom(ranges, host, base, room, limit) && DataEnd(entries) + 3 < BitOps.U64_LIMIT
    requires TablesOffset(entries) + Records(|header.partitions| + |entries|) + FOOTER_V2_SIZE <= room
    ensures FieldsFit(header.(segments := entries))
  {
    hide Link.LinkInput, Link.Linked, TablesOffset, DataEnd;
    LinkedFits(header, entries, ranges, segments, placed, host);
  }

  lemma BuiltSize(b: Builder, bytes: seq<Byte>)
    requires Built(b, bytes) && DataEnd(b.segments) + 3 < BitOps.U64_LIMIT
    ensures |bytes| == TablesOffset(b.segments) + Records(|b.partitions| + |b.segments|) + FOOTER_V2_SIZE
  {
    hide DataEnd, TablesOffset, RegionOk, ChecksumOf, Crc32.BytesOf, PartitionTable, SegmentTable;
    var region :| BuiltFrom(b, bytes, region);
    ChecksumLength(ChecksumOf(bytes));
  }

  // --- From the layout to memory -------------------------------------------------------------

  /** The linker's ranges are those of the requested places. */
  ghost predicate RangesCover(ranges: seq<Link.PlaceRange>, places: set<LayoutCursors.Place>) {
    forall p | p in places && LayoutCursors.Resolves(p) ::
      exists r :: r in ranges && r.start == LayoutCursors.PlaceKey(p) && r.end == LayoutCursors.PlaceKey(p) + p.size
  }

  /** What the layout solver hands over meets the linker's demand on allocations. */
  lemma LayoutSatisfiesLinker(placed: Link.Placed, spots: LayoutSolver.Spots, ctx: LayoutSolver.Context,
                              ranges: seq<Link.PlaceRange>)
    requires LayoutSolve.WellPlaced(placed, spots, ctx) && LayoutPasses.AllCanonical(spots) && Link.SinglyMapped(ranges)
    requires RangesCover(ranges, ctx.places)
    ensures Link.AllocationsInside(ranges, placed)
  {
    hide LayoutCursors.PlaceKey, LayoutCursors.Resolves, Link.SinglyMapped, LayoutCursors.TargetBase;
    forall k, r | k in placed && r in ranges && r.Contains(placed[k].base)
        ensures placed[k].base + placed[k].size <= r.end {
      if placed[k].size > 0 {
        var s := spots[k];
        assert s.Inside(ctx.reservations) && placed[k] == s.Alloc() && s.Canonical();
        var own :| own in ranges && own.start == LayoutCursors.PlaceKey(s.place)
            && own.end == LayoutCursors.PlaceKey(s.place) + s.place.size;
        if own != r { Link.DifferentNamesApart(ranges, own, r); }
      }
    }
  }

  datatype BuildOutcome =
    | NoLayout(failure: LayoutSolver.LayoutError)
    | Ran(layout: LayoutSolve.Solution, outcome: BootOutcome)

  /**
   The whole way: lay the regions out, link segments against the layout, build the image and boot it.
   The layout is one the linker accepts; what has been booted holds every segment, clears every region
   outside the host behind them, and leaves the rest as it was; and only an image larger than its room
   is refused.
   */
  method BuildAndBoot(requests: seq<LayoutSolver.Request>, reservations: LayoutCursors.Reservations,
                      measured: LayoutPasses.Pass -> LayoutPasses.Measured, ranges: seq<Link.PlaceRange>,
                      segments: seq<Link.LoadSegment>, host: Option<Link.PlaceRange>, header: Builder, mem: Memory,
                      base: nat, room: nat)
    returns (r: BuildOutcome, ghost entries: seq<Segment>)
    requires LayoutSolver.DistinctKeys(requests) && LayoutSolver.Consistent(LayoutSolve.PlacesOf(requests))
    requires LayoutSolver.Separated(LayoutSolve.PlacesOf(requests)) && LayoutTheorems.Agreeing(requests)
    requires Link.SegmentInput(ranges, segments, host) && RangesCover(ranges, LayoutSolve.PlacesOf(requests))
    requires HeaderFits(header) && HasRoom(ranges, host, base, room, mem.Length)
    modifies mem
    ensures LayoutRoom.Buildable(requests, reservations, measured) ==> r.Ran?
    ensures r.Ran? ==> LayoutTheorems.NoOverlap(r.layout, LayoutSolve.GroupOf(requests, |requests|))
    ensures r.Ran? ==> Link.LinkInput(ranges, segments, r.layout.placed, host) && !r.outcome.NotParsed?
    ensures r.Ran? && r.outcome.LinkFailed? ==>
              !Link.Placeable(ranges, segments) || forall span :: !Link.Compact(ranges, segments, r.layout.placed, span)
    ensures r.Ran? && r.outcome.Booted? ==>
              && r.outcome.entry == header.entryPoint
              && (forall s | s in segments :: Holds(mem[..], s.paddr, s.data))
              && forall q, a | q in ranges && host != Some(q) && 0 <= a < mem.Length
                  && Behind(ranges, segments, r.layout.placed, q, a) ::
                   mem[a] == 0
    ensures r.Ran? && r.outcome.Booted? ==>
              && Link.Linked(entries, ranges, segments, r.layout.placed, host)
              && forall a | 0 <= a < mem.Length && Spared(header, entries, base, a) :: mem[a] == old(mem[a])
    ensures r.Ran? && r.outcome.TooLarge? ==> exists entries ::
            Link.Linked(entries, ranges, segments, r.layout.placed, host) && ImageSize(header, entries) > room
  {
    hide LayoutSolver.DistinctKeys, LayoutSolver.Consistent, LayoutSolver.Separated, LayoutTheorems.Agreeing,
         LayoutRoom.Buildable, LayoutTheorems.NoOverlap, Link.Placeable, Link.Compact, Link.Linked, HasRoom, HeaderFits,
         Holds, Behind, Spared, LayoutSolve.WellPlaced, LayoutPasses.AllCanonical, LayoutSolve.AllInside,
         LayoutTheorems.Finished, LayoutSolve.GroupOf, RangesCover, LayoutTheorems.AddressAligned,
         Link.AllocationsInside;
    entries := [];
    ghost var spots;
    var built;
    built, spots := LayoutTheorems.BuildLayout(requests, reservations, measured);
    if built.Failure? { return NoLayout(built.error), entries; }
    LayoutSatisfiesLinker(built.value.placed, spots, LayoutSolve.ContextOf(requests, reservations), ranges);
    var outcome;
    outcome, entries := LinkAndBoot(ranges, segments, built.value.placed, host, header, mem, base, room);
    r := Ran(built.value, outcome);
  }
}
