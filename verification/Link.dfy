/**
 Linking: PT_LOAD segments are grouped by place, merged into one blob per place,
 and given file offsets inside the image.
 */
module Link {
  import opened Wrappers
  import opened LittleEndian
  import BitOps
  import LayoutCursors
  import PlacesImage
  import StableSort

  datatype LoadSegment = LoadSegment(paddr: nat, data: seq<Byte>, owner: string) {
    function End(): nat { paddr + |data| }
  }

  datatype PlaceRange = PlaceRange(start: nat, end: nat, name: string) {
    predicate Contains(addr: nat) { start <= addr < end }
  }

  datatype LinkError =
    | NoSegments
    | UnmappedSegment(owner: string, addr: nat)
    | Overlap(first: LoadSegment, second: LoadSegment)
    | Panicked

  type Entry = PlacesImage.Segment

  type Placed = map<LayoutCursors.RegionKey, LayoutCursors.Allocation>

  // --- Place lookup ----------------------------------------------------------------

  function FindPlace(ranges: seq<PlaceRange>, addr: nat): Option<string> {
    if ranges == [] then None
    else if ranges[0].Contains(addr) then Some(ranges[0].name)
    else FindPlace(ranges[1..], addr)
  }

  /** No range holds the address. */
  predicate Unmapped(ranges: seq<PlaceRange>, addr: nat) {
    forall r | r in ranges :: !r.Contains(addr)
  }

  /** Range `i` is the first that holds the address. */
  predicate FirstHolding(ranges: seq<PlaceRange>, addr: nat, i: nat) {
    i < |ranges| && ranges[i].Contains(addr) && forall j | 0 <= j < i :: !ranges[j].Contains(addr)
  }

  /** The address belongs to the place: the first range that holds it carries its name. */
  ghost predicate BelongsTo(ranges: seq<PlaceRange>, addr: nat, name: string) {
    exists i: nat :: FirstHolding(ranges, addr, i) && ranges[i].name == name
  }

  /** All ranges are looked at, in order. */
  lemma {:induction false} FindPlaceIff(ranges: seq<PlaceRange>, addr: nat)
    ensures FindPlace(ranges, addr).None? <==> Unmapped(ranges, addr)
    ensures forall name :: FindPlace(ranges, addr) == Some(name) <==> BelongsTo(ranges, addr, name)
  {
    hide BelongsTo;
    if FindPlace(ranges, addr).None? { NotFound(ranges, addr); } else {
      var i := FindPlaceFinds(ranges, addr);
      assert ranges[i] in ranges;
      forall name ensures BelongsTo(ranges, addr, name) <==> name == ranges[i].name {
        BelongsToFirst(ranges, addr, i, name);
      }
    }
    if Unmapped(ranges, addr) {
      forall name ensures !BelongsTo(ranges, addr, name) { UnmappedBelongsNowhere(ranges, addr, name); }
    }
  }

  lemma {:induction false} NotFound(ranges: seq<PlaceRange>, addr: nat)
    requires FindPlace(ranges, addr).None?
    ensures Unmapped(ranges, addr)
  {
    if ranges != [] {
      NotFound(ranges[1..], addr);
      assert ranges == [ranges[0]] + ranges[1..];
    }
  }

  lemma UnmappedBelongsNowhere(ranges: seq<PlaceRange>, addr: nat, name: string)
    requires Unmapped(ranges, addr)
    ensures !BelongsTo(ranges, addr, name)
  {
  }

  lemma BelongsToFirst(ranges: seq<PlaceRange>, addr: nat, i: nat, name: string)
    requires FirstHolding(ranges, addr, i)
    ensures BelongsTo(ranges, addr, name) <==> name == ranges[i].name
  {
    if BelongsTo(ranges, addr, name) {
      var j: nat :| FirstHolding(ranges, addr, j) && ranges[j].name == name;
      assert i == j;
    }
  }

  lemma {:induction false} FindPlaceFinds(ranges: seq<PlaceRange>, addr: nat) returns (i: nat)
    requires FindPlace(ranges, addr).Some?
    ensures FirstHolding(ranges, addr, i) && FindPlace(ranges, addr) == Some(ranges[i].name)
  {
    if ranges[0].Contains(addr) {
      i := 0;
    } else {
      var j := FindPlaceFinds(ranges[1..], addr);
      i := j + 1;
    }
  }

  /** The first range carrying a name. */
  function RangeOf(ranges: seq<PlaceRange>, name: string): Option<PlaceRange> {
    if ranges == [] then None
    else if ranges[0].name == name then Some(ranges[0])
    else RangeOf(ranges[1..], name)
  }

  /** Each place has one range, and ranges do not meet. */
  ghost predicate SinglyMapped(ranges: seq<PlaceRange>) {
    && (forall i, j | 0 <= i < j < |ranges| :: ranges[i].name != ranges[j].name)
    && (forall i, j | 0 <= i < j < |ranges| :: RangesApart(ranges[i], ranges[j]))
    && (forall i | 0 <= i < |ranges| :: ranges[i].end < U32_LIMIT)
  }

  predicate RangesApart(r: PlaceRange, q: PlaceRange) {
    r.end <= q.start || q.end <= r.start
  }

  lemma {:induction false} RangeOfName(ranges: seq<PlaceRange>, i: nat)
    requires i < |ranges| && forall j, k | 0 <= j < k < |ranges| :: ranges[j].name != ranges[k].name
    ensures RangeOf(ranges, ranges[i].name) == Some(ranges[i])
  {
    if i > 0 {
      assert ranges[0].name != ranges[i].name;
      assert ranges[1..][i - 1] == ranges[i];
      RangeOfName(ranges[1..], i - 1);
    }
  }

  /** With ranges apart, the place of an address is the place whose range holds it, and the range is found by name. */
  lemma {:induction false} PlaceOfAddress(ranges: seq<PlaceRange>, addr: nat, r: PlaceRange)
    requires SinglyMapped(ranges) && r in ranges
    ensures FindPlace(ranges, addr) == Some(r.name) <==> r.Contains(addr)
    ensures RangeOf(ranges, r.name) == Some(r)
  {
    hide FindPlace, FirstHolding, RangeOf;
    var k :| 0 <= k < |ranges| && ranges[k] == r;
    RangeOfName(ranges, k);
    FindPlaceIff(ranges, addr);
    if FindPlace(ranges, addr).Some? {
      var i := FindPlaceFinds(ranges, addr);
      HoldsAt(ranges, addr, i);
      if i != k { DifferentNamesApart(ranges, ranges[i], r); }
    }
  }

  lemma HoldsAt(ranges: seq<PlaceRange>, addr: nat, i: nat)
    requires FirstHolding(ranges, addr, i)
    ensures i < |ranges| && ranges[i] in ranges && ranges[i].Contains(addr)
  {
  }

  lemma DifferentNamesApart(ranges: seq<PlaceRange>, r: PlaceRange, q: PlaceRange)
    requires SinglyMapped(ranges) && r in ranges && q in ranges && r != q
    ensures RangesApart(r, q) && r.name != q.name
  {
    var i :| 0 <= i < |ranges| && ranges[i] == r;
    var j :| 0 <= j < |ranges| && ranges[j] == q;
    assert if i < j then RangesApart(ranges[i], ranges[j]) else RangesApart(ranges[j], ranges[i]);
  }

  // --- Grouping ----------------------------------------------------------------------

  function InPlace(ranges: seq<PlaceRange>, name: string): LoadSegment -> bool {
    (s: LoadSegment) => FindPlace(ranges, s.paddr) == Some(name)
  }

  /** Each group is the segments of its place, in input order. */
  ghost predicate Grouped(ranges: seq<PlaceRange>, segments: seq<LoadSegment>, n: nat,
                          groups: map<string, seq<LoadSegment>>)
    requires n <= |segments|
  {
    && (forall name | name in groups ::
        groups[name] == StableSort.Filter(segments[..n], InPlace(ranges, name)) && groups[name] != [])
    && (forall i | 0 <= i < n ::
        FindPlace(ranges, segments[i].paddr).Some? && FindPlace(ranges, segments[i].paddr).value in groups)
  }

  /** The first segment outside all ranges. */
  predicate FirstUnmapped(ranges: seq<PlaceRange>, segments: seq<LoadSegment>, i: nat) {
    && i < |segments| && Unmapped(ranges, segments[i].paddr)
    && forall j | 0 <= j < i :: !Unmapped(ranges, segments[j].paddr)
  }

  method GroupByPlace(ranges: seq<PlaceRange>, segments: seq<LoadSegment>)
    returns (r: Result<map<string, seq<LoadSegment>>, LinkError>)
    ensures r.Failure? <==> exists i: nat :: FirstUnmapped(ranges, segments, i)
    ensures forall i: nat | FirstUnmapped(ranges, segments, i) ::
              r == Failure(UnmappedSegment(segments[i].owner, segments[i].paddr))
    ensures r.Success? ==> Grouped(ranges, segments, |segments|, r.value)
  {
    hide FindPlace, Unmapped, Grouped, FirstUnmapped, BelongsTo;
    var groups: map<string, seq<LoadSegment>> := map[];
    NothingGrouped(ranges, segments);
    for n := 0 to |segments|
      invariant Grouped(ranges, segments, n, groups)
      invariant forall j | 0 <= j < n :: !Unmapped(ranges, segments[j].paddr)
    {
      var s := segments[n];
      var place := FindPlace(ranges, s.paddr);
      FindPlaceIff(ranges, s.paddr);
      if place.None? {
        OnlyFirst(ranges, segments, n);
        return Failure(UnmappedSegment(s.owner, s.paddr));
      }
      GroupStep(ranges, segments, n, groups);
      var name := place.value;
      groups := groups[name := (if name in groups then groups[name] else []) + [s]];
    }
    AllMapped(ranges, segments);
    r := Success(groups);
  }

  lemma {:induction false} NothingGrouped(ranges: seq<PlaceRange>, segments: seq<LoadSegment>)
    ensures Grouped(ranges, segments, 0, map[])
  {
  }

  lemma OnlyFirst(ranges: seq<PlaceRange>, segments: seq<LoadSegment>, n: nat)
    requires n < |segments| && Unmapped(ranges, segments[n].paddr)
    requires forall j | 0 <= j < n :: !Unmapped(ranges, segments[j].paddr)
    ensures FirstUnmapped(ranges, segments, n) && forall i: nat | FirstUnmapped(ranges, segments, i) :: i == n
  {
    hide Unmapped;
  }

  lemma AllMapped(ranges: seq<PlaceRange>, segments: seq<LoadSegment>)
    requires forall j | 0 <= j < |segments| :: !Unmapped(ranges, segments[j].paddr)
    ensures forall i: nat :: !FirstUnmapped(ranges, segments, i)
  {
    hide Unmapped;
  }

  lemma {:induction false} GroupStep(ranges: seq<PlaceRange>, segments: seq<LoadSegment>, n: nat,
                                     groups: map<string, seq<LoadSegment>>)
    requires n < |segments| && Grouped(ranges, segments, n, groups) && FindPlace(ranges, segments[n].paddr).Some?
    ensures var name := FindPlace(ranges, segments[n].paddr).value;
            Grouped(ranges, segments, n + 1,
                    groups[name := (if name in groups then groups[name] else []) + [segments[n]]])
  {
    hide FindPlace, StableSort.Filter;
    var name := FindPlace(ranges, segments[n].paddr).value;
    var more := groups[name := (if name in groups then groups[name] else []) + [segments[n]]];
    if name !in groups {
      NoneInPlace(ranges, segments[..n], name);
    }
    forall other | other in more
      ensures more[other] == StableSort.Filter(segments[..n + 1], InPlace(ranges, other)) && more[other] != []
    {
      StableSort.FilterSnoc(segments, n, InPlace(ranges, other));
    }
  }

  lemma {:induction false} NoneInPlace(ranges: seq<PlaceRange>, segments: seq<LoadSegment>, name: string)
    requires forall i | 0 <= i < |segments| :: FindPlace(ranges, segments[i].paddr) != Some(name)
    ensures StableSort.Filter(segments, InPlace(ranges, name)) == []
  {
    hide FindPlace;
    if segments != [] { NoneInPlace(ranges, segments[..|segments| - 1], name); }
  }

  // --- Overlap check -------------------------------------------------------------------

  predicate PaddrLeq(a: LoadSegment, b: LoadSegment) { a.paddr <= b.paddr }

  predicate SegmentsApart(a: LoadSegment, b: LoadSegment) {
    a.End() <= b.paddr || b.End() <= a.paddr
  }

  predicate NeighboursApart(segs: seq<LoadSegment>) {
    forall i | 0 <= i < |segs| - 1 :: segs[i].End() <= segs[i + 1].paddr
  }

  ghost predicate AllApart(segs: seq<LoadSegment>) {
    forall i, j | 0 <= i < j < |segs| :: SegmentsApart(segs[i], segs[j])
  }

  lemma {:induction false} NeighboursChain(segs: seq<LoadSegment>, i: nat, j: nat)
    requires NeighboursApart(segs) && i < j < |segs|
    ensures segs[i].End() <= segs[j].paddr
    decreases j
  {
    if i < j - 1 {
      NeighboursChain(segs, i, j - 1);
      assert segs[j - 1].End() <= segs[j - 1 + 1].paddr;
    } else {
      assert segs[i].End() <= segs[i + 1].paddr;
    }
  }

  /** After sorting, comparing neighbours decides whether any two segments overlap. */
  lemma NeighboursSuffice(segs: seq<LoadSegment>)
    requires StableSort.Sorted(segs, PaddrLeq) && forall i | 0 <= i < |segs| :: segs[i].data != []
    ensures NeighboursApart(segs) <==> AllApart(segs)
  {
    if NeighboursApart(segs) {
      forall i, j | 0 <= i < j < |segs| ensures SegmentsApart(segs[i], segs[j]) { NeighboursChain(segs, i, j); }
    }
    if AllApart(segs) {
      forall i | 0 <= i < |segs| - 1 ensures segs[i].End() <= segs[i + 1].paddr {
        assert SegmentsApart(segs[i], segs[i + 1]) && PaddrLeq(segs[i], segs[i + 1]);
      }
    }
  }

  /** Two positions of equal elements, or of elements that occur in the other sequence too. */
  lemma {:induction false} TwiceIsTwoPlaces(segs: seq<LoadSegment>, s: LoadSegment) returns (i: nat, j: nat)
    requires multiset(segs)[s] >= 2
    ensures i < j < |segs| && segs[i] == s && segs[j] == s
  {
    var n := |segs| - 1;
    assert segs == segs[..n] + [segs[n]];
    if segs[n] == s {
      assert multiset(segs)[s] == multiset(segs[..n])[s] + 1;
      assert s in multiset(segs[..n]);
      i, j :| i < n && segs[..n][i] == s && j == n;
    } else {
      assert multiset(segs)[s] == multiset(segs[..n])[s];
      i, j := TwiceIsTwoPlaces(segs[..n], s);
    }
  }

  lemma PairCount(segs: seq<LoadSegment>, i: nat, j: nat)
    requires i < j < |segs| && segs[i] == segs[j]
    ensures multiset(segs)[segs[i]] >= 2
  {
    assert segs == segs[..j] + segs[j..];
    assert segs[i] == segs[..j][i] && segs[..j][i] in multiset(segs[..j]);
    assert segs[j] == segs[j..][0] && segs[j..][0] in multiset(segs[j..]);
    assert multiset(segs)[segs[i]] == multiset(segs[..j])[segs[i]] + multiset(segs[j..])[segs[i]];
  }

  /** Being pairwise apart does not depend on the order. */
  lemma ApartInAnyOrder(a: seq<LoadSegment>, b: seq<LoadSegment>)
    requires multiset(a) == multiset(b) && AllApart(a)
    ensures AllApart(b)
  {
    forall i, j | 0 <= i < j < |b| ensures SegmentsApart(b[i], b[j]) {
      if b[i] == b[j] {
        PairCount(b, i, j);
        var k, l := TwiceIsTwoPlaces(a, b[i]);
        assert SegmentsApart(a[k], a[l]);
      } else {
        assert b[i] in multiset(a) && b[j] in multiset(a);
        var k :| 0 <= k < |a| && a[k] == b[i];
        var l :| 0 <= l < |a| && a[l] == b[j];
        assert if k < l then SegmentsApart(a[k], a[l]) else SegmentsApart(a[l], a[k]);
      }
    }
  }

  lemma {:induction false} SortedApartIff(group: seq<LoadSegment>)
    ensures AllApart(StableSort.Sort(group, PaddrLeq)) <==> AllApart(group)
  {
    hide StableSort.Sort, AllApart;
    var sorted := StableSort.Sort(group, PaddrLeq);
    if AllApart(sorted) { ApartInAnyOrder(sorted, group); }
    if AllApart(group) { ApartInAnyOrder(group, sorted); }
  }

  lemma PaddrOrder()
    ensures StableSort.TotalPreorder(PaddrLeq)
  {
  }

  method FindOverlap(segs: seq<LoadSegment>) returns (r: Option<nat>)
    ensures r.None? <==> NeighboursApart(segs)
    ensures r.Some? ==> r.value + 1 < |segs| && segs[r.value].End() > segs[r.value + 1].paddr
  {
    var i := 0;
    while i + 1 < |segs|
      invariant i == 0 || i < |segs|
      invariant forall k | 0 <= k < i :: segs[k].End() <= segs[k + 1].paddr
    {
      if segs[i].End() > segs[i + 1].paddr { return Some(i); }
      i := i + 1;
    }
    r := None;
  }

  // --- One blob per place ----------------------------------------------------------------

  /** The blob starts at the lowest segment, ends with the highest, holds every segment, and is erased elsewhere. */
  ghost predicate BlobOf(blob: seq<Byte>, base: nat, segs: seq<LoadSegment>) {
    && (exists s :: s in segs && s.paddr == base)
    && (exists s :: s in segs && s.End() == base + |blob|)
    && (forall s | s in segs :: base <= s.paddr && s.End() <= base + |blob| && Holds(blob, s.paddr - base, s.data))
    && (forall p | 0 <= p < |blob| && (forall s | s in segs :: !(s.paddr <= base + p < s.End())) :: blob[p] == 0xFF)
  }

  function Rebased(segs: seq<LoadSegment>, base: nat): seq<Entry>
    requires forall i | 0 <= i < |segs| :: base <= segs[i].paddr
  {
    seq(|segs|, i requires 0 <= i < |segs| => PlacesImage.Segment(0, segs[i].paddr - base, segs[i].data, 0))
  }

  method HighestEnd(segs: seq<LoadSegment>) returns (end: nat)
    requires segs != []
    ensures exists i :: 0 <= i < |segs| && segs[i].End() == end
    ensures forall i | 0 <= i < |segs| :: segs[i].End() <= end
  {
    end := segs[0].End();
    for n := 1 to |segs|
      invariant exists i :: 0 <= i < n && segs[i].End() == end
      invariant forall i | 0 <= i < n :: segs[i].End() <= end
    {
      if segs[n].End() > end { end := segs[n].End(); }
    }
  }

  /** The error names two of the segments, the second of which begins inside the first. */
  predicate Overlaps(e: LinkError, group: seq<LoadSegment>) {
    e.Overlap? && e.first in group && e.second in group && e.first.paddr <= e.second.paddr < e.first.End()
  }

  /** Merges the segments of a place; fails exactly when two of them overlap. */
  method MergePlace(group: seq<LoadSegment>) returns (r: Result<(nat, seq<Byte>), LinkError>)
    requires group != [] && forall i | 0 <= i < |group| :: group[i].data != []
    ensures r.Failure? <==> !AllApart(group)
    ensures r.Failure? ==> Overlaps(r.error, group)
    ensures r.Success? ==> BlobOf(r.value.1, r.value.0, group) && r.value.1 != []
  {
    hide StableSort.Sort;
    var segs := StableSort.Sort(group, PaddrLeq);
    SortedGroup(group);
    var bad := FindOverlap(segs);
    NeighboursSuffice(segs);
    SortedApartIff(group);
    if bad.Some? {
      assert segs[bad.value] in segs && segs[bad.value + 1] in segs;
      assert PaddrLeq(segs[bad.value], segs[bad.value + 1]);
      return Failure(Overlap(segs[bad.value], segs[bad.value + 1]));
    }
    var base := segs[0].paddr;
    var end := HighestEnd(segs);
    LowestFirst(segs);
    RebasedDisjoint(segs, base);
    assert segs[0].End() <= end;
    var blob := PlacesImage.FillRegion(Rebased(segs, base), end - base);
    BlobFromRegion(group, segs, base, blob);
    r := Success((base, blob));
  }

  lemma {:induction false} SortedGroup(group: seq<LoadSegment>)
    requires forall i | 0 <= i < |group| :: group[i].data != []
    ensures var segs := StableSort.Sort(group, PaddrLeq);
            && |segs| == |group| && StableSort.Sorted(segs, PaddrLeq)
            && (forall i | 0 <= i < |segs| :: segs[i].data != [])
            && (forall s :: s in segs <==> s in group)
  {
    hide StableSort.Sort;
    PaddrOrder();
    StableSort.SortSorts(group, PaddrLeq);
    StableSort.SortMembers(group, PaddrLeq);
    var segs := StableSort.Sort(group, PaddrLeq);
    forall i | 0 <= i < |segs| ensures segs[i].data != [] { assert segs[i] in group; }
  }

  lemma LowestFirst(segs: seq<LoadSegment>)
    requires segs != [] && StableSort.Sorted(segs, PaddrLeq)
    ensures forall i | 0 <= i < |segs| :: segs[0].paddr <= segs[i].paddr
  {
    forall i | 0 <= i < |segs| ensures segs[0].paddr <= segs[i].paddr {
      if i > 0 { assert PaddrLeq(segs[0], segs[i]); }
    }
  }

  lemma RebasedDisjoint(segs: seq<LoadSegment>, base: nat)
    requires AllApart(segs) && forall i | 0 <= i < |segs| :: base <= segs[i].paddr
    ensures PlacesImage.AllFileDisjoint(Rebased(segs, base))
  {
    var entries := Rebased(segs, base);
    forall i, j | 0 <= i < j < |entries| ensures PlacesImage.FileDisjoint(entries[i], entries[j]) {
      assert SegmentsApart(segs[i], segs[j]);
    }
  }

  lemma BlobFromRegion(group: seq<LoadSegment>, segs: seq<LoadSegment>, base: nat, blob: seq<Byte>)
    requires forall i | 0 <= i < |segs| :: base <= segs[i].paddr
    requires PlacesImage.RegionOk(blob, Rebased(segs, base), |segs|)
    requires forall s :: s in segs <==> s in group
    requires segs != [] && segs[0].paddr == base
    requires exists i :: 0 <= i < |segs| && segs[i].End() == base + |blob|
    ensures BlobOf(blob, base, group)
  {
    hide PlacesImage.RegionOk, Rebased, Holds;
    assert segs[0] in group;
    var k :| 0 <= k < |segs| && segs[k].End() == base + |blob|;
    assert segs[k] in group;
    forall s | s in group ensures base <= s.paddr && s.End() <= base + |blob| && Holds(blob, s.paddr - base, s.data) {
      var i :| 0 <= i < |segs| && segs[i] == s;
      RegionHoldsAt(segs, base, blob, i);
    }
    forall p | 0 <= p < |blob| && (forall s | s in group :: !(s.paddr <= base + p < s.End())) ensures blob[p] == 0xFF {
      RegionGap(segs, base, blob, p) by {
        forall i | 0 <= i < |segs| ensures !(segs[i].paddr <= base + p < segs[i].End()) { assert segs[i] in group; }
      }
    }
  }

  lemma RegionHoldsAt(segs: seq<LoadSegment>, base: nat, blob: seq<Byte>, i: nat)
    requires (forall i | 0 <= i < |segs| :: base <= segs[i].paddr) && i < |segs|
    requires PlacesImage.RegionOk(blob, Rebased(segs, base), |segs|)
    ensures segs[i].End() <= base + |blob| && Holds(blob, segs[i].paddr - base, segs[i].data)
  {
    var entries := Rebased(segs, base);
    assert Holds(blob, entries[i].fileOffset, entries[i].data);
  }

  lemma RegionGap(segs: seq<LoadSegment>, base: nat, blob: seq<Byte>, p: nat)
    requires (forall i | 0 <= i < |segs| :: base <= segs[i].paddr) && p < |blob|
    requires PlacesImage.RegionOk(blob, Rebased(segs, base), |segs|)
    requires forall i | 0 <= i < |segs| :: !(segs[i].paddr <= base + p < segs[i].End())
    ensures blob[p] == 0xFF
  {
    hide Holds;
    var entries := Rebased(segs, base);
    forall i | 0 <= i < |segs| ensures !PlacesImage.InSegment(p, entries[i]) {
      assert !(segs[i].paddr <= base + p < segs[i].End());
    }
  }

  /** End of the furthest allocation that begins in the range, or the given default. */
  ghost predicate IsMemEnd(placed: Placed, range: PlaceRange, default: nat, end: nat) {
    && ((forall k | k in placed :: !range.Contains(placed[k].base)) ==> end == default)
    && ((exists k :: k in placed && range.Contains(placed[k].base)) ==>
          && (exists k :: k in placed && range.Contains(placed[k].base) && end == placed[k].base + placed[k].size)
          && (forall k | k in placed && range.Contains(placed[k].base) :: placed[k].base + placed[k].size <= end))
  }

  method MemEnd(placed: Placed, range: PlaceRange, default: nat) returns (end: nat)
    ensures IsMemEnd(placed, range, default, end)
  {
    var found := false;
    end := default;
    var todo := placed.Keys;
    while todo != {}
      invariant todo <= placed.Keys
      invariant !found ==> end == default && forall k | k in placed && k !in todo :: !range.Contains(placed[k].base)
      invariant found ==>
                  && (exists k ::
                        k in placed && range.Contains(placed[k].base) && end == placed[k].base + placed[k].size)
                  && (forall k | k in placed && k !in todo && range.Contains(placed[k].base) ::
                      placed[k].base + placed[k].size <= end)
    {
      var k :| k in todo;
      todo := todo - {k};
      var a := placed[k];
      if range.Contains(a.base) && (!found || a.base + a.size > end) {
        found := true;
        end := a.base + a.size;
      }
    }
  }

  // --- Order of places -------------------------------------------------------------------

  predicate Resident(host: Option<PlaceRange>, addr: nat) {
    host.Some? && host.value.Contains(addr)
  }

  function MinPaddr(segs: seq<LoadSegment>): (m: nat)
    requires segs != []
    ensures exists i :: 0 <= i < |segs| && segs[i].paddr == m
    ensures forall i | 0 <= i < |segs| :: m <= segs[i].paddr
  {
    if |segs| == 1 then segs[0].paddr
    else
      var rest := MinPaddr(segs[..|segs| - 1]);
      if segs[|segs| - 1].paddr < rest then segs[|segs| - 1].paddr else rest
  }

  predicate HostsFirst(names: seq<string>, groups: map<string, seq<LoadSegment>>, host: Option<PlaceRange>) {
    && (forall i | 0 <= i < |names| :: names[i] in groups && groups[names[i]] != [])
    && forall i, j | 0 <= i < j < |names| && Resident(host, MinPaddr(groups[names[j]])) ::
        Resident(host, MinPaddr(groups[names[i]]))
  }

  predicate Distinct(names: seq<string>) {
    forall i, j | 0 <= i < j < |names| :: names[i] != names[j]
  }

  lemma DistinctConcat(s: seq<string>, t: seq<string>)
    requires Distinct(s) && Distinct(t) && forall n | n in s :: n !in t
    ensures Distinct(s + t)
  {
    var u := s + t;
    forall i, j | 0 <= i < j < |u| ensures u[i] != u[j] {
      if i < |s| <= j { assert u[i] in s && u[j] == t[j - |s|]; }
    }
  }

  /** All places with segments, those of the host place first. */
  method OrderPlaces(groups: map<string, seq<LoadSegment>>, host: Option<PlaceRange>) returns (names: seq<string>)
    requires forall n | n in groups :: groups[n] != []
    ensures Distinct(names) && (forall n :: n in names <==> n in groups)
    ensures HostsFirst(names, groups, host)
  {
    var first: seq<string>, rest: seq<string> := [], [];
    var todo := groups.Keys;
    while todo != {}
      invariant todo <= groups.Keys && Distinct(first) && Distinct(rest)
      invariant forall n :: n in groups && n !in todo <==> n in first || n in rest
      invariant forall n | n in first :: n in groups && Resident(host, MinPaddr(groups[n]))
      invariant forall n | n in rest :: n in groups && !Resident(host, MinPaddr(groups[n]))
    {
      var n :| n in todo;
      todo := todo - {n};
      assert n !in first && n !in rest;
      if Resident(host, MinPaddr(groups[n])) {
        DistinctConcat(first, [n]);
        first := first + [n];
      } else {
        DistinctConcat(rest, [n]);
        rest := rest + [n];
      }
    }
    DistinctConcat(first, rest);
    names := first + rest;
    assert forall i | 0 <= i < |first| :: names[i] in first;
    assert forall j | |first| <= j < |names| :: names[j] in rest;
  }

  // --- Linking ---------------------------------------------------------------------------

  /** One range per place, and segments stay inside the place they begin in. */
  ghost predicate SegmentInput(ranges: seq<PlaceRange>, segments: seq<LoadSegment>, host: Option<PlaceRange>) {
    && SinglyMapped(ranges)
    && (host.Some? ==> host.value in ranges)
    && (forall i | 0 <= i < |segments| :: segments[i].data != [])
    && (forall s, r | s in segments && r in ranges && r.Contains(s.paddr) :: s.End() <= r.end)
  }

  /** Allocations stay inside the place they begin in. */
  ghost predicate AllocationsInside(ranges: seq<PlaceRange>, placed: Placed) {
    forall k, r | k in placed && r in ranges && r.Contains(placed[k].base) :: placed[k].base + placed[k].size <= r.end
  }

  ghost predicate LinkInput(ranges: seq<PlaceRange>, segments: seq<LoadSegment>, placed: Placed,
                            host: Option<PlaceRange>) {
    SegmentInput(ranges, segments, host) && AllocationsInside(ranges, placed)
  }

  function SegmentsOf(ranges: seq<PlaceRange>, segments: seq<LoadSegment>, name: string): seq<LoadSegment> {
    StableSort.Filter(segments, InPlace(ranges, name))
  }

  /** What the linker guarantees of the blob it emits for one place. */
  ghost predicate EntryOk(e: Entry, name: string, ranges: seq<PlaceRange>, segments: seq<LoadSegment>, placed: Placed,
                          host: Option<PlaceRange>) {
    && RangeOf(ranges, name).Some?
    && var r := RangeOf(ranges, name).value;
    && r in ranges && r.name == name
    && r.start <= e.dest && e.dest + e.memSize <= r.end
    && 0 < |e.data| <= e.memSize
    && BlobOf(e.data, e.dest, SegmentsOf(ranges, segments, name))
    && (forall k | k in placed && r.Contains(placed[k].base) :: placed[k].base + placed[k].size <= e.dest + e.memSize)
    && (if Resident(host, e.dest) then e.fileOffset == e.dest - host.value.start else BitOps.Aligned(e.fileOffset, 4))
  }

  /** Packed blobs come after everything emitted before them; resident blobs come first. */
  predicate FileOrder(e: Entry, f: Entry, host: Option<PlaceRange>) {
    if Resident(host, f.dest) then Resident(host, e.dest) else e.FileEnd() <= f.fileOffset
  }

  ghost predicate LinkDone(names: seq<string>, n: nat, entries: seq<Entry>, tail: nat, ranges: seq<PlaceRange>,
                           segments: seq<LoadSegment>, placed: Placed, host: Option<PlaceRange>)
    requires n <= |names|
  {
    && |entries| == n && tail < U32_LIMIT
    && (forall i | 0 <= i < n :: EntryOk(entries[i], names[i], ranges, segments, placed, host))
    && (forall i | 0 <= i < n :: entries[i].FileEnd() <= tail)
    && (forall i, j | 0 <= i < j < n :: FileOrder(entries[i], entries[j], host))
  }

  ghost predicate Linked(entries: seq<Entry>, ranges: seq<PlaceRange>, segments: seq<LoadSegment>, placed: Placed,
                         host: Option<PlaceRange>) {
    exists names, tail ::
      && |names| == |entries| && Distinct(names)
      && (forall s | s in segments :: FindPlace(ranges, s.paddr).Some? && FindPlace(ranges, s.paddr).value in names)
      && LinkDone(names, |names|, entries, tail, ranges, segments, placed, host)
  }

  /** A blob of the segments at its address, as far as 32 bits tell. */
  ghost predicate IsBlob(e: Entry, segs: seq<LoadSegment>) {
    |e.data| <= e.memSize && exists base: nat :: BlobOf(e.data, base, segs) && e.dest == base % U32_LIMIT
  }

  ghost predicate BlobPerPlace(names: seq<string>, n: nat, entries: seq<Entry>, ranges: seq<PlaceRange>,
                               segments: seq<LoadSegment>)
    requires n <= |names|
  {
    |entries| == n && forall i | 0 <= i < n :: IsBlob(entries[i], SegmentsOf(ranges, segments, names[i]))
  }

  /** Whatever the ranges: each place that holds a segment gets one entry, the blob of its segments. */
  ghost predicate Emitted(entries: seq<Entry>, ranges: seq<PlaceRange>, segments: seq<LoadSegment>) {
    exists names ::
      && |names| == |entries| && Distinct(names)
      && (forall s | s in segments :: FindPlace(ranges, s.paddr).Some? && FindPlace(ranges, s.paddr).value in names)
      && BlobPerPlace(names, |names|, entries, ranges, segments)
  }

  // --- When linking succeeds ---------------------------------------------------------------

  /** File offsets stay below this after `n` places of at most `span` bytes each. */
  function FileBound(n: nat, span: nat): nat {
    if n == 0 then span else FileBound(n - 1, span) + span + 3
  }

  lemma {:induction false} FileBoundGrows(m: nat, n: nat, span: nat)
    requires m <= n
    ensures FileBound(m, span) <= FileBound(n, span)
  {
    if m < n { FileBoundGrows(m, n - 1, span); }
  }

  /** The file stays below 4 GiB and, where a place has allocations, they reach as far as its segments. */
  ghost predicate Compact(ranges: seq<PlaceRange>, segments: seq<LoadSegment>, placed: Placed, span: nat) {
    && (forall r | r in ranges :: r.end <= r.start + span) && FileBound(|segments|, span) < U32_LIMIT
    && (forall s, r | s in segments && r in ranges && r.Contains(s.paddr) :: Reached(placed, r, s.End()))
  }

  ghost predicate Reached(placed: Placed, r: PlaceRange, end: nat) {
    (exists k :: k in placed && r.Contains(placed[k].base)) ==>
      exists k :: k in placed && r.Contains(placed[k].base) && end <= placed[k].base + placed[k].size
  }

  ghost predicate PlaceClear(ranges: seq<PlaceRange>, segments: seq<LoadSegment>, name: string) {
    AllApart(SegmentsOf(ranges, segments, name))
  }

  /** The error names two segments of one place, the second of which begins inside the first. */
  ghost predicate OverlapsInPlace(e: LinkError, ranges: seq<PlaceRange>, segments: seq<LoadSegment>) {
    && Overlaps(e, segments)
    && exists name :: BelongsTo(ranges, e.first.paddr, name) && BelongsTo(ranges, e.second.paddr, name)
  }

  /** Two segments that belong to one place do not overlap. */
  ghost predicate ApartInPlace(ranges: seq<PlaceRange>, segments: seq<LoadSegment>, name: string) {
    forall i, j | 0 <= i < j < |segments| ::
      BelongsTo(ranges, segments[i].paddr, name) && BelongsTo(ranges, segments[j].paddr, name) ==>
        SegmentsApart(segments[i], segments[j])
  }

  /** All segments have a place and no two segments of a place overlap. */
  ghost predicate Placeable(ranges: seq<PlaceRange>, segments: seq<LoadSegment>) {
    && segments != [] && (forall s | s in segments :: !Unmapped(ranges, s.paddr))
    && forall name :: ApartInPlace(ranges, segments, name)
  }

  /** What the lookup says of the grouped segments is what the ranges say of all of them. */
  lemma {:induction false} ApartInPlaceIff(ranges: seq<PlaceRange>, segments: seq<LoadSegment>, name: string)
    ensures PlaceClear(ranges, segments, name) <==> ApartInPlace(ranges, segments, name)
  {
    hide FindPlace, BelongsTo, SegmentsApart;
    if segments != [] {
      var n := |segments| - 1;
      var front, last := segments[..n], segments[n];
      ApartInPlaceIff(ranges, front, name);
      FindPlaceIff(ranges, last.paddr);
      var all := SegmentsOf(ranges, segments, name);
      var before := SegmentsOf(ranges, front, name);
      assert all == if InPlace(ranges, name)(last) then before + [last] else before;
      if InPlace(ranges, name)(last) {
        LastApart(ranges, front, name, last);
        ApartSnoc(before, last);
      }
    }
  }

  lemma {:induction false} ApartSnoc(segs: seq<LoadSegment>, last: LoadSegment)
    ensures AllApart(segs + [last]) <==> AllApart(segs) && forall i | 0 <= i < |segs| :: SegmentsApart(segs[i], last)
  {
    hide SegmentsApart;
    var all := segs + [last];
    if AllApart(all) {
      forall i, j | 0 <= i < j < |segs| ensures SegmentsApart(segs[i], segs[j]) {
        assert SegmentsApart(all[i], all[j]);
      }
      forall i | 0 <= i < |segs| ensures SegmentsApart(segs[i], last) { assert SegmentsApart(all[i], all[|segs|]); }
    }
  }

  lemma {:induction false} LastApart(ranges: seq<PlaceRange>, front: seq<LoadSegment>, name: string, last: LoadSegment)
    ensures var before := SegmentsOf(ranges, front, name);
            (forall i | 0 <= i < |before| :: SegmentsApart(before[i], last)) <==>
            forall i | 0 <= i < |front| :: BelongsTo(ranges, front[i].paddr, name) ==> SegmentsApart(front[i], last)
  {
    hide FindPlace, BelongsTo, SegmentsApart;
    var before := SegmentsOf(ranges, front, name);
    forall s ensures s in before <==> s in front && BelongsTo(ranges, s.paddr, name) { FindPlaceIff(ranges, s.paddr); }
    if forall i | 0 <= i < |before| :: SegmentsApart(before[i], last) {
      forall i | 0 <= i < |front| && BelongsTo(ranges, front[i].paddr, name) ensures SegmentsApart(front[i], last) {
        assert front[i] in before;
        var k :| 0 <= k < |before| && before[k] == front[i];
      }
    }
    if forall i | 0 <= i < |front| :: BelongsTo(ranges, front[i].paddr, name) ==> SegmentsApart(front[i], last) {
      forall i | 0 <= i < |before| ensures SegmentsApart(before[i], last) {
        assert before[i] in before;
        var k :| 0 <= k < |front| && front[k] == before[i];
      }
    }
  }

  function PlaceNames(ranges: seq<PlaceRange>, segments: seq<LoadSegment>): set<Option<string>> {
    set i | 0 <= i < |segments| :: FindPlace(ranges, segments[i].paddr)
  }

  lemma {:induction false} FewPlaces(ranges: seq<PlaceRange>, segments: seq<LoadSegment>)
    ensures |PlaceNames(ranges, segments)| <= |segments|
  {
    hide FindPlace;
    if segments != [] {
      var n := |segments| - 1;
      FewPlaces(ranges, segments[..n]);
      assert PlaceNames(ranges, segments) == PlaceNames(ranges, segments[..n]) + {FindPlace(ranges, segments[n].paddr)};
    }
  }

  lemma {:induction false} DistinctFew(names: seq<string>, places: set<Option<string>>)
    requires Distinct(names) && forall n | n in names :: Some(n) in places
    ensures |names| <= |places|
  {
    if names != [] {
      var n := |names| - 1;
      DistinctFew(names[..n], places - {Some(names[n])});
    }
  }

  lemma NamesFew(ranges: seq<PlaceRange>, segments: seq<LoadSegment>, groups: map<string, seq<LoadSegment>>,
                 names: seq<string>)
    requires Grouped(ranges, segments, |segments|, groups) && Distinct(names) && forall n | n in names :: n in groups
    ensures |names| <= |segments|
  {
    hide FindPlace;
    forall n | n in names ensures Some(n) in PlaceNames(ranges, segments) {
      var s := groups[n][0];
      assert s in groups[n];
      assert s in segments[..|segments|] && InPlace(ranges, n)(s);
      var i :| 0 <= i < |segments| && segments[i] == s;
    }
    FewPlaces(ranges, segments);
    DistinctFew(names, PlaceNames(ranges, segments));
  }

  lemma BlobReached(ranges: seq<PlaceRange>, segments: seq<LoadSegment>, placed: Placed, span: nat, name: string,
                    base: nat, blob: seq<Byte>, r: PlaceRange)
    requires Compact(ranges, segments, placed, span) && BlobOf(blob, base, SegmentsOf(ranges, segments, name))
    requires r in ranges && r.start <= base && base + |blob| <= r.end && forall i | 0 <= i < |segments| ::
             segments[i].data != []
    ensures Reached(placed, r, base + |blob|) && |blob| <= span
  {
    hide Reached, FindPlace;
    var s :| s in SegmentsOf(ranges, segments, name) && s.End() == base + |blob|;
    assert s in segments;
    assert r.Contains(s.paddr);
  }

  lemma FileStep(ranges: seq<PlaceRange>, segments: seq<LoadSegment>, placed: Placed, span: nat, r: PlaceRange, n: nat)
    requires Compact(ranges, segments, placed, span) && n < |segments| && r in ranges
    ensures FileBound(n + 1, span) == FileBound(n, span) + span + 3 && FileBound(n + 1, span) < U32_LIMIT
            && r.end <= r.start + span
  {
    FileBoundGrows(n + 1, |segments|, span);
  }

  lemma {:induction false} PlaceOfName(ranges: seq<PlaceRange>, segments: seq<LoadSegment>,
                                       groups: map<string, seq<LoadSegment>>, name: string)
    requires Grouped(ranges, segments, |segments|, groups) && name in groups
             && groups[name] == SegmentsOf(ranges, segments, name)
    ensures PlaceClear(ranges, segments, name) == AllApart(groups[name])
    ensures exists i :: 0 <= i < |segments| && FindPlace(ranges, segments[i].paddr) == Some(name)
  {
    hide FindPlace, StableSort.Sort;
    var s := groups[name][0];
    assert s in groups[name];
    assert s in segments && InPlace(ranges, name)(s);
    var i :| 0 <= i < |segments| && segments[i] == s;
  }

  /** Offset of a blob in the file and the new end of the packed part; `None` where the offset arithmetic overflows. */
  function FileSlot(host: Option<PlaceRange>, base: nat, size: nat, tail: nat): (slot: Option<(nat, nat)>)
    ensures slot.Some? ==> slot.value.1 < U32_LIMIT || slot.value.1 == tail
  {
    if Resident(host, base) then
      var offset := (base - host.value.start) % U32_LIMIT;
      var end := offset + size % U32_LIMIT;
      if end >= U32_LIMIT then None else Some((offset, if end > tail then end else tail))
    else if tail + 3 >= U32_LIMIT then None
    else
      var offset := BitOps.AlignUp(tail, 4);
      var end := offset + size % U32_LIMIT;
      if end >= U32_LIMIT then None else Some((offset, end))
  }

  lemma SlotFacts(host: Option<PlaceRange>, base: nat, size: nat, tail: nat)
    requires size < U32_LIMIT && (Resident(host, base) ==> base - host.value.start + size < U32_LIMIT)
    ensures var slot := FileSlot(host, base, size, tail);
            && (slot.Some? ==>
                  && tail <= slot.value.1 && slot.value.0 + size <= slot.value.1
                  && if Resident(host, base) then slot.value.0 == base - host.value.start
                     else BitOps.Aligned(slot.value.0, 4) && tail <= slot.value.0 && slot.value.1 <= tail + 3 + size)
            && (slot.Some? && Resident(host, base) ==> slot.value.1 == tail || slot.value.1 == slot.value.0 + size)
            && (tail + 3 + size < U32_LIMIT ==> slot.Some?)
  {
    hide BitOps.AlignUp, BitOps.Aligned;
    if !Resident(host, base) && tail + 3 < U32_LIMIT { FourAligned(tail); }
  }

  /** What linking the next place, with `n` places before it, has come to. */
  ghost predicate PlaceOutcome(r: Result<(Entry, nat), LinkError>, ranges: seq<PlaceRange>, segments: seq<LoadSegment>,
                               placed: Placed, host: Option<PlaceRange>, name: string, tail: nat, n: nat) {
    && (r.Success? ==> IsBlob(r.value.0, SegmentsOf(ranges, segments, name)) && r.value.1 < U32_LIMIT)
    && (LinkInput(ranges, segments, placed, host) ==>
          && (r.Success? ==>
                && EntryOk(r.value.0, name, ranges, segments, placed, host)
                && tail <= r.value.1 && r.value.0.FileEnd() <= r.value.1
                && (!Resident(host, r.value.0.dest) ==> tail <= r.value.0.fileOffset))
          && forall span | Compact(ranges, segments, placed, span) && tail <= FileBound(n, span) ::
               r != Failure(Panicked) && (r.Success? ==> r.value.1 <= FileBound(n + 1, span)))
  }

  /** One place: merge its segments, find the end of its memory, and give the blob its file offset. */
  method LinkPlace(ranges: seq<PlaceRange>, ghost segments: seq<LoadSegment>, placed: Placed, host: Option<PlaceRange>,
                   name: string, group: seq<LoadSegment>, tail: nat, ghost n: nat)
    returns (r: Result<(Entry, nat), LinkError>)
    requires group == SegmentsOf(ranges, segments, name) && group != [] && n < |segments|
    requires forall i | 0 <= i < |group| :: group[i].data != []
    requires tail < U32_LIMIT
    ensures r.Failure? ==> r.error.Overlap? || r.error.Panicked?
    ensures r.Failure? && r.error.Overlap? <==> !AllApart(group)
    ensures r.Failure? && r.error.Overlap? ==> Overlaps(r.error, group)
    ensures PlaceOutcome(r, ranges, segments, placed, host, name, tail, n)
  {
    hide LinkInput, BlobOf, EntryOk, FindPlace, StableSort.Filter, StableSort.Sort, Compact, FileBound, AllApart,
         RangeOf, FileSlot;
    ghost var ok := LinkInput(ranges, segments, placed, host);
    var merged := MergePlace(group);
    if merged.Failure? { return Failure(merged.error); }
    var (base, blob) := merged.value;
    RangeExists(ranges, segments, name);
    var range := RangeOf(ranges, name).value;
    var memEnd := MemEnd(placed, range, base + |blob|);
    var entry := EntryFor(host, base, blob, memEnd, tail);
    if ok { EntryForOk(ranges, segments, placed, host, name, base, blob, memEnd, tail, n); }
    if entry.None? { return Failure(Panicked); }
    r := Success(entry.value);
  }

  /** The entry and the new end of the packed part, cut to 32 bits; `None` where the original panics. */
  function EntryFor(host: Option<PlaceRange>, base: nat, blob: seq<Byte>, memEnd: nat, tail: nat)
    : (r: Option<(Entry, nat)>)
    ensures r.Some? ==> r.value.0.dest == base % U32_LIMIT && r.value.0.data == blob && |blob| <= r.value.0.memSize
    ensures r.Some? ==> r.value.1 < U32_LIMIT || r.value.1 == tail
  {
    // add_segment asserts that memory holds at least the file bytes
    if memEnd < base || (memEnd - base) % U32_LIMIT < |blob| then None
    else
      match FileSlot(host, base, |blob|, tail)
      case None => None
      case Some(slot) =>
        Some((PlacesImage.Segment(base % U32_LIMIT, slot.0, blob, (memEnd - base) % U32_LIMIT), slot.1))
  }

  lemma EntryForOk(ranges: seq<PlaceRange>, segments: seq<LoadSegment>, placed: Placed, host: Option<PlaceRange>,
                   name: string, base: nat, blob: seq<Byte>, memEnd: nat, tail: nat, n: nat)
    requires LinkInput(ranges, segments, placed, host) && n < |segments| && tail < U32_LIMIT && blob != []
    requires BlobOf(blob, base, SegmentsOf(ranges, segments, name)) && RangeOf(ranges, name).Some?
    requires IsMemEnd(placed, RangeOf(ranges, name).value, base + |blob|, memEnd)
    ensures var r := EntryFor(host, base, blob, memEnd, tail);
            && (r.Some? ==>
                  && EntryOk(r.value.0, name, ranges, segments, placed, host)
                  && tail <= r.value.1 && r.value.0.FileEnd() <= r.value.1
                  && (!Resident(host, r.value.0.dest) ==> tail <= r.value.0.fileOffset))
            && forall span | Compact(ranges, segments, placed, span) && tail <= FileBound(n, span) ::
                 r.Some? && r.value.1 <= FileBound(n + 1, span)
  {
    hide LinkInput, BlobOf, EntryOk, FindPlace, StableSort.Filter, Compact, FileBound, RangeOf, FileSlot, Reached;
    PlaceFacts(ranges, segments, placed, host, name, base, blob);
    var range := RangeOf(ranges, name).value;
    MemEndInside(placed, range, base + |blob|, memEnd);
    SlotFacts(host, base, |blob|, tail);
    var r := EntryFor(host, base, blob, memEnd, tail);
    if r.Some? { EntryHolds(ranges, segments, placed, host, name, r.value.0); }
    forall span | Compact(ranges, segments, placed, span) && tail <= FileBound(n, span)
      ensures r.Some? && r.value.1 <= FileBound(n + 1, span)
    {
      BlobReached(ranges, segments, placed, span, name, base, blob, range);
      FileStep(ranges, segments, placed, span, range, n);
      ReachedBlob(placed, range, base + |blob|, memEnd);
    }
  }

  lemma MemEndInside(placed: Placed, range: PlaceRange, default: nat, end: nat)
    requires IsMemEnd(placed, range, default, end) && default <= range.end
    requires forall k | k in placed && range.Contains(placed[k].base) :: placed[k].base + placed[k].size <= range.end
    ensures end <= range.end
    ensures forall k | k in placed && range.Contains(placed[k].base) :: placed[k].base + placed[k].size <= end
  {
  }

  lemma ReachedBlob(placed: Placed, range: PlaceRange, default: nat, end: nat)
    requires IsMemEnd(placed, range, default, end) && Reached(placed, range, default)
    ensures default <= end
  {
  }

  /**
   The image's blob entries, in emission order. Fails only for the reasons given. Offsets and sizes are
   cut to 32 bits; for places mapped once, with segments and allocations inside, nothing is cut.
   */
  method LinkImage(ranges: seq<PlaceRange>, segments: seq<LoadSegment>, placed: Placed, host: Option<PlaceRange>)
    returns (r: Result<seq<Entry>, LinkError>)
    requires forall i | 0 <= i < |segments| :: segments[i].data != []
    ensures r.Success? ==> Emitted(r.value, ranges, segments) && Placeable(ranges, segments)
    ensures r.Success? && LinkInput(ranges, segments, placed, host) ==> Linked(r.value, ranges, segments, placed, host)
    ensures r == Failure(NoSegments) <==> segments == []
    ensures r.Failure? && r.error.UnmappedSegment? <==> exists i: nat :: FirstUnmapped(ranges, segments, i)
    ensures forall i: nat | FirstUnmapped(ranges, segments, i) ::
              r == Failure(UnmappedSegment(segments[i].owner, segments[i].paddr))
    ensures r.Failure? && r.error.Overlap? ==> OverlapsInPlace(r.error, ranges, segments)
    ensures r.Failure? && r != Failure(Panicked) ==> !Placeable(ranges, segments)
    ensures r == Failure(Panicked) && LinkInput(ranges, segments, placed, host) ==> forall span ::
            !Compact(ranges, segments, placed, span)
  {
    hide LinkInput, FindPlace, StableSort.Filter, StableSort.Sort, Compact, PlaceClear, AllApart, Progress,
         PlaceOutcome, Emitted, Linked, Placeable, Grouped, HostsFirst, Distinct, SegmentsOf, FirstUnmapped, Overlaps,
         OverlapsInPlace;
    NotPlaceable(ranges, segments);
    if segments == [] { return Failure(NoSegments); }
    var grouped := GroupByPlace(ranges, segments);
    if grouped.Failure? { return Failure(grouped.error); }
    var groups := grouped.value;
    GroupsNonempty(ranges, segments, groups);
    var names := OrderPlaces(groups, host);
    NamesFew(ranges, segments, groups, names);
    var tail: nat := 0;
    var entries: seq<Entry> := [];
    LinkStart(names, ranges, segments, placed, host);
    for n := 0 to |names|
      invariant tail < U32_LIMIT && Progress(names, n, entries, tail, ranges, segments, placed, host)
    {
      var name := names[n];
      GroupIsPlace(ranges, segments, groups, name);
      PlaceOfName(ranges, segments, groups, name);
      var linked := LinkPlace(ranges, segments, placed, host, name, groups[name], tail, n);
      if linked.Failure? {
        LinkFails(names, n, entries, tail, ranges, segments, placed, host, linked);
        return Failure(linked.error);
      }
      var (e, end) := linked.value;
      ProgressStep(names, n, entries, groups, tail, ranges, segments, placed, host, linked);
      entries, tail := entries + [e], end;
    }
    NamesCover(ranges, segments, groups, names);
    LinkEnds(names, entries, tail, ranges, segments, placed, host);
    r := Success(entries);
  }

  /** State after the first `n` places. */
  ghost predicate Progress(names: seq<string>, n: nat, entries: seq<Entry>, tail: nat, ranges: seq<PlaceRange>,
                           segments: seq<LoadSegment>, placed: Placed, host: Option<PlaceRange>)
    requires n <= |names|
  {
    && BlobPerPlace(names, n, entries, ranges, segments)
    && (forall i | 0 <= i < n :: PlaceClear(ranges, segments, names[i]))
    && (LinkInput(ranges, segments, placed, host) ==>
          && LinkDone(names, n, entries, tail, ranges, segments, placed, host)
          && forall span | Compact(ranges, segments, placed, span) :: tail <= FileBound(n, span))
  }

  lemma {:induction false} NotPlaceable(ranges: seq<PlaceRange>, segments: seq<LoadSegment>)
    ensures segments == [] ==> !Placeable(ranges, segments) && forall i: nat :: !FirstUnmapped(ranges, segments, i)
    ensures (exists i: nat :: FirstUnmapped(ranges, segments, i)) ==> !Placeable(ranges, segments)
  {
    hide ApartInPlace, Unmapped;
    assert forall i | 0 <= i < |segments| :: segments[i] in segments;
  }

  lemma {:induction false} NamesCover(ranges: seq<PlaceRange>, segments: seq<LoadSegment>,
                                      groups: map<string, seq<LoadSegment>>, names: seq<string>)
    requires Grouped(ranges, segments, |segments|, groups) && forall n :: n in names <==> n in groups
    ensures forall s | s in segments ::
              FindPlace(ranges, s.paddr).Some? && FindPlace(ranges, s.paddr).value in names
  {
    hide FindPlace, StableSort.Filter;
  }

  lemma GroupsNonempty(ranges: seq<PlaceRange>, segments: seq<LoadSegment>, groups: map<string, seq<LoadSegment>>)
    requires Grouped(ranges, segments, |segments|, groups)
    ensures forall n | n in groups :: groups[n] != []
  {
    hide FindPlace, StableSort.Filter;
  }

  /** An overlap is one within a place; with everything inside its place, only a file beyond 32 bits panics. */
  lemma {:induction false} LinkFails(names: seq<string>, n: nat, entries: seq<Entry>, tail: nat,
                                     ranges: seq<PlaceRange>, segments: seq<LoadSegment>, placed: Placed,
                                     host: Option<PlaceRange>, linked: Result<(Entry, nat), LinkError>)
    requires n < |names| && Progress(names, n, entries, tail, ranges, segments, placed, host)
    requires PlaceOutcome(linked, ranges, segments, placed, host, names[n], tail, n) && linked.Failure?
    requires linked.error.Overlap? || linked.error.Panicked?
    requires linked.error.Overlap? <==> !PlaceClear(ranges, segments, names[n])
    requires linked.error.Overlap? ==> Overlaps(linked.error, SegmentsOf(ranges, segments, names[n]))
    ensures linked.error.Overlap? ==> !Placeable(ranges, segments)
    ensures linked.error.Overlap? ==> OverlapsInPlace(linked.error, ranges, segments)
    ensures linked.error.Panicked? && LinkInput(ranges, segments, placed, host) ==>
              forall span :: !Compact(ranges, segments, placed, span)
  {
    hide FindPlace, PlaceClear, BlobPerPlace, LinkDone, LinkInput, Compact, FileBound, ApartInPlace, BelongsTo;
    if linked.error.Overlap? {
      ApartInPlaceIff(ranges, segments, names[n]);
      FindPlaceIff(ranges, linked.error.first.paddr);
      FindPlaceIff(ranges, linked.error.second.paddr);
    }
  }

  lemma ProgressStep(names: seq<string>, n: nat, entries: seq<Entry>, groups: map<string, seq<LoadSegment>>, tail: nat,
                     ranges: seq<PlaceRange>, segments: seq<LoadSegment>, placed: Placed, host: Option<PlaceRange>,
                     linked: Result<(Entry, nat), LinkError>)
    requires n < |names| && Progress(names, n, entries, tail, ranges, segments, placed, host)
    requires Grouped(ranges, segments, |segments|, groups) && HostsFirst(names, groups, host)
    requires PlaceOutcome(linked, ranges, segments, placed, host, names[n], tail, n) && linked.Success?
    requires PlaceClear(ranges, segments, names[n])
    ensures linked.value.1 < U32_LIMIT
    ensures Progress(names, n + 1, entries + [linked.value.0], linked.value.1, ranges, segments, placed, host)
  {
    hide PlaceClear, BlobPerPlace, LinkDone, LinkInput, Compact, FileBound, Grouped, HostsFirst, EntryOk, IsBlob;
    var (e, end) := linked.value;
    BlobStep(names, n, entries, ranges, segments, e);
    if LinkInput(ranges, segments, placed, host) {
      LinkStep(names, n, entries, groups, tail, end, ranges, segments, placed, host, e);
    }
  }

  lemma LinkStart(names: seq<string>, ranges: seq<PlaceRange>, segments: seq<LoadSegment>, placed: Placed,
                  host: Option<PlaceRange>)
    ensures Progress(names, 0, [], 0, ranges, segments, placed, host)
  {
  }

  lemma {:induction false} LinkEnds(names: seq<string>, entries: seq<Entry>, tail: nat, ranges: seq<PlaceRange>,
                 segments: seq<LoadSegment>, placed: Placed, host: Option<PlaceRange>)
    requires segments != [] && Distinct(names)
    requires Progress(names, |names|, entries, tail, ranges, segments, placed, host)
    requires forall s | s in segments :: FindPlace(ranges, s.paddr).Some? && FindPlace(ranges, s.paddr).value in names
    ensures Emitted(entries, ranges, segments) && Placeable(ranges, segments)
    ensures LinkInput(ranges, segments, placed, host) ==> Linked(entries, ranges, segments, placed, host)
  {
    hide FindPlace, IsBlob, EntryOk, FileOrder, LinkInput, Compact, FileBound, PlaceClear, ApartInPlace, Unmapped;
    assert |names| == |entries|;
    forall s | s in segments ensures !Unmapped(ranges, s.paddr) { FindPlaceIff(ranges, s.paddr); }
    forall name ensures ApartInPlace(ranges, segments, name) {
      if name in names {
        ApartInPlaceIff(ranges, segments, name);
      } else {
        NobodyBelongs(ranges, segments, names, name);
      }
    }
  }

  lemma {:induction false} NobodyBelongs(ranges: seq<PlaceRange>, segments: seq<LoadSegment>, names: seq<string>,
                                         name: string)
    requires forall s | s in segments :: FindPlace(ranges, s.paddr).Some? && FindPlace(ranges, s.paddr).value in names
    requires name !in names
    ensures ApartInPlace(ranges, segments, name)
  {
    hide FindPlace, BelongsTo;
    forall i | 0 <= i < |segments| ensures !BelongsTo(ranges, segments[i].paddr, name) {
      assert segments[i] in segments;
      FindPlaceIff(ranges, segments[i].paddr);
    }
  }

  lemma BlobStep(names: seq<string>, n: nat, entries: seq<Entry>, ranges: seq<PlaceRange>, segments: seq<LoadSegment>,
                 e: Entry)
    requires n < |names| && BlobPerPlace(names, n, entries, ranges, segments)
             && IsBlob(e, SegmentsOf(ranges, segments, names[n]))
    ensures BlobPerPlace(names, n + 1, entries + [e], ranges, segments)
  {
    hide IsBlob;
  }

  lemma {:induction false} NamedRange(ranges: seq<PlaceRange>, addr: nat)
    requires FindPlace(ranges, addr).Some?
    ensures RangeOf(ranges, FindPlace(ranges, addr).value).Some?
  {
    if !ranges[0].Contains(addr) { NamedRange(ranges[1..], addr); }
  }

  lemma {:induction false} RangeExists(ranges: seq<PlaceRange>, segments: seq<LoadSegment>, name: string)
    requires SegmentsOf(ranges, segments, name) != []
    ensures RangeOf(ranges, name).Some?
  {
    hide FindPlace;
    var s := SegmentsOf(ranges, segments, name)[0];
    assert s in SegmentsOf(ranges, segments, name);
    NamedRange(ranges, s.paddr);
  }

  lemma FourAligned(x: nat)
    requires x + 3 < U32_LIMIT
    ensures BitOps.Aligned(BitOps.AlignUp(x, 4), 4)
  {
    var four := 4;
    assert BitOps.IsPow2(four) by { assert BitOps.IsPow2(2); }
    BitOps.AlignUpRoundsUp(x, four);
  }

  lemma GroupIsPlace(ranges: seq<PlaceRange>, segments: seq<LoadSegment>, groups: map<string, seq<LoadSegment>>,
                     name: string)
    requires Grouped(ranges, segments, |segments|, groups) && name in groups
    requires forall i | 0 <= i < |segments| :: segments[i].data != []
    ensures groups[name] == SegmentsOf(ranges, segments, name) && groups[name] != []
    ensures forall i | 0 <= i < |groups[name]| :: groups[name][i].data != []
  {
    hide FindPlace;
    assert segments[..|segments|] == segments;
    var group := groups[name];
    forall i | 0 <= i < |group| ensures group[i].data != [] { assert group[i] in group && group[i] in segments; }
  }

  /** A merged place lies inside its range; it is resident only if it is the host place. */
  lemma {:induction false} PlaceFacts(ranges: seq<PlaceRange>, segments: seq<LoadSegment>, placed: Placed,
                                      host: Option<PlaceRange>, name: string, base: nat, blob: seq<Byte>)
    requires LinkInput(ranges, segments, placed, host)
    requires BlobOf(blob, base, SegmentsOf(ranges, segments, name))
    ensures RangeOf(ranges, name).Some?
    ensures var r := RangeOf(ranges, name).value;
            && r in ranges && r.name == name && r.start <= base && base + |blob| <= r.end < U32_LIMIT
            && (forall k | k in placed && r.Contains(placed[k].base) :: placed[k].base + placed[k].size <= r.end)
    ensures Resident(host, base) ==> host == RangeOf(ranges, name)
    ensures forall i | 0 <= i < |segments| :: segments[i].data != []
  {
    hide RangeOf;
    var first :| first in SegmentsOf(ranges, segments, name) && first.paddr == base;
    var last :| last in SegmentsOf(ranges, segments, name) && last.End() == base + |blob|;
    assert first in segments && FindPlace(ranges, first.paddr) == Some(name);
    var i := FindPlaceFinds(ranges, first.paddr);
    HoldsAt(ranges, first.paddr, i);
    PlaceOfAddress(ranges, first.paddr, ranges[i]);
    PlaceOfAddress(ranges, last.paddr, ranges[i]);
    var r := RangeOf(ranges, name).value;
    if Resident(host, base) && host.value != r { DifferentNamesApart(ranges, host.value, r); }
  }

  lemma {:induction false} EntryHolds(ranges: seq<PlaceRange>, segments: seq<LoadSegment>, placed: Placed,
                                      host: Option<PlaceRange>, name: string, e: Entry)
    requires RangeOf(ranges, name).Some?
    requires var r := RangeOf(ranges, name).value;
             && r in ranges && r.name == name && r.start <= e.dest && e.dest + e.memSize <= r.end
             && (forall k | k in placed && r.Contains(placed[k].base) ::
                 placed[k].base + placed[k].size <= e.dest + e.memSize)
    requires 0 < |e.data| <= e.memSize && BlobOf(e.data, e.dest, SegmentsOf(ranges, segments, name))
    requires if Resident(host, e.dest) then e.fileOffset == e.dest - host.value.start
             else BitOps.Aligned(e.fileOffset, 4)
    ensures EntryOk(e, name, ranges, segments, placed, host)
  {
  }

  lemma {:induction false} BlobBase(blob: seq<Byte>, base: nat, segs: seq<LoadSegment>)
    requires BlobOf(blob, base, segs)
    ensures segs != [] && base == MinPaddr(segs)
  {
    var s :| s in segs && s.paddr == base;
    var m := MinPaddr(segs);
    var i :| 0 <= i < |segs| && segs[i].paddr == m;
    assert segs[i] in segs;
  }

  lemma EntryBase(e: Entry, name: string, ranges: seq<PlaceRange>, segments: seq<LoadSegment>, placed: Placed,
                  host: Option<PlaceRange>)
    requires EntryOk(e, name, ranges, segments, placed, host)
    ensures SegmentsOf(ranges, segments, name) != [] && e.dest == MinPaddr(SegmentsOf(ranges, segments, name))
  {
    hide SegmentsOf, MinPaddr;
    BlobBase(e.data, e.dest, SegmentsOf(ranges, segments, name));
  }

  lemma LinkStep(names: seq<string>, n: nat, entries: seq<Entry>, groups: map<string, seq<LoadSegment>>, before: nat,
                 tail: nat, ranges: seq<PlaceRange>, segments: seq<LoadSegment>, placed: Placed,
                 host: Option<PlaceRange>, e: Entry)
    requires n < |names| && LinkDone(names, n, entries, before, ranges, segments, placed, host)
    requires Grouped(ranges, segments, |segments|, groups) && HostsFirst(names, groups, host)
    requires EntryOk(e, names[n], ranges, segments, placed, host)
    requires before <= tail < U32_LIMIT && e.FileEnd() <= tail && (!Resident(host, e.dest) ==> before <= e.fileOffset)
    ensures LinkDone(names, n + 1, entries + [e], tail, ranges, segments, placed, host)
  {
    hide EntryOk, MinPaddr, FindPlace, StableSort.Filter;
    var more := entries + [e];
    assert segments[..|segments|] == segments;
    EntryBase(e, names[n], ranges, segments, placed, host);
    forall i | 0 <= i < n ensures FileOrder(entries[i], e, host) {
      EntryBase(entries[i], names[i], ranges, segments, placed, host);
      assert Resident(host, MinPaddr(groups[names[n]])) ==> Resident(host, MinPaddr(groups[names[i]]));
    }
    forall i, j | 0 <= i < j < n + 1 ensures FileOrder(more[i], more[j], host) {
      if j < n { assert FileOrder(entries[i], entries[j], host); }
    }
  }

  // --- What linking guarantees -----------------------------------------------------------

  /** Entries of different places occupy different memory, and different file ranges. */
  lemma EntriesApart(names: seq<string>, entries: seq<Entry>, tail: nat, ranges: seq<PlaceRange>,
                     segments: seq<LoadSegment>, placed: Placed, host: Option<PlaceRange>, i: nat, j: nat)
    requires LinkInput(ranges, segments, placed, host) && Distinct(names)
    requires LinkDone(names, |names|, entries, tail, ranges, segments, placed, host) && i < j < |entries|
    ensures entries[i].dest + entries[i].memSize <= entries[j].dest
            || entries[j].dest + entries[j].memSize <= entries[i].dest
    ensures PlacesImage.FileDisjoint(entries[i], entries[j])
  {
    hide BlobOf, SinglyMapped, RangeOf;
    assert EntryOk(entries[i], names[i], ranges, segments, placed, host)
        && EntryOk(entries[j], names[j], ranges, segments, placed, host);
    DifferentNamesApart(ranges, RangeOf(ranges, names[i]).value, RangeOf(ranges, names[j]).value);
    assert FileOrder(entries[i], entries[j], host);
  }

  /** File ranges of all blobs are pairwise disjoint. */
  lemma LinkedFilesDisjoint(entries: seq<Entry>, ranges: seq<PlaceRange>, segments: seq<LoadSegment>, placed: Placed,
                            host: Option<PlaceRange>)
    requires LinkInput(ranges, segments, placed, host) && Linked(entries, ranges, segments, placed, host)
    ensures PlacesImage.AllFileDisjoint(entries)
  {
    hide LinkInput, LinkDone;
    var names, tail :| && |names| == |entries| && Distinct(names)
        && LinkDone(names, |names|, entries, tail, ranges, segments, placed, host);
    forall i, j | 0 <= i < j < |entries| ensures PlacesImage.FileDisjoint(entries[i], entries[j]) {
      EntriesApart(names, entries, tail, ranges, segments, placed, host, i, j);
    }
  }
}
