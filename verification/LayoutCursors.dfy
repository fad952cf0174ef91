/**
 The cursor allocator of the layout solver: address resolution, alignment by
 masking, and first-fit placement inside one place.

 Addresses are natural numbers. The 64-bit overflow that aborts the original is
 an explicit outcome.
 */
module LayoutCursors {
  import opened Wrappers
  import opened BitOps

  datatype Mapping = Mapping(address: nat, size: nat, execute: bool)

  datatype Place = Place(size: nat, mappings: seq<Mapping>, offset: Option<nat>, unmapped: bool)

  datatype Allocation = Allocation(base: nat, size: nat)

  /** (owner, region name) */
  type RegionKey = (string, string)

  datatype PlaceCursor = PlaceCursor(base: nat, cursor: nat, end: nat)

  type CursorMap = map<nat, PlaceCursor>

  /** Bytes held back at the end of a place, by place key. */
  type Reservations = map<nat, nat>

  const PLCB_TRAILER_RESERVATION: nat := 1024

  // --- Address resolution ---------------------------------------------------

  /** Address of the first mapping of the wanted kind that holds `need` bytes. */
  function FirstFitting(ms: seq<Mapping>, need: nat, kind: Option<bool>): Option<nat> {
    if ms == [] then None
    else if (kind.None? || ms[0].execute == kind.value) && need <= ms[0].size then Some(ms[0].address)
    else FirstFitting(ms[1..], need, kind)
  }

  function ResolveCpuAddress(place: Place, needsExecute: bool): Option<nat> {
    var offset := place.offset.GetOr(0);
    var need := offset + place.size;
    match FirstFitting(place.mappings, need, Some(needsExecute))
    case Some(a) => Some(a + offset)
    case None =>
      match FirstFitting(place.mappings, need, None)
      case Some(a) => Some(a + offset)
      case None => None
  }

  /** The mapping holds the place at its offset. */
  predicate HoldsPlace(place: Place, m: Mapping) {
    place.offset.GetOr(0) + place.size <= m.size
  }

  predicate Suits(place: Place, m: Mapping, kind: Option<bool>) {
    HoldsPlace(place, m) && (kind.None? || m.execute == kind.value)
  }

  predicate NoneSuits(place: Place, kind: Option<bool>) {
    forall m | m in place.mappings :: !Suits(place, m, kind)
  }

  /** `a` is the place's offset into the first mapping that holds it and is of the kind. */
  ghost predicate FirstAt(place: Place, kind: Option<bool>, a: nat) {
    exists i ::
      && 0 <= i < |place.mappings| && Suits(place, place.mappings[i], kind)
      && (forall j | 0 <= j < i :: !Suits(place, place.mappings[j], kind))
      && a == place.mappings[i].address + place.offset.GetOr(0)
  }

  /**
   Which address a place gets: its offset into the first mapping of the wanted kind that holds it; where none of
   that kind does, into the first that does; and none exactly when no mapping holds it.
   */
  lemma {:induction false} ResolveIff(place: Place, needsExecute: bool, a: nat)
    ensures ResolveCpuAddress(place, needsExecute).None? <==> NoneSuits(place, None)
    ensures ResolveCpuAddress(place, needsExecute) == Some(a) <==>
            || FirstAt(place, Some(needsExecute), a)
            || (NoneSuits(place, Some(needsExecute)) && FirstAt(place, None, a))
  {
    hide FirstFitting, Suits, FirstAt, FirstIn;
    var kind := Some(needsExecute);
    FoundAt(place, kind, a);
    FoundAt(place, None, a);
    if NoneSuits(place, None) {
      forall m | m in place.mappings ensures !Suits(place, m, kind) {
        if Suits(place, m, kind) { SuitsAny(place, m, needsExecute); }
      }
    }
    if NoneSuits(place, kind) { NoFirst(place, kind, a); }
  }

  lemma {:induction false} FoundAt(place: Place, kind: Option<bool>, a: nat)
    ensures var offset := place.offset.GetOr(0);
            var found := FirstFitting(place.mappings, offset + place.size, kind);
            && (found.None? <==> NoneSuits(place, kind))
            && (found.Some? && found.value + offset == a <==> FirstAt(place, kind, a))
  {
    hide FirstFitting, Suits, FirstAt, FirstIn;
    FirstFittingIs(place, place.mappings, kind);
    FirstAtIs(place, kind, a);
  }

  ghost predicate FirstIn(place: Place, ms: seq<Mapping>, kind: Option<bool>, a: nat) {
    exists i ::
      && 0 <= i < |ms| && Suits(place, ms[i], kind) && (forall j | 0 <= j < i :: !Suits(place, ms[j], kind))
      && a == ms[i].address
  }

  lemma FirstAtIs(place: Place, kind: Option<bool>, a: nat)
    ensures var offset := place.offset.GetOr(0);
            FirstAt(place, kind, a) <==> a >= offset && FirstIn(place, place.mappings, kind, a - offset)
  {
    hide Suits;
  }

  lemma SuitsAny(place: Place, m: Mapping, kind: bool)
    requires Suits(place, m, Some(kind))
    ensures Suits(place, m, None)
  {
  }

  lemma NoFirst(place: Place, kind: Option<bool>, a: nat)
    requires NoneSuits(place, kind)
    ensures !FirstAt(place, kind, a)
  {
    hide Suits;
  }

  lemma {:induction false} FirstFittingIs(place: Place, ms: seq<Mapping>, kind: Option<bool>)
    ensures var found := FirstFitting(ms, place.offset.GetOr(0) + place.size, kind);
            && (found.None? <==> forall m | m in ms :: !Suits(place, m, kind))
            && forall a: nat :: found == Some(a) <==> FirstIn(place, ms, kind, a)
  {
    if ms != [] {
      var rest := ms[1..];
      FirstFittingIs(place, rest, kind);
      assert ms == [ms[0]] + rest;
      if Suits(place, ms[0], kind) {
        forall a: nat ensures FirstIn(place, ms, kind, a) <==> a == ms[0].address { HeadFirst(place, ms, kind, a); }
      } else {
        forall a: nat ensures FirstIn(place, ms, kind, a) <==> FirstIn(place, rest, kind, a) {
          TailFirst(place, ms, kind, a);
        }
      }
    }
  }

  lemma HeadFirst(place: Place, ms: seq<Mapping>, kind: Option<bool>, a: nat)
    requires ms != [] && Suits(place, ms[0], kind)
    ensures FirstIn(place, ms, kind, a) <==> a == ms[0].address
  {
    hide Suits;
  }

  lemma TailFirst(place: Place, ms: seq<Mapping>, kind: Option<bool>, a: nat)
    requires ms != [] && !Suits(place, ms[0], kind)
    ensures FirstIn(place, ms, kind, a) <==> FirstIn(place, ms[1..], kind, a)
  {
    hide Suits;
    var rest := ms[1..];
    if FirstIn(place, ms, kind, a) {
      var i :| && 0 <= i < |ms| && Suits(place, ms[i], kind) && (forall j | 0 <= j < i :: !Suits(place, ms[j], kind))
               && a == ms[i].address;
      assert rest[i - 1] == ms[i];
      assert forall j | 0 <= j < i - 1 :: rest[j] == ms[j + 1];
    }
    if FirstIn(place, rest, kind, a) {
      var i :| && 0 <= i < |rest| && Suits(place, rest[i], kind)
               && (forall j | 0 <= j < i :: !Suits(place, rest[j], kind)) && a == rest[i].address;
      assert ms[i + 1] == rest[i];
      assert forall j | 1 <= j < i + 1 :: ms[j] == rest[j - 1];
    }
  }

  /** Whatever the kind of access, the address is an offset into some mapping that holds the place. */
  lemma ResolvesInto(place: Place, needsExecute: bool) returns (m: Mapping)
    requires ResolveCpuAddress(place, needsExecute).Some?
    ensures m in place.mappings && HoldsPlace(place, m)
    ensures ResolveCpuAddress(place, needsExecute) == Some(m.address + place.offset.GetOr(0))
  {
    hide ResolveCpuAddress;
    var a := ResolveCpuAddress(place, needsExecute).value;
    ResolveIff(place, needsExecute, a);
    var kind := if FirstAt(place, Some(needsExecute), a) then Some(needsExecute) else None;
    assert FirstAt(place, kind, a);
    var i :| 0 <= i < |place.mappings| && Suits(place, place.mappings[i], kind)
             && a == place.mappings[i].address + place.offset.GetOr(0);
    m := place.mappings[i];
  }

  /** The fallback makes resolution independent of the access kind as far as success goes. */
  lemma ResolveAgreesOnSuccess(place: Place)
    ensures ResolveCpuAddress(place, true).Some? <==> ResolveCpuAddress(place, false).Some?
  {
    var need := place.offset.GetOr(0) + place.size;
    if FirstFitting(place.mappings, need, Some(true)).Some? { AnyKindFits(place.mappings, need, true); }
    if FirstFitting(place.mappings, need, Some(false)).Some? { AnyKindFits(place.mappings, need, false); }
  }

  lemma {:induction false} AnyKindFits(ms: seq<Mapping>, need: nat, kind: bool)
    requires FirstFitting(ms, need, Some(kind)).Some?
    ensures FirstFitting(ms, need, None).Some?
  {
    if !(need <= ms[0].size) {
      AnyKindFits(ms[1..], need, kind);
    }
  }

  predicate IsCpuMapped(place: Place) {
    !place.unmapped && place.mappings != []
  }

  function PlaceKey(place: Place): nat {
    ResolveCpuAddress(place, false).GetOr(place.offset.GetOr(0))
  }

  predicate Resolves(place: Place) {
    ResolveCpuAddress(place, false).Some?
  }

  /** A place is known by its address for data, and one without address by its offset. */
  lemma PlaceKeyIs(place: Place)
    ensures Resolves(place) <==> !NoneSuits(place, None)
    ensures !Resolves(place) ==> PlaceKey(place) == if place.offset.Some? then place.offset.value else 0
    ensures Resolves(place) ==> ResolveCpuAddress(place, false) == Some(PlaceKey(place))
  {
    hide NoneSuits, ResolveCpuAddress;
    ResolveIff(place, false, 0);
  }

  /** Base of the mapping a region is handed out in; the canonical one when nothing else fits. */
  function TargetBase(place: Place, execute: bool): nat {
    ResolveCpuAddress(place, execute).GetOr(PlaceKey(place))
  }

  function CursorEnd(cpuBase: nat, place: Place, reservations: Reservations): nat {
    var pk := PlaceKey(place);
    var reserve := if pk in reservations then reservations[pk] else 0;
    cpuBase + if place.size >= reserve then place.size - reserve else 0
  }

  /** A place takes as many bytes as fit in front of what is reserved at its end. */
  lemma CursorEndIff(base: nat, place: Place, reservations: Reservations, need: nat)
    ensures var pk := PlaceKey(place);
            base + need <= CursorEnd(base, place, reservations) <==>
            need == 0 || need + (if pk in reservations then reservations[pk] else 0) <= place.size
  {
    hide PlaceKey;
  }

  /** One trailer reservation for every image place that can be addressed at all. */
  method ComputeReservations(imagePlaces: seq<Place>) returns (out: Reservations)
    ensures out.Keys == set i | 0 <= i < |imagePlaces| && Resolves(imagePlaces[i]) :: PlaceKey(imagePlaces[i])
    ensures forall k :: k in out ==> out[k] == PLCB_TRAILER_RESERVATION
  {
    out := map[];
    for n := 0 to |imagePlaces|
      invariant out.Keys == set i | 0 <= i < n && Resolves(imagePlaces[i]) :: PlaceKey(imagePlaces[i])
      invariant forall k :: k in out ==> out[k] == PLCB_TRAILER_RESERVATION
    {
      if Resolves(imagePlaces[n]) {
        out := out[PlaceKey(imagePlaces[n]) := PLCB_TRAILER_RESERVATION];
      }
    }
  }

  // --- Placement ------------------------------------------------------------

  datatype Placement =
    | Placed(alloc: Allocation, cursors: CursorMap)
    | DoesNotFit
    | Overflows

  function FreshCursor(place: Place, reservations: Reservations): PlaceCursor {
    PlaceCursor(PlaceKey(place), PlaceKey(place), CursorEnd(PlaceKey(place), place, reservations))
  }

  function CursorFor(place: Place, cursors: CursorMap, reservations: Reservations): PlaceCursor {
    if PlaceKey(place) in cursors then cursors[PlaceKey(place)] else FreshCursor(place, reservations)
  }

  function EnsureCursor(place: Place, cursors: CursorMap, reservations: Reservations): CursorMap {
    if Resolves(place) then cursors[PlaceKey(place) := CursorFor(place, cursors, reservations)] else cursors
  }

  /**
   Where `size` bytes go: at the first aligned address past the cursor, provided the end stays
   inside the place. The cursor lives in the canonical address space, the allocation's base in
   the mapping chosen by `execute`.
   */
  function TryAllocate(place: Place, size: nat, align: nat, execute: bool, cursors: CursorMap,
                       reservations: Reservations): (r: Placement)
    ensures var pc := CursorFor(place, cursors, reservations);
            var pk := PlaceKey(place);
            match r
            case Placed(alloc, after) =>
              && Resolves(place) && pk in after
              && after == cursors[pk := pc.(cursor := after[pk].cursor)]
              && alloc.size == size
              && var start := after[pk].cursor - size;
              && pc.cursor <= start < pc.cursor + align
              && start + size <= pc.end
              && pk <= start
              && alloc.base - TargetBase(place, execute) == start - pk
            case DoesNotFit => !Resolves(place)
                || (CanAlign(pc.cursor, align) && AlignUp(pc.cursor, align) + size > pc.end)
            case Overflows => align == 0 || pc.cursor + align - 1 + size >= U64_LIMIT || pc.cursor < pk
  {
    if !Resolves(place) then DoesNotFit
    else
      var pk := PlaceKey(place);
      var pc := CursorFor(place, cursors, reservations);
      if !CanAlign(pc.cursor, align) then Overflows
      else
        Finish(place, size, execute, cursors, pc, AlignUp(pc.cursor, align))
  }

  /** How far the window a region is handed out in lies from the canonical one. */
  function WindowShift(place: Place, execute: bool): int {
    TargetBase(place, execute) - PlaceKey(place)
  }

  /**
   Alignment is computed in the canonical window. The address handed out is aligned exactly when its
   window lies a multiple of the alignment away.
   */
  lemma {:induction false} TryAllocateAligned(place: Place, size: nat, align: nat, execute: bool, cursors: CursorMap,
                           reservations: Reservations)
    requires IsPow2(align)
    requires TryAllocate(place, size, align, execute, cursors, reservations).Placed?
    ensures var r := TryAllocate(place, size, align, execute, cursors, reservations);
            && Aligned(r.cursors[PlaceKey(place)].cursor - size, align)
            && (Aligned(r.alloc.base, align) <==> WindowShift(place, execute) % align == 0)
  {
    hide TargetBase, PlaceKey, Resolves, AlignUp, IsPow2, Aligned;
    var r := TryAllocate(place, size, align, execute, cursors, reservations);
    var pc := CursorFor(place, cursors, reservations);
    var aligned := AlignUp(pc.cursor, align);
    assert r.cursors[PlaceKey(place)].cursor == aligned + size;
    AlignUpRoundsUp(pc.cursor, align);
    assert r.alloc.base - aligned == WindowShift(place, execute);
    AlignedApart(aligned, r.alloc.base, align);
  }

  /** A place whose executable window is offset by sixteen bytes. */
  const SKEWED := Place(4096, [Mapping(0x6000_0000, 4096, false), Mapping(0x1000_0010, 4096, true)], None, false)

  /** There a region asking for 32-byte alignment gets an address that is not aligned. */
  lemma SkewedWindowMisaligns()
    ensures var r := TryAllocate(SKEWED, 64, 32, true, map[], map[]);
            r.Placed? && r.alloc == Allocation(0x1000_0010, 64) && !Aligned(r.alloc.base, 32)
  {
    hide PlaceKey, TargetBase, Resolves, AlignUp, CursorEnd, Aligned;
    SkewedAddresses();
    var base, align := PlaceKey(SKEWED), 32;
    assert IsPow2(align) by { assert IsPow2(4); }
    AlignUpIsRemainder(base, align);
    TryAllocateAligned(SKEWED, 64, align, true, map[], map[]);
  }

  lemma SkewedAddresses()
    ensures PlaceKey(SKEWED) == 0x6000_0000 && TargetBase(SKEWED, true) == 0x1000_0010 && Resolves(SKEWED)
    ensures CursorEnd(0x6000_0000, SKEWED, map[]) == 0x6000_1000
  {
    assert SKEWED.mappings[1..] == [Mapping(0x1000_0010, 4096, true)];
  }

  function Finish(place: Place, size: nat, execute: bool, cursors: CursorMap, pc: PlaceCursor,
                  aligned: nat): Placement {
    var end := aligned + size;
    if end >= U64_LIMIT || aligned < PlaceKey(place) then Overflows
    else if end > pc.end then DoesNotFit
    else
      Placed(Allocation(TargetBase(place, execute) + (aligned - PlaceKey(place)), size),
             cursors[PlaceKey(place) := pc.(cursor := end)])
  }

  // --- Rebuilding cursors from earlier allocations ----------------------------

  predicate Visible(pc: PlaceCursor, a: Allocation) {
    pc.base <= a.base < pc.end
  }

  function Bump(pc: PlaceCursor, a: Allocation): PlaceCursor {
    if Visible(pc, a) && a.base + a.size > pc.cursor then pc.(cursor := a.base + a.size) else pc
  }

  /** `after` is `before` moved to the furthest end among the seen allocations that begin in its range. */
  ghost predicate Swept(before: PlaceCursor, after: PlaceCursor, placed: map<RegionKey, Allocation>,
                        seen: set<RegionKey>)
    requires seen <= placed.Keys
  {
    && after == before.(cursor := after.cursor)
    && after.cursor >= before.cursor
    && (forall k | k in seen :: Visible(before, placed[k]) ==> after.cursor >= placed[k].base + placed[k].size)
    && (after.cursor == before.cursor || exists k :: k in seen && ReachedBy(before, after, placed[k]))
  }

  predicate ReachedBy(before: PlaceCursor, after: PlaceCursor, a: Allocation) {
    Visible(before, a) && after.cursor == a.base + a.size
  }

  lemma SweptStep(before: PlaceCursor, mid: PlaceCursor, placed: map<RegionKey, Allocation>, seen: set<RegionKey>,
                  k: RegionKey)
    requires seen <= placed.Keys && k in placed
    requires Swept(before, mid, placed, seen)
    ensures Swept(before, Bump(mid, placed[k]), placed, seen + {k})
  {
    var after := Bump(mid, placed[k]);
    if after == mid {
      if mid.cursor != before.cursor {
        var w :| w in seen && ReachedBy(before, mid, placed[w]);
        assert w in seen + {k} && ReachedBy(before, after, placed[w]);
      }
    } else {
      assert k in seen + {k} && ReachedBy(before, after, placed[k]);
    }
  }

  ghost predicate AllSwept(before: CursorMap, after: CursorMap, placed: map<RegionKey, Allocation>,
                           seen: set<RegionKey>) {
    && seen <= placed.Keys
    && after.Keys == before.Keys
    && forall pk | pk in before :: Swept(before[pk], after[pk], placed, seen)
  }

  function BumpAll(cursors: CursorMap, a: Allocation): CursorMap {
    map pk | pk in cursors :: Bump(cursors[pk], a)
  }

  lemma AllSweptStep(before: CursorMap, mid: CursorMap, placed: map<RegionKey, Allocation>, seen: set<RegionKey>,
                     k: RegionKey)
    requires AllSwept(before, mid, placed, seen) && k in placed
    ensures AllSwept(before, BumpAll(mid, placed[k]), placed, seen + {k})
  {
    forall pk | pk in before ensures Swept(before[pk], BumpAll(mid, placed[k])[pk], placed, seen + {k}) {
      SweptStep(before[pk], mid[pk], placed, seen, k);
    }
  }

  /** Each cursor ends at the furthest end among the allocations that begin in its canonical range. */
  method AdvanceCursorsPast(placed: map<RegionKey, Allocation>, cursors: CursorMap) returns (out: CursorMap)
    ensures AllSwept(cursors, out, placed, placed.Keys)
  {
    out := cursors;
    var todo := placed.Keys;
    ghost var seen: set<RegionKey> := {};
    while todo != {}
      invariant todo <= placed.Keys && seen == placed.Keys - todo
      invariant AllSwept(cursors, out, placed, seen)
    {
      var k :| k in todo;
      AllSweptStep(cursors, out, placed, seen, k);
      out := BumpAll(out, placed[k]);
      todo := todo - {k};
      seen := seen + {k};
    }
    assert seen == placed.Keys;
  }
}
