/**
 Places with two windows. A pass rebuilds its cursors from addresses, so it does not see what was handed
 out in the other window; these results say exactly when that goes wrong.
 */
module LayoutWindows {
  import opened Wrappers
  import opened BitOps
  import opened LayoutCursors
  import opened LayoutSolver
  import opened LayoutSolve
  import opened LayoutPasses
  import StableSort

  /** The executable window of a place, if it is a different one, does not meet the canonical window. */
  predicate WindowsApart(place: Place) {
    var t, k := TargetBase(place, true), PlaceKey(place);
    t == k || t + place.size <= k || k + place.size <= t
  }

  /** The allocation begins in the cursor's canonical range and ends at or behind `x`. */
  predicate SeenBehind(start: PlaceCursor, a: Allocation, x: int) {
    Visible(start, a) && a.base + a.size >= x
  }

  /** Some region visible in the place's canonical window ends at or behind `x`. */
  ghost predicate Reached(place: Place, placed: map<RegionKey, Allocation>, reservations: Reservations, x: int) {
    exists k :: k in placed && SeenBehind(FreshCursor(place, reservations), placed[k], x)
  }

  /** A rebuilt cursor has reached an address exactly when some region visible to it ends there or later. */
  lemma SweptReachesIff(start: PlaceCursor, swept: PlaceCursor, placed: map<RegionKey, Allocation>, x: int)
    requires Swept(start, swept, placed, placed.Keys)
    ensures swept.cursor >= x <==> start.cursor >= x || exists k :: k in placed && SeenBehind(start, placed[k], x)
  {
    if swept.cursor >= x && swept.cursor != start.cursor {
      var k :| k in placed.Keys && ReachedBy(start, swept, placed[k]);
      assert k in placed && SeenBehind(start, placed[k], x);
    }
  }

  /** A nonempty region shows itself to later passes exactly when it has a canonical address. */
  lemma VisibleIffCanonical(s: Spot, reservations: Reservations)
    requires s.Inside(reservations) && s.size > 0 && WindowsApart(s.place)
    ensures Visible(FreshCursor(s.place, reservations), s.Alloc()) <==> s.Canonical()
  {
    DataIsCanonical(s.place);
  }

  /** What a pass over a layout, with its regions in packing order, has done. */
  ghost predicate PassOver(order: seq<Region>, swept: CursorMap, placed0: map<RegionKey, Allocation>, spots0: Spots,
                           placed: map<RegionKey, Allocation>, spots: Spots, ctx: Context) {
    && WellPlaced(placed0, spots0, ctx) && OldKept(placed0, spots0, placed, spots)
    && SweptFor(swept, order, placed0, ctx.reservations) && Landed(order, |order|, swept, spots)
    && forall i | 0 <= i < |order| :: RegionHonoured(order[i], placed, spots, ctx.reservations)
  }

  /** A pass is what `Layout.Resolve` promises of it. */
  lemma ResolveIsPassOver(pass: Pass, measured: Measured, deferred0: Deferred, deferred: Deferred, order: seq<Region>,
                          swept: CursorMap, placed0: map<RegionKey, Allocation>, spots0: Spots,
                          placed: map<RegionKey, Allocation>, spots: Spots, ctx: Context)
    requires WellPlaced(placed0, spots0, ctx)
    requires PassEffect(pass, measured, ctx.reservations, placed0, spots0, deferred0, placed, spots, deferred)
    requires PassRegions(order, deferred0, measured, pass)
    requires SweptFor(swept, order, placed0, ctx.reservations) && Landed(order, |order|, swept, spots)
    ensures PassOver(order, swept, placed0, spots0, placed, spots, ctx)
  {
    hide WellPlaced, SweptFor, Landed, RegionHonoured, InPass, RegionFor, Apart, Below;
    forall i | 0 <= i < |order| ensures RegionHonoured(order[i], placed, spots, ctx.reservations) {
      assert Wanted(order[i].key, deferred0, InPass(pass));
    }
  }

  /** `k` was placed before the pass, in the place of its region `i`, and neither is empty. */
  predicate Meets(k: RegionKey, i: nat, order: seq<Region>, spots0: Spots) {
    && k in spots0 && i < |order| && Resolves(order[i].place)
    && spots0[k].Key() == PlaceKey(order[i].place) && spots0[k].size > 0 && order[i].size > 0
  }

  lemma PassOverAt(order: seq<Region>, swept: CursorMap, placed0: map<RegionKey, Allocation>, spots0: Spots,
                   placed: map<RegionKey, Allocation>, spots: Spots, ctx: Context, k: RegionKey, i: nat)
    requires PassOver(order, swept, placed0, spots0, placed, spots, ctx) && Meets(k, i, order, spots0)
    ensures var g := order[i];
            && PlaceKey(g.place) in swept && g.key in spots && g.key in placed
            && spots[g.key] == Spot(g.place, g.execute, Landing(order, i, swept[PlaceKey(g.place)].cursor), g.size)
            && PlaceKey(g.place) <= spots[g.key].start && placed[g.key] == spots[g.key].Alloc()
            && k in placed && k in spots && spots[k] == spots0[k] && spots[k].Inside(ctx.reservations)
                && placed[k] == spots[k].Alloc()
  {
    hide PlaceKey, Resolves, Landing, AlignedTo, IsPow2, SweptFor, CursorEnd, TargetBase;
    assert RegionHonoured(order[i], placed, spots, ctx.reservations);
  }

  /**
   A region of a later pass keeps clear of an earlier one exactly when the place it lands on, which the
   earlier layout determines, is not before that region's end, or far enough before its start. Reaching
   the end is enough, and a region with a canonical address is always reached.
   */
  lemma LaterPassApartIff(order: seq<Region>, swept: CursorMap, placed0: map<RegionKey, Allocation>, spots0: Spots,
                          placed: map<RegionKey, Allocation>, spots: Spots, ctx: Context, k: RegionKey, i: nat)
    requires PassOver(order, swept, placed0, spots0, placed, spots, ctx) && Meets(k, i, order, spots0)
    ensures PlaceKey(order[i].place) in swept && order[i].key in spots && order[i].key in placed && k in placed
    ensures var earlier, pk := spots0[k], PlaceKey(order[i].place);
            var landing := Landing(order, i, swept[pk].cursor);
            && (Apart(earlier, spots[order[i].key]) <==>
                earlier.start + earlier.size <= landing || landing + order[i].size <= earlier.start)
            && (Reached(order[i].place, placed0, ctx.reservations, earlier.start + earlier.size) ==>
                  earlier.start + earlier.size <= landing)
            && (earlier.place == order[i].place && earlier.execute == order[i].execute ==>
                  (Disjoint(placed[k], placed[order[i].key]) <==> Apart(earlier, spots[order[i].key])))
  {
    PassOverAt(order, swept, placed0, spots0, placed, spots, ctx, k, i);
    var g, earlier := order[i], spots0[k];
    var pk := PlaceKey(g.place);
    var start := FreshCursor(g.place, ctx.reservations);
    assert Swept(start, swept[pk], placed0, placed0.Keys);
    SweptReachesIff(start, swept[pk], placed0, earlier.start + earlier.size);
    LandingPast(order, i, swept[pk].cursor);
    hide PlaceKey, Resolves, Landing, TargetBase, PassOver, Swept;
  }

  lemma LandingPast(order: seq<Region>, i: nat, cursor: nat)
    requires i < |order|
    ensures cursor <= Landing(order, i, cursor)
  {
    TailBounded(order, i, PlaceKey(order[i].place), cursor);
    hide Tail, AlignUp;
  }

  /** The region is the first nonempty one the pass puts into its place. */
  predicate FirstInPlace(order: seq<Region>, i: nat) {
    i < |order| && forall j | 0 <= j < i :: order[j].size == 0 || PlaceKey(order[j].place) != PlaceKey(order[i].place)
  }

  lemma {:induction false} TailUntouched(order: seq<Region>, n: nat, pk: nat, cursor: nat)
    requires n <= |order| && forall j | 0 <= j < n :: order[j].size == 0 || PlaceKey(order[j].place) != pk
    ensures Tail(order, n, pk, cursor) == cursor
  {
    hide PlaceKey, AlignUp;
    if n > 0 { TailUntouched(order, n - 1, pk, cursor); }
  }

  /**
   Said of the earlier layout alone, for the first region a pass puts into the place: it keeps clear of an
   earlier region exactly when the beginning of the place, or the end of some region visible in the canonical
   window, lies past the last alignment step before that region's end, or it lands and ends before that region.
   */
  lemma FirstRegionApartIff(order: seq<Region>, swept: CursorMap, placed0: map<RegionKey, Allocation>, spots0: Spots,
                            placed: map<RegionKey, Allocation>, spots: Spots, ctx: Context, k: RegionKey, i: nat)
    requires PassOver(order, swept, placed0, spots0, placed, spots, ctx) && Meets(k, i, order, spots0)
    requires FirstInPlace(order, i) && IsPow2(order[i].align)
    ensures PlaceKey(order[i].place) in swept && order[i].key in spots
    ensures var g, earlier := order[i], spots0[k];
            var near := StepBelow(earlier.start + earlier.size, g.align) + 1;
            Apart(earlier, spots[g.key]) <==>
              || near <= PlaceKey(g.place)
              || Reached(g.place, placed0, ctx.reservations, near)
              || Landing(order, i, swept[PlaceKey(g.place)].cursor) + g.size <= earlier.start
  {
    var g, earlier := order[i], spots0[k];
    var pk, end := PlaceKey(g.place), earlier.start + earlier.size;
    LaterPassApartIff(order, swept, placed0, spots0, placed, spots, ctx, k, i);
    PassOverAt(order, swept, placed0, spots0, placed, spots, ctx, k, i);
    var start := FreshCursor(g.place, ctx.reservations);
    assert Swept(start, swept[pk], placed0, placed0.Keys);
    assert LandsAligned(order, i, swept[pk].cursor);
    TailUntouched(order, i, pk, swept[pk].cursor);
    LandingIs(order, i, swept[pk].cursor);
    AlignUpReachesIff(swept[pk].cursor, g.align, end);
    hide PlaceKey, Resolves, Landing, TargetBase, PassOver, Swept, AlignUp, IsPow2, Tail, StepBelow;
    SweptReachesIff(start, swept[pk], placed0, StepBelow(end, g.align) + 1);
  }

  /**
   With nothing in the canonical window to see, a pass starts over at the beginning of the place, and is
   handed the very address that the first region of the other window already has.
   */
  lemma UnseenIsOverwritten(order: seq<Region>, swept: CursorMap, placed0: map<RegionKey, Allocation>, spots0: Spots,
                            placed: map<RegionKey, Allocation>, spots: Spots, ctx: Context, k: RegionKey, i: nat)
    requires PassOver(order, swept, placed0, spots0, placed, spots, ctx) && Meets(k, i, order, spots0)
             && FirstInPlace(order, i)
    requires spots0[k].place == order[i].place && spots0[k].execute == order[i].execute
    requires forall l | l in placed0 :: !Visible(FreshCursor(order[i].place, ctx.reservations), placed0[l])
    requires CanAlign(PlaceKey(order[i].place), order[i].align)
             && spots0[k].start == AlignUp(PlaceKey(order[i].place), order[i].align)
    ensures k in placed && order[i].key in placed && placed[order[i].key].base == placed[k].base
    ensures !Disjoint(placed[k], placed[order[i].key])
  {
    PassOverAt(order, swept, placed0, spots0, placed, spots, ctx, k, i);
    var pk := PlaceKey(order[i].place);
    var start := FreshCursor(order[i].place, ctx.reservations);
    assert Swept(start, swept[pk], placed0, placed0.Keys);
    assert swept[pk].cursor == pk;
    TailUntouched(order, i, pk, pk);
    LandingIs(order, i, pk);
    hide PlaceKey, Resolves, Landing, TargetBase, PassOver, Swept, AlignUp;
  }

  // --- Code of two passes ----------------------------------------------------------------

  function CodeIn(place: Place, align: nat): RegionRequest {
    RegionRequest(Some(place), None, Some(align), None, true)
  }

  lemma OneRegion(order: seq<Region>, deferred: Deferred, measured: Measured, pass: Pass, k: RegionKey)
    requires PassRegions(order, deferred, measured, pass)
    requires forall l :: Wanted(l, deferred, InPass(pass)) <==> l == k
    ensures |order| == 1 && k in deferred && Mapped(deferred[k]) && order[0] == RegionFor(k, deferred[k], measured)
  {
    hide InPass, RegionFor, BiggestFirst, StableSort.Sorted;
    assert Wanted(k, deferred, InPass(pass));
    var i :| 0 <= i < |order| && order[i].key == k;
    assert forall j | 0 <= j < |order| && order[j].key == k :: j == i;
    assert |order| < 2 || (order[0].key == k && order[1].key == k);
  }

  lemma RoomForOne(deferred: Deferred, measured: Measured, pass: Pass, k: RegionKey,
                   placed: map<RegionKey, Allocation>, reservations: Reservations)
    requires forall l :: Wanted(l, deferred, InPass(pass)) <==> l == k
    requires forall l | l in deferred :: Mapped(deferred[l]) && l in measured
    requires k in deferred && Mapped(deferred[k]) && deferred[k].align.GetOr(32) > 0 && measured[k] > 0
    requires RoomFor(deferred[k].place.value, measured[k] + deferred[k].align.GetOr(32), reservations)
    requires forall l | l in placed :: !Visible(FreshCursor(deferred[k].place.value, reservations), placed[l])
    ensures PassRoom(pass, measured, reservations, deferred, placed)
  {
    hide InPass, Visible, PassRegions, PlaceKey, CursorEnd, Resolves;
    forall order: seq<Region> | PassRegions(order, deferred, measured, pass)
        ensures RegionsRoom(order, placed, reservations) {
      OneRegion(order, deferred, measured, pass, k);
      var pk := PlaceKey(order[0].place);
      assert RegionsNeed(order, 1, pk) == RegionsNeed(order, 0, pk) + RegionCost(order[0], pk);
    }
  }

  /** The one region of a pass that sees nothing starts at the beginning of its place. */
  lemma OneLands(order: seq<Region>, swept: CursorMap, placed0: map<RegionKey, Allocation>, spots0: Spots,
                 placed: map<RegionKey, Allocation>, spots: Spots, ctx: Context)
    requires PassOver(order, swept, placed0, spots0, placed, spots, ctx)
    requires |order| == 1 && Resolves(order[0].place) && order[0].size > 0
    requires forall l | l in placed0 :: !Visible(FreshCursor(order[0].place, ctx.reservations), placed0[l])
    ensures var g := order[0];
            && CanAlign(PlaceKey(g.place), g.align) && g.key in spots && g.key in placed
            && spots[g.key] == Spot(g.place, g.execute, AlignUp(PlaceKey(g.place), g.align), g.size)
            && spots[g.key].Inside(ctx.reservations) && placed[g.key] == spots[g.key].Alloc()
  {
    hide PlaceKey, Resolves, TargetBase, AlignUp, CursorEnd, AlignedTo, IsPow2, WellPlaced, OldKept;
    var g := order[0];
    var pk := PlaceKey(g.place);
    assert RegionHonoured(g, placed, spots, ctx.reservations);
    assert Swept(FreshCursor(g.place, ctx.reservations), swept[pk], placed0, placed0.Keys);
    assert LandsAligned(order, 0, swept[pk].cursor);
    LandingIs(order, 0, swept[pk].cursor);
  }

  /**
   Code of two passes, alone in a place whose executable window is not its data window, gets one address
   whenever it is placed at all, and it is placed whenever each of the two has room by itself.
   */
  method CodeOfTwoPasses(place: Place, a: RegionKey, b: RegionKey, measured: Measured, align: nat,
                         reservations: Reservations)
    returns (r: Result<map<RegionKey, Allocation>, LayoutError>)
    requires IsCpuMapped(place) && Resolves(place) && WindowsApart(place) && TargetBase(place, true) != PlaceKey(place)
    requires PassFor(a) != PassFor(b) && a in measured && b in measured && measured[a] > 0 && measured[b] > 0
    ensures r.Success? ==>
              && a in r.value && b in r.value
              && r.value[a].base == r.value[b].base && !Disjoint(r.value[a], r.value[b])
              && CanAlign(PlaceKey(place), align)
              && r.value[a].base == AlignUp(PlaceKey(place), align) - PlaceKey(place) + TargetBase(place, true)
    ensures align > 0 && RoomFor(place, measured[a] + align, reservations)
            && RoomFor(place, measured[b] + align, reservations) ==>
              r.Success?
  {
    hide PlaceKey, TargetBase, Resolves, AlignUp, CursorEnd, WellPlaced, PassEffect, PassRegions, SweptFor, Landed,
         PassOver, PassFor, InPass, WindowsApart, AllInside, AllCanonical, DeferredCanonical, PairwiseApart, RoomFor,
         PassRoom, Visible, FreshCursor, CanAlign, Disjoint, IsCpuMapped;
    ghost var ctx := Context({place}, map[], reservations);
    var code := CodeIn(place, align);
    var deferred: Deferred := map[a := code, b := code];
    PassForIs(a, PassFor(a));
    PassForIs(b, PassFor(a));
    PassForIs(b, PassFor(b));
    PassForIs(a, PassFor(b));
    var layout := new Layout(Solution(map[], deferred, []), map[]);
    EmptyIsPlaced(ctx);
    if align > 0 && RoomFor(place, measured[a] + align, reservations) {
      RoomForOne(deferred, measured, PassFor(a), a, map[], reservations);
    }
    ghost var orderA, sweptA;
    var first;
    first, orderA, sweptA := layout.Resolve(PassFor(a), measured, reservations, ctx);
    if first.Failure? { return Failure(first.error); }
    ghost var placed, spots := layout.placed, layout.spots;
    OneRegion(orderA, deferred, measured, PassFor(a), a);
    ResolveIsPassOver(PassFor(a), measured, deferred, layout.deferred, orderA, sweptA, map[], map[], placed, spots,
                      ctx);
    OneLands(orderA, sweptA, map[], map[], placed, spots, ctx);
    VisibleIffCanonical(spots[a], reservations);
    OnlyOnePlaced(PassFor(a), measured, deferred, layout.deferred, placed, spots, reservations, a, b);
    if align > 0 && RoomFor(place, measured[b] + align, reservations) {
      RoomForOne(layout.deferred, measured, PassFor(b), b, placed, reservations);
    }
    ghost var orderB, sweptB;
    var second;
    second, orderB, sweptB := layout.Resolve(PassFor(b), measured, reservations, ctx);
    if second.Failure? { return Failure(second.error); }
    OneRegion(orderB, map[b := code], measured, PassFor(b), b);
    ResolveIsPassOver(PassFor(b), measured, map[b := code], layout.deferred, orderB, sweptB, placed, spots,
                      layout.placed, layout.spots, ctx);
    PassOverAt(orderB, sweptB, placed, spots, layout.placed, layout.spots, ctx, a, 0);
    UnseenIsOverwritten(orderB, sweptB, placed, spots, layout.placed, layout.spots, ctx, a, 0);
    r := Success(layout.placed);
  }

  lemma EmptyIsPlaced(ctx: Context)
    ensures WellPlaced(map[], map[], ctx)
  {
  }

  lemma OnlyOnePlaced(pass: Pass, measured: Measured, deferred0: Deferred, deferred: Deferred,
                      placed: map<RegionKey, Allocation>, spots: Spots, reservations: Reservations, a: RegionKey,
                      b: RegionKey)
    requires PassEffect(pass, measured, reservations, map[], map[], deferred0, placed, spots, deferred)
    requires a in deferred0 && b in deferred0 && deferred0.Keys == {a, b} && InPass(pass)(a) && !InPass(pass)(b)
    ensures forall k | k in placed :: k == a
    ensures deferred == map[b := deferred0[b]]
  {
    hide InPass, RegionHonoured, RegionFor, Apart, Below, OldKept;
  }

  // --- Empty regions ----------------------------------------------------------------------

  /** Empty regions come last, at the end of everything in their place. */
  lemma {:induction false} EmptyAtTail(order: seq<Region>, i: nat, m: nat, cursor: nat)
    requires i <= m <= |order| && i < |order| && order[i].size == 0 && StableSort.Sorted(order, BiggestFirst)
    ensures Tail(order, m, PlaceKey(order[i].place), cursor) == Tail(order, i, PlaceKey(order[i].place), cursor)
    ensures Landing(order, i, cursor) == Tail(order, i, PlaceKey(order[i].place), cursor)
    decreases m
  {
    hide PlaceKey, AlignUp;
    if i < m {
      EmptyAtTail(order, i, m - 1, cursor);
      if i < m - 1 { assert BiggestFirst(order[i], order[m - 1]); }
    }
  }

  /** The end of everything in the region's place, moved into the region's window. */
  function TailAddress(order: seq<Region>, i: nat, cursor: nat): int
    requires i < |order|
  {
    Tail(order, |order|, PlaceKey(order[i].place), cursor) + WindowShift(order[i].place, order[i].execute)
  }

  /**
   An empty region's address is whatever the last region left: aligned exactly when that end, moved into
   the window, is.
   */
  lemma EmptyAlignedIff(order: seq<Region>, swept: CursorMap, placed0: map<RegionKey, Allocation>, spots0: Spots,
                        placed: map<RegionKey, Allocation>, spots: Spots, ctx: Context, i: nat)
    requires PassOver(order, swept, placed0, spots0, placed, spots, ctx) && StableSort.Sorted(order, BiggestFirst)
    requires i < |order| && order[i].size == 0 && order[i].align > 0 && Resolves(order[i].place)
    ensures PlaceKey(order[i].place) in swept && order[i].key in placed
    ensures var pk := PlaceKey(order[i].place);
            Aligned(placed[order[i].key].base, order[i].align) <==>
            TailAddress(order, i, swept[pk].cursor) % order[i].align == 0
  {
    hide Resolves, Landing, Tail, AlignUp, Aligned, WellPlaced, CursorEnd, AlignedTo, IsPow2, TargetBase;
    var g := order[i];
    var pk := PlaceKey(g.place);
    assert RegionHonoured(g, placed, spots, ctx.reservations);
    EmptyAtTail(order, i, |order|, swept[pk].cursor);
    AlignedIffRemainder(placed[g.key].base, g.align);
    assert placed[g.key].base == Tail(order, |order|, pk, swept[pk].cursor) + WindowShift(g.place, g.execute);
  }

  // --- Concrete places -------------------------------------------------------------------

  /** PSRAM as the board maps it: a data window and an executable window. */
  const DUAL_MAPPED := Place(4096, [Mapping(0x6000_0000, 4096, false), Mapping(0x1000_0000, 4096, true)], None, false)

  /** The cursor a later pass starts from, rebuilt from the earlier allocations. */
  function Rebuilt(place: Place, earlier: seq<Allocation>): PlaceCursor {
    if earlier == [] then FreshCursor(place, map[])
    else Bump(Rebuilt(place, earlier[..|earlier| - 1]), earlier[|earlier| - 1])
  }

  /** The cursor is the one a pass rebuilds from a layout that holds just these allocations. */
  lemma {:induction false} RebuiltIsSwept(place: Place, keys: seq<RegionKey>, placed: map<RegionKey, Allocation>,
                                          earlier: seq<Allocation>)
    requires |keys| == |earlier| && forall i | 0 <= i < |keys| :: keys[i] in placed && placed[keys[i]] == earlier[i]
    ensures (set k | k in keys) <= placed.Keys
    ensures Swept(FreshCursor(place, map[]), Rebuilt(place, earlier), placed, set k | k in keys)
  {
    hide PlaceKey, CursorEnd, Swept, Bump, FreshCursor;
    if keys == [] {
      assert (set k | k in keys) == {};
      NothingSwept(FreshCursor(place, map[]), placed);
    } else {
      var n := |keys| - 1;
      var before := set k | k in keys[..n];
      RebuiltIsSwept(place, keys[..n], placed, earlier[..n]);
      SweptStep(FreshCursor(place, map[]), Rebuilt(place, earlier[..n]), placed, before, keys[n]);
      assert keys == keys[..n] + [keys[n]];
      assert (set k | k in keys) == before + {keys[n]};
    }
  }

  lemma NothingSwept(pc: PlaceCursor, placed: map<RegionKey, Allocation>)
    ensures Swept(pc, pc, placed, {})
  {
  }

  lemma AlignedAt(x: nat)
    requires x % 32 == 0 && x < 0x8000_0000
    ensures CanAlign(x, 32) && AlignUp(x, 32) == x
  {
    var align := 32;
    assert IsPow2(align) by { assert IsPow2(4); }
    AlignUpIsRemainder(x, align);
  }

  lemma DualMappedAddresses()
    ensures PlaceKey(DUAL_MAPPED) == 0x6000_0000 && TargetBase(DUAL_MAPPED, true) == 0x1000_0000
            && Resolves(DUAL_MAPPED)
    ensures TargetBase(DUAL_MAPPED, false) == 0x6000_0000
    ensures CursorEnd(0x6000_0000, DUAL_MAPPED, map[]) == 0x6000_1000
  {
    assert DUAL_MAPPED.mappings[1..] == [Mapping(0x1000_0000, 4096, true)];
  }

  /** A collision: code of two passes in one dual-mapped place lands on 0x10000000. */
  lemma DualMappedCollision()
    ensures WindowsApart(DUAL_MAPPED) && Resolves(DUAL_MAPPED)
    ensures var first := TryAllocate(DUAL_MAPPED, 64, 32, true, map[], map[]);
            && first.Placed?
            && var cursors := map[PlaceKey(DUAL_MAPPED) := Rebuilt(DUAL_MAPPED, [first.alloc])];
            && var second := TryAllocate(DUAL_MAPPED, 128, 32, true, cursors, map[]);
            && second.Placed?
            && first.alloc == Allocation(0x1000_0000, 64) && second.alloc == Allocation(0x1000_0000, 128)
  {
    hide PlaceKey, TargetBase, Resolves, AlignUp, CursorEnd, Rebuilt;
    DualMappedAddresses();
    AlignedAt(0x6000_0000);
    RebuiltOne(DUAL_MAPPED, Allocation(0x1000_0000, 64));
  }

  /** No collision when data placed behind the first code shows the later pass how far the place is used. */
  lemma DualMappedDataShows()
    ensures var first := TryAllocate(DUAL_MAPPED, 64, 32, true, map[], map[]);
            && first.Placed?
            && var data := TryAllocate(DUAL_MAPPED, 32, 32, false, first.cursors, map[]);
            && data.Placed?
            && var cursors := map[PlaceKey(DUAL_MAPPED) := Rebuilt(DUAL_MAPPED, [first.alloc, data.alloc])];
            && var second := TryAllocate(DUAL_MAPPED, 128, 32, true, cursors, map[]);
            && second.Placed? && Disjoint(first.alloc, second.alloc)
            && second.alloc == Allocation(0x1000_0060, 128)
  {
    hide PlaceKey, TargetBase, Resolves, AlignUp, CursorEnd, Rebuilt;
    DualMappedAddresses();
    AlignedAt(0x6000_0000);
    AlignedAt(0x6000_0040);
    AlignedAt(0x6000_0060);
    RebuiltTwo(DUAL_MAPPED, Allocation(0x1000_0000, 64), Allocation(0x6000_0040, 32));
  }

  lemma {:induction false} RebuiltOne(place: Place, a: Allocation)
    ensures Rebuilt(place, [a]) == Bump(FreshCursor(place, map[]), a)
  {
    assert [a][..0] == [];
  }

  lemma {:induction false} RebuiltTwo(place: Place, a: Allocation, b: Allocation)
    ensures Rebuilt(place, [a, b]) == Bump(Bump(FreshCursor(place, map[]), a), b)
  {
    assert [a, b][..1] == [a];
    RebuiltOne(place, a);
  }
}
