/**
 Deferred resolution: once the linker has measured the unsized regions, one pass
 for the tasks, one for the kernel and one for the bootloader. Each pass rebuilds
 its cursors from the allocations made so far.
 */
module LayoutPasses {
  import opened Wrappers
  import opened BitOps
  import opened LayoutCursors
  import opened LayoutSolver
  import opened LayoutSolve
  import StableSort

  datatype Region = Region(key: RegionKey, size: nat, align: nat, place: Place, execute: bool)

  type Measured = map<RegionKey, nat>

  type Deferred = map<RegionKey, RegionRequest>

  predicate Wanted(k: RegionKey, deferred: Deferred, filter: RegionKey -> bool) {
    k in deferred && filter(k) && Mapped(deferred[k])
  }

  /** An unmeasured region has no content. */
  function RegionFor(k: RegionKey, req: RegionRequest, measured: Measured): Region
    requires Mapped(req)
  {
    Region(k, if k in measured then measured[k] else 0, req.align.GetOr(32), req.place.value, req.execute)
  }

  predicate Unmeasured(k: RegionKey, deferred: Deferred, measured: Measured, filter: RegionKey -> bool) {
    k in deferred && filter(k) && k !in measured && k.1 == "code"
  }

  ghost predicate Collected(regions: seq<Region>, keys: set<RegionKey>, deferred: Deferred, measured: Measured,
                            filter: RegionKey -> bool) {
    && (forall i, j | 0 <= i < j < |regions| :: regions[i].key != regions[j].key)
    && (forall i | 0 <= i < |regions| ::
          && Wanted(regions[i].key, deferred, filter) && regions[i].key in keys
          && regions[i] == RegionFor(regions[i].key, deferred[regions[i].key], measured))
    && (forall k | k in keys && Wanted(k, deferred, filter) :: exists i :: 0 <= i < |regions| && regions[i].key == k)
  }

  /** Gathers the regions of one pass; code that was not measured is an error, anything else unmeasured is empty. */
  method CollectRegions(deferred: Deferred, measured: Measured, filter: RegionKey -> bool)
    returns (r: Result<seq<Region>, LayoutError>)
    ensures r.Failure? <==> exists k :: Unmeasured(k, deferred, measured, filter)
    ensures r.Failure? ==> r.error.DeferredNotMeasured? && Unmeasured(r.error.key, deferred, measured, filter)
    ensures r.Success? ==> Collected(r.value, deferred.Keys, deferred, measured, filter)
  {
    var regions: seq<Region> := [];
    var todo := deferred.Keys;
    ghost var seen: set<RegionKey> := {};
    while todo != {}
      invariant todo <= deferred.Keys && seen == deferred.Keys - todo
      invariant forall k | k in seen :: !Unmeasured(k, deferred, measured, filter)
      invariant Collected(regions, seen, deferred, measured, filter)
    {
      var k :| k in todo;
      todo := todo - {k};
      if filter(k) {
        if k !in measured && k.1 == "code" {
          assert Unmeasured(k, deferred, measured, filter);
          return Failure(DeferredNotMeasured(k));
        }
        if Mapped(deferred[k]) {
          CollectedStep(regions, seen, deferred, measured, filter, k);
          regions := regions + [RegionFor(k, deferred[k], measured)];
        }
      }
      seen := seen + {k};
    }
    assert seen == deferred.Keys;
    r := Success(regions);
  }

  lemma CollectedStep(regions: seq<Region>, seen: set<RegionKey>, deferred: Deferred, measured: Measured,
                      filter: RegionKey -> bool, k: RegionKey)
    requires Collected(regions, seen, deferred, measured, filter) && Wanted(k, deferred, filter) && k !in seen
    ensures Collected(regions + [RegionFor(k, deferred[k], measured)], seen + {k}, deferred, measured, filter)
  {
    hide RegionFor, IsCpuMapped;
    var more := regions + [RegionFor(k, deferred[k], measured)];
    assert RegionFor(k, deferred[k], measured).key == k by { RegionForKey(k, deferred[k], measured); }
    forall l | l in seen + {k} && Wanted(l, deferred, filter) ensures exists i :: 0 <= i < |more| && more[i].key == l {
      if l == k {
        assert more[|regions|].key == l;
      } else {
        var i :| 0 <= i < |regions| && regions[i].key == l;
        assert more[i].key == l;
      }
    }
  }

  lemma RegionForKey(k: RegionKey, req: RegionRequest, measured: Measured)
    requires Mapped(req)
    ensures RegionFor(k, req, measured).key == k
  {
  }

  // --- Cursors of a pass ----------------------------------------------------------

  /** Fresh cursors for every referenced place. */
  method SeedCursors(regions: seq<Region>, reservations: Reservations, ghost places: set<Place>)
    returns (cursors: CursorMap)
    requires Consistent(places) && forall i | 0 <= i < |regions| :: regions[i].place in places
    ensures CursorsMatch(cursors, places, reservations)
    ensures forall i | 0 <= i < |regions| && Resolves(regions[i].place) :: PlaceKey(regions[i].place) in cursors
    ensures forall pk | pk in cursors :: cursors[pk].cursor == cursors[pk].base
  {
    cursors := map[];
    for n := 0 to |regions|
      invariant CursorsMatch(cursors, places, reservations)
      invariant forall pk | pk in cursors :: cursors[pk].cursor == cursors[pk].base
      invariant forall i | 0 <= i < n && Resolves(regions[i].place) :: PlaceKey(regions[i].place) in cursors
    {
      cursors := EnsureCursor(regions[n].place, cursors, reservations);
    }
  }

  /** Every nonempty spot that a rebuilt cursor concerns ends at or before that cursor. */
  ghost predicate OldCovered(spots: Spots, cursors: CursorMap) {
    forall k | k in spots && spots[k].size > 0 && spots[k].Key() in cursors ::
      spots[k].start + spots[k].size <= cursors[spots[k].Key()].cursor
  }

  ghost predicate AllCanonical(spots: Spots) {
    forall k | k in spots && spots[k].size > 0 :: spots[k].Canonical()
  }

  /** Rebuilding sees every earlier allocation that was handed out in canonical addresses. */
  lemma AdvanceCovers(placed: map<RegionKey, Allocation>, spots: Spots, before: CursorMap, after: CursorMap,
                      ctx: Context)
    requires WellPlaced(placed, spots, ctx) && AllCanonical(spots)
    requires CursorsMatch(before, ctx.places, ctx.reservations) && AllSwept(before, after, placed, placed.Keys)
    ensures OldCovered(spots, after)
  {
    forall k | k in spots && spots[k].size > 0 && spots[k].Key() in after
      ensures spots[k].start + spots[k].size <= after[spots[k].Key()].cursor
    {
      var s := spots[k];
      var pc := before[s.Key()];
      assert pc.base == s.Key() && pc.end == CursorEnd(s.Key(), s.place, ctx.reservations);
      assert Visible(pc, placed[k]);
      assert Swept(pc, after[s.Key()], placed, placed.Keys);
    }
  }

  lemma AdvanceMatches(placed: map<RegionKey, Allocation>, before: CursorMap, after: CursorMap, places: set<Place>,
                       reservations: Reservations)
    requires CursorsMatch(before, places, reservations) && AllSwept(before, after, placed, placed.Keys)
    ensures CursorsMatch(after, places, reservations)
  {
    forall p | p in places && Resolves(p) && PlaceKey(p) in after
      ensures after[PlaceKey(p)].base == PlaceKey(p) && after[PlaceKey(p)].base <= after[PlaceKey(p)].cursor
      ensures after[PlaceKey(p)].end == CursorEnd(PlaceKey(p), p, reservations)
    {
      assert Swept(before[PlaceKey(p)], after[PlaceKey(p)], placed, placed.Keys);
    }
  }

  // --- One pass ---------------------------------------------------------------------

  predicate BiggestFirst(a: Region, b: Region) {
    PlaceKey(a.place) < PlaceKey(b.place) || (PlaceKey(a.place) == PlaceKey(b.place) && a.size >= b.size)
  }

  /** The region sits where the pass put it: sized as measured, aligned, inside its place. */
  ghost predicate RegionHonoured(r: Region, placed: map<RegionKey, Allocation>, spots: Spots,
                                 reservations: Reservations) {
    && r.key in placed && r.key in spots
    && spots[r.key].place == r.place && spots[r.key].execute == r.execute
    && spots[r.key].size == r.size && placed[r.key].size == r.size
    && (r.size > 0 ==> spots[r.key].Inside(reservations))
    && (Resolves(r.place) ==> spots[r.key].Key() <= spots[r.key].start && placed[r.key] == spots[r.key].Alloc())
    && (r.size > 0 && IsPow2(r.align) ==> AlignedTo(spots[r.key], r.align))
  }

  ghost predicate RegionCovered(r: Region, spots: Spots, cursors: CursorMap) {
    r.key in spots && (r.size > 0 ==>
                       spots[r.key].Key() in cursors
                           && spots[r.key].start + r.size <= cursors[spots[r.key].Key()].cursor)
  }

  ghost predicate OldKept(placed0: map<RegionKey, Allocation>, spots0: Spots, placed: map<RegionKey, Allocation>,
                          spots: Spots) {
    && placed0.Keys <= placed.Keys && spots0.Keys <= spots.Keys
    && (forall k | k in placed0 :: placed[k] == placed0[k])
    && (forall k | k in spots0 :: spots[k] == spots0[k])
  }

  ghost predicate NewInOrder(regions: seq<Region>, n: nat, spots: Spots)
    requires n <= |regions|
  {
    && (forall i | 0 <= i < n :: regions[i].key in spots)
    && forall i, j | 0 <= i < j < n :: Below(spots[regions[i].key], spots[regions[j].key])
  }

  /** Of two nonempty spots of one place, `s` comes first. */
  predicate Below(s: Spot, t: Spot) {
    s.size == 0 || t.size == 0 || s.Key() != t.Key() || s.start + s.size <= t.start
  }

  ghost predicate OldNewApart(spots0: Spots, regions: seq<Region>, n: nat, spots: Spots)
    requires n <= |regions|
  {
    && (forall i | 0 <= i < n :: regions[i].key in spots)
    && forall k, i | k in spots0 && 0 <= i < n :: Apart(spots0[k], spots[regions[i].key])
  }

  /** State of a pass after its first `n` regions; `seen` says the cursors cover every earlier spot. */
  ghost predicate PassDone(regions: seq<Region>, n: nat, placed0: map<RegionKey, Allocation>, spots0: Spots,
                           placed: map<RegionKey, Allocation>, spots: Spots, cursors: CursorMap, ctx: Context,
                           seen: bool)
    requires n <= |regions|
  {
    && placed.Keys == spots.Keys
    && (forall k | k in placed :: k in placed0 || exists i :: 0 <= i < n && regions[i].key == k)
    && OldKept(placed0, spots0, placed, spots)
    && CursorsMatch(cursors, ctx.places, ctx.reservations)
    && (forall i | 0 <= i < n :: RegionHonoured(regions[i], placed, spots, ctx.reservations))
    && (forall i | 0 <= i < n :: RegionCovered(regions[i], spots, cursors))
    && NewInOrder(regions, n, spots)
    && (seen ==> OldCovered(spots0, cursors) && OldNewApart(spots0, regions, n, spots))
  }

  ghost predicate PassInput(regions: seq<Region>, placed0: map<RegionKey, Allocation>, spots0: Spots,
                            cursors: CursorMap, ctx: Context) {
    && placed0.Keys == spots0.Keys
    && (forall i, j | 0 <= i < j < |regions| :: regions[i].key != regions[j].key)
    && (forall i | 0 <= i < |regions| :: regions[i].key !in placed0 && regions[i].place in ctx.places)
    && (forall i | 0 <= i < |regions| && Resolves(regions[i].place) :: PlaceKey(regions[i].place) in cursors)
    && Consistent(ctx.places)
  }

  /** Where an empty region is entered: at the cursor, without moving it. */
  function EmptyStart(place: Place, cursors: CursorMap): nat {
    if PlaceKey(place) in cursors then cursors[PlaceKey(place)].cursor else if Resolves(place) then PlaceKey(place)
    else 0
  }

  function EmptyAllocation(place: Place, execute: bool, cursors: CursorMap): Allocation
    requires Resolves(place) ==> PlaceKey(place) <= EmptyStart(place, cursors)
  {
    var canonical := ResolveCpuAddress(place, false).GetOr(0);
    var target := ResolveCpuAddress(place, execute).GetOr(canonical);
    Allocation(target + (EmptyStart(place, cursors) - canonical), 0)
  }

  /** An empty region of a place without address is entered at zero. */
  lemma EmptyWithoutAddress(place: Place, execute: bool, cursors: CursorMap)
    requires !Resolves(place) && PlaceKey(place) !in cursors
    ensures EmptyAllocation(place, execute, cursors) == Allocation(0, 0)
  {
    ResolveAgreesOnSuccess(place);
  }

  lemma EmptyStartOk(place: Place, cursors: CursorMap, ctx: Context)
    requires place in ctx.places && CursorsMatch(cursors, ctx.places, ctx.reservations)
    ensures Resolves(place) ==> PlaceKey(place) <= EmptyStart(place, cursors)
  {
  }

  ghost function AfterEmpty(r: Region, cursors: CursorMap): Spot {
    Spot(r.place, r.execute, EmptyStart(r.place, cursors), 0)
  }

  lemma EmptyStep(regions: seq<Region>, n: nat, placed0: map<RegionKey, Allocation>, spots0: Spots,
                  placed: map<RegionKey, Allocation>, spots: Spots, cursors: CursorMap, ctx: Context, seen: bool)
    requires n < |regions| && PassInput(regions, placed0, spots0, cursors, ctx)
    requires PassDone(regions, n, placed0, spots0, placed, spots, cursors, ctx, seen)
    requires regions[n].size == 0
    ensures Resolves(regions[n].place) ==> PlaceKey(regions[n].place) <= EmptyStart(regions[n].place, cursors)
    ensures PassDone(regions, n + 1, placed0, spots0,
                     placed[regions[n].key := EmptyAllocation(regions[n].place, regions[n].execute, cursors)],
                     spots[regions[n].key := AfterEmpty(regions[n], cursors)], cursors, ctx, seen)
  {
    hide Consistent, AlignedTo, IsPow2, CursorsMatch, RegionHonoured, RegionCovered, Resolves, PlaceKey, OldKept,
         PassInput, EmptyAllocation, EmptyStart, NewInOrder, OldNewApart, OldCovered;
    var r := regions[n];
    PassInputAt(regions, placed0, spots0, cursors, ctx, n);
    EmptyStartOk(r.place, cursors, ctx);
    var placed1 := placed[r.key := EmptyAllocation(r.place, r.execute, cursors)];
    var spots1 := spots[r.key := AfterEmpty(r, cursors)];
    EmptyHonoured(r, placed, spots, cursors, ctx.reservations);
    Extends(regions, n, placed0, spots0, placed, spots, ctx.reservations, cursors, cursors, placed1[r.key],
            spots1[r.key]);
    NewInOrderStep(regions, n, spots, spots1[r.key]);
    if seen { OldNewStep(spots0, regions, n, spots, spots1[r.key]); }
  }

  lemma PassInputAt(regions: seq<Region>, placed0: map<RegionKey, Allocation>, spots0: Spots, cursors: CursorMap,
                    ctx: Context, n: nat)
    requires n < |regions| && PassInput(regions, placed0, spots0, cursors, ctx)
    ensures regions[n].place in ctx.places && regions[n].key !in placed0 && regions[n].key !in spots0
    ensures forall i | 0 <= i < n :: regions[i].key != regions[n].key
    ensures Consistent(ctx.places)
    ensures Resolves(regions[n].place) ==> PlaceKey(regions[n].place) in cursors
  {
  }

  lemma EmptyHonoured(r: Region, placed: map<RegionKey, Allocation>, spots: Spots, cursors: CursorMap,
                      reservations: Reservations)
    requires r.size == 0 && (Resolves(r.place) ==> PlaceKey(r.place) <= EmptyStart(r.place, cursors))
    ensures RegionHonoured(r, placed[r.key := EmptyAllocation(r.place, r.execute, cursors)],
                           spots[r.key := AfterEmpty(r, cursors)], reservations)
    ensures RegionCovered(r, spots[r.key := AfterEmpty(r, cursors)], cursors)
    ensures AfterEmpty(r, cursors).size == 0
  {
    ResolveAgreesOnSuccess(r.place);
  }

  /** Adding one key leaves what was said of the others. */
  lemma Extends(regions: seq<Region>, n: nat, placed0: map<RegionKey, Allocation>, spots0: Spots,
                placed: map<RegionKey, Allocation>, spots: Spots, reservations: Reservations,
                before: CursorMap, after: CursorMap, alloc: Allocation, s: Spot)
    requires n < |regions| && OldKept(placed0, spots0, placed, spots)
    requires regions[n].key !in placed0 && regions[n].key !in spots0
    requires forall i | 0 <= i < n :: regions[i].key != regions[n].key
    requires forall i | 0 <= i < n ::
             RegionHonoured(regions[i], placed, spots, reservations) && RegionCovered(regions[i], spots, before)
    requires forall pk | pk in before :: pk in after && before[pk].cursor <= after[pk].cursor
    ensures OldKept(placed0, spots0, placed[regions[n].key := alloc], spots[regions[n].key := s])
    ensures forall i | 0 <= i < n ::
              && RegionHonoured(regions[i], placed[regions[n].key := alloc], spots[regions[n].key := s], reservations)
              && RegionCovered(regions[i], spots[regions[n].key := s], after)
  {
    hide AlignedTo, IsPow2, Resolves, PlaceKey;
    forall i | 0 <= i < n
      ensures RegionHonoured(regions[i], placed[regions[n].key := alloc], spots[regions[n].key := s], reservations)
      ensures RegionCovered(regions[i], spots[regions[n].key := s], after)
    {
      assert RegionHonoured(regions[i], placed, spots, reservations) && RegionCovered(regions[i], spots, before);
    }
  }

  lemma NewInOrderStep(regions: seq<Region>, n: nat, spots: Spots, s: Spot)
    requires n < |regions| && NewInOrder(regions, n, spots)
    requires forall i | 0 <= i < n :: regions[i].key != regions[n].key && Below(spots[regions[i].key], s)
    ensures NewInOrder(regions, n + 1, spots[regions[n].key := s])
  {
    hide Below;
  }

  lemma OldNewStep(spots0: Spots, regions: seq<Region>, n: nat, spots: Spots, s: Spot)
    requires n < |regions| && OldNewApart(spots0, regions, n, spots)
    requires forall i | 0 <= i < n :: regions[i].key != regions[n].key
    requires forall k | k in spots0 :: Apart(spots0[k], s)
    ensures OldNewApart(spots0, regions, n + 1, spots[regions[n].key := s])
  {
    hide Apart;
  }

  lemma PlacedStep(regions: seq<Region>, n: nat, placed0: map<RegionKey, Allocation>, spots0: Spots,
                   placed: map<RegionKey, Allocation>, spots: Spots, cursors: CursorMap, ctx: Context, seen: bool,
                   a: Placement)
    requires n < |regions| && PassInput(regions, placed0, spots0, cursors, ctx)
    requires PassDone(regions, n, placed0, spots0, placed, spots, cursors, ctx, seen)
    requires regions[n].size > 0 && a.Placed?
    requires a == TryAllocate(regions[n].place, regions[n].size, regions[n].align, regions[n].execute, cursors,
                              ctx.reservations)
    ensures PlaceKey(regions[n].place) in a.cursors && a.cursors[PlaceKey(regions[n].place)].cursor >= regions[n].size
    ensures PassDone(regions, n + 1, placed0, spots0, placed[regions[n].key := a.alloc],
                     spots[regions[n].key := SpotOf(regions[n].place, regions[n].execute, regions[n].size,
                                                    a)], a.cursors, ctx, seen)
    ensures PassInput(regions, placed0, spots0, a.cursors, ctx)
  {
    hide Consistent, AlignedTo, IsPow2, CursorsMatch, RegionHonoured, RegionCovered, Resolves, PlaceKey, OldKept, Apart,
         Below, PassInput, TryAllocate, OldNewApart, OldCovered, SpotOf;
    var r := regions[n];
    PassInputAt(regions, placed0, spots0, cursors, ctx, n);
    PlacementFacts(r, cursors, ctx, a);
    var s := SpotOf(r.place, r.execute, r.size, a);
    PlacedHonoured(r, placed, spots, a, ctx.reservations);
    Extends(regions, n, placed0, spots0, placed, spots, ctx.reservations, cursors, a.cursors, a.alloc, s);
    forall i | 0 <= i < n ensures Below(spots[regions[i].key], s) {
      PastCovered(regions[i], spots, cursors, s, ctx.reservations, placed);
    }
    NewInOrderStep(regions, n, spots, s);
    if seen {
      OldPast(spots0, cursors, a.cursors, s);
      OldNewStep(spots0, regions, n, spots, s);
    }
    PassInputKeeps(regions, placed0, spots0, cursors, a.cursors, ctx);
  }

  lemma PlacementFacts(r: Region, cursors: CursorMap, ctx: Context, a: Placement)
    requires r.place in ctx.places && Consistent(ctx.places) && CursorsMatch(cursors, ctx.places, ctx.reservations)
    requires Resolves(r.place) ==> PlaceKey(r.place) in cursors
    requires a == TryAllocate(r.place, r.size, r.align, r.execute, cursors, ctx.reservations) && a.Placed?
    ensures PlaceKey(r.place) in a.cursors && a.cursors[PlaceKey(r.place)].cursor >= r.size
    ensures CursorsMatch(a.cursors, ctx.places, ctx.reservations)
    ensures a.cursors.Keys == cursors.Keys
    ensures forall pk | pk in cursors :: pk in a.cursors && cursors[pk].cursor <= a.cursors[pk].cursor
    ensures var s := SpotOf(r.place, r.execute, r.size, a);
            && s == Spot(r.place, r.execute, a.cursors[PlaceKey(r.place)].cursor - r.size, r.size)
            && s.Inside(ctx.reservations) && a.alloc == s.Alloc()
            && s.Key() in cursors && cursors[s.Key()].cursor <= s.start
            && a.cursors[s.Key()].cursor == s.start + r.size
            && (IsPow2(r.align) ==> AlignedTo(s, r.align))
  {
    PlacementStep(r.place, r.size, r.align, r.execute, cursors, ctx.reservations, ctx.places);
    PlacedAligned(r.place, r.size, r.align, r.execute, cursors, ctx.reservations);
    hide Consistent, AlignedTo, IsPow2, CursorsMatch, PlaceKey;
    assert a.cursors.Keys == cursors.Keys + {PlaceKey(r.place)};
  }

  lemma PlacedHonoured(r: Region, placed: map<RegionKey, Allocation>, spots: Spots, a: Placement,
                       reservations: Reservations)
    requires a.Placed? && PlaceKey(r.place) in a.cursors && a.cursors[PlaceKey(r.place)].cursor >= r.size
    requires var s := SpotOf(r.place, r.execute, r.size, a);
             && s.Inside(reservations) && a.alloc == s.Alloc() && (IsPow2(r.align) ==> AlignedTo(s, r.align))
    ensures RegionHonoured(r, placed[r.key := a.alloc], spots[r.key := SpotOf(r.place, r.execute, r.size, a)],
                           reservations)
    ensures RegionCovered(r, spots[r.key := SpotOf(r.place, r.execute, r.size, a)], a.cursors)
  {
    hide AlignedTo, IsPow2;
  }

  lemma PastCovered(r: Region, spots: Spots, cursors: CursorMap, s: Spot, reservations: Reservations,
                    placed: map<RegionKey, Allocation>)
    requires RegionCovered(r, spots, cursors) && RegionHonoured(r, placed, spots, reservations)
    requires s.Key() in cursors && cursors[s.Key()].cursor <= s.start
    ensures Below(spots[r.key], s)
  {
    hide AlignedTo, IsPow2, PlaceKey, Resolves;
  }

  lemma OldPast(spots0: Spots, cursors: CursorMap, after: CursorMap, s: Spot)
    requires OldCovered(spots0, cursors) && s.Key() in cursors && cursors[s.Key()].cursor <= s.start
    requires after.Keys == cursors.Keys && forall pk | pk in cursors :: cursors[pk].cursor <= after[pk].cursor
    ensures forall k | k in spots0 :: Apart(spots0[k], s)
    ensures OldCovered(spots0, after)
  {
    hide PlaceKey;
  }

  lemma PassInputKeeps(regions: seq<Region>, placed0: map<RegionKey, Allocation>, spots0: Spots, before: CursorMap,
                       after: CursorMap, ctx: Context)
    requires PassInput(regions, placed0, spots0, before, ctx) && after.Keys == before.Keys
    ensures PassInput(regions, placed0, spots0, after, ctx)
  {
    hide PlaceKey, Resolves, Consistent;
  }

  // --- The layout object -------------------------------------------------------------

  /** Deferred regions wait in mapped places and have not been placed yet. */
  ghost predicate DeferredKnown(deferred: Deferred, placed: map<RegionKey, Allocation>, ctx: Context) {
    forall k | k in deferred ::
      k !in placed && k !in ctx.groupOf && Mapped(deferred[k]) && deferred[k].place.value in ctx.places
  }

  /** Every executable request resolves to the address data would resolve to. */
  ghost predicate DeferredCanonical(deferred: Deferred) {
    forall k | k in deferred && Mapped(deferred[k]) ::
        TargetBase(deferred[k].place.value, deferred[k].execute) == PlaceKey(deferred[k].place.value)
  }

  datatype Pass = Tasks | Kernel | Bootloader

  function InPass(pass: Pass): RegionKey -> bool {
    match pass
    case Tasks => (k: RegionKey) => k.0 != "kernel" && k.0 != "bootloader"
    case Kernel => (k: RegionKey) => k.0 == "kernel"
    case Bootloader => (k: RegionKey) => k.0 == "bootloader"
  }

  function PassFor(k: RegionKey): Pass {
    if k.0 == "kernel" then Kernel else if k.0 == "bootloader" then Bootloader else Tasks
  }

  lemma PassForIs(k: RegionKey, pass: Pass)
    ensures InPass(pass)(k) <==> PassFor(k) == pass
  {
  }

  lemma DataIsCanonical(place: Place)
    ensures TargetBase(place, false) == PlaceKey(place)
  {
  }

  /** What one pass does to the layout. */
  ghost predicate PassEffect(pass: Pass, measured: Measured, reservations: Reservations,
                             placed0: map<RegionKey, Allocation>, spots0: Spots, deferred0: Deferred,
                             placed: map<RegionKey, Allocation>, spots: Spots, deferred: Deferred) {
    && OldKept(placed0, spots0, placed, spots)
    && (forall k :: k in placed <==> k in placed0 || Wanted(k, deferred0, InPass(pass)))
    && (forall k | Wanted(k, deferred0, InPass(pass)) ::
          RegionHonoured(RegionFor(k, deferred0[k], measured), placed, spots, reservations))
    && (forall k, l | Wanted(k, deferred0, InPass(pass)) && Wanted(l, deferred0, InPass(pass))
        && k in spots && l in spots ::
          && (k != l ==> Apart(spots[k], spots[l]))
          && (spots[k].size > spots[l].size ==> Below(spots[k], spots[l])))
    && (forall k :: k in deferred <==> k in deferred0 && !InPass(pass)(k))
    && (forall k | k in deferred :: deferred[k] == deferred0[k])
  }

  /** The pass's regions, in packing order, are the wanted keys, each once. */
  ghost predicate PassRegions(sorted: seq<Region>, deferred: Deferred, measured: Measured, pass: Pass) {
    && (forall i, j | 0 <= i < j < |sorted| :: sorted[i].key != sorted[j].key)
    && (forall i | 0 <= i < |sorted| ::
          Wanted(sorted[i].key, deferred, InPass(pass))
              && sorted[i] == RegionFor(sorted[i].key, deferred[sorted[i].key], measured))
    && (forall k | Wanted(k, deferred, InPass(pass)) :: exists i :: 0 <= i < |sorted| && sorted[i].key == k)
    && StableSort.Sorted(sorted, BiggestFirst)
  }

  lemma {:induction false} SortRegions(regions: seq<Region>, sorted: seq<Region>, deferred: Deferred,
                                       measured: Measured, pass: Pass)
    requires Collected(regions, deferred.Keys, deferred, measured, InPass(pass))
    requires sorted == StableSort.Sort(regions, BiggestFirst)
    ensures PassRegions(sorted, deferred, measured, pass)
  {
    hide RegionFor, IsCpuMapped, PlaceKey, InPass, StableSort.Sort, BiggestFirst, StableSort.Sorted;
    StableSort.SortMembers(regions, BiggestFirst);
    SortedDistinct(regions, sorted);
    StableSort.SortSorts(regions, BiggestFirst) by { BiggestFirstTotal(); }
    forall i | 0 <= i < |sorted|
      ensures Wanted(sorted[i].key, deferred, InPass(pass))
              && sorted[i] == RegionFor(sorted[i].key, deferred[sorted[i].key], measured)
    {
      assert sorted[i] in sorted && sorted[i] in regions;
    }
    forall k | Wanted(k, deferred, InPass(pass)) ensures exists i :: 0 <= i < |sorted| && sorted[i].key == k {
      var j :| 0 <= j < |regions| && regions[j].key == k;
      assert regions[j] in sorted;
    }
  }

  lemma {:induction false} SortedDistinct(regions: seq<Region>, sorted: seq<Region>)
    requires sorted == StableSort.Sort(regions, BiggestFirst)
    requires forall i, j | 0 <= i < j < |regions| :: regions[i].key != regions[j].key
    ensures forall i, j | 0 <= i < j < |sorted| :: sorted[i].key != sorted[j].key
  {
    hide BiggestFirst, StableSort.Sort;
    assert forall i, j | 0 <= i < j < |regions| :: regions[i] != regions[j];
    StableSort.SortMembers(regions, BiggestFirst);
    StableSort.SortKeepsDistinct(regions, BiggestFirst);
    forall i, j | 0 <= i < j < |sorted| ensures sorted[i].key != sorted[j].key {
      assert sorted[i] in regions && sorted[j] in regions && sorted[i] != sorted[j];
    }
  }

  lemma BiggestFirstTotal()
    ensures StableSort.TotalPreorder(BiggestFirst)
  {
    hide PlaceKey;
  }

  lemma KnownRegions(sorted: seq<Region>, deferred: Deferred, measured: Measured, pass: Pass,
                     placed: map<RegionKey, Allocation>, ctx: Context)
    requires PassRegions(sorted, deferred, measured, pass) && DeferredKnown(deferred, placed, ctx)
    ensures forall i | 0 <= i < |sorted| ::
            sorted[i].place in ctx.places && sorted[i].key !in placed && sorted[i].key !in ctx.groupOf
  {
    hide IsCpuMapped;
  }

  lemma PassStart(sorted: seq<Region>, deferred: Deferred, measured: Measured, pass: Pass,
                  placed: map<RegionKey, Allocation>, spots: Spots, cursors: CursorMap, ctx: Context, seen: bool)
    requires PassRegions(sorted, deferred, measured, pass) && DeferredKnown(deferred, placed, ctx)
             && WellPlaced(placed, spots, ctx)
    requires Consistent(ctx.places) && CursorsMatch(cursors, ctx.places, ctx.reservations)
    requires forall i | 0 <= i < |sorted| && Resolves(sorted[i].place) :: PlaceKey(sorted[i].place) in cursors
    requires seen ==> OldCovered(spots, cursors)
    ensures PassInput(sorted, placed, spots, cursors, ctx)
    ensures PassDone(sorted, 0, placed, spots, placed, spots, cursors, ctx, seen)
  {
    KnownRegions(sorted, deferred, measured, pass, placed, ctx);
    hide Consistent, CursorsMatch, OldCovered, PlaceKey, Resolves, StableSort.Sorted, RegionFor, Wanted;
  }

  lemma SweptKeys(before: CursorMap, after: CursorMap, placed: map<RegionKey, Allocation>)
    requires AllSwept(before, after, placed, placed.Keys)
    ensures after.Keys == before.Keys
  {
  }

  // --- Capacity of a pass -----------------------------------------------------

  function RegionCost(g: Region, pk: nat): nat {
    if g.size > 0 && PlaceKey(g.place) == pk then g.size + g.align else 0
  }

  function RegionsNeed(sorted: seq<Region>, n: nat, pk: nat): nat
    requires n <= |sorted|
  {
    if n == 0 then 0 else RegionsNeed(sorted, n - 1, pk) + RegionCost(sorted[n - 1], pk)
  }

  lemma {:induction false} RegionsNeedGrows(sorted: seq<Region>, n: nat, m: nat, pk: nat)
    requires n <= m <= |sorted|
    ensures RegionsNeed(sorted, n, pk) <= RegionsNeed(sorted, m, pk)
  {
    hide RegionCost;
    if n < m { RegionsNeedGrows(sorted, n, m - 1, pk); }
  }

  /** Each place has room for the pass behind everything already placed in it. */
  ghost predicate RegionsRoom(sorted: seq<Region>, placed: map<RegionKey, Allocation>, reservations: Reservations) {
    forall i | 0 <= i < |sorted| && sorted[i].size > 0 ::
      var place, need := sorted[i].place, RegionsNeed(sorted, |sorted|, PlaceKey(sorted[i].place));
      && sorted[i].align > 0 && RoomFor(place, need, reservations)
      && forall k | k in placed && Visible(FreshCursor(place, reservations), placed[k]) ::
           placed[k].base + placed[k].size + need <= CursorEnd(PlaceKey(place), place, reservations)
  }

  /** What a caller can check before the pass: all code is measured and everything measured has room. */
  ghost predicate PassRoom(pass: Pass, measured: Measured, reservations: Reservations, deferred: Deferred,
                           placed: map<RegionKey, Allocation>) {
    && (forall k :: !Unmeasured(k, deferred, measured, InPass(pass)))
    && (forall sorted | PassRegions(sorted, deferred, measured, pass) :: RegionsRoom(sorted, placed, reservations))
  }

  ghost predicate PassBound(sorted: seq<Region>, n: nat, swept: CursorMap, cursors: CursorMap)
    requires n <= |sorted|
  {
    cursors.Keys == swept.Keys && forall pk | pk in cursors ::
        cursors[pk].cursor <= swept[pk].cursor + RegionsNeed(sorted, n, pk)
  }

  // --- Where a pass puts its regions -------------------------------------------

  /** Where the cursor of a place stands after the first `n` regions, from where it stood at the start. */
  function Tail(sorted: seq<Region>, n: nat, pk: nat, cursor: nat): nat
    requires n <= |sorted|
  {
    if n == 0 then cursor
    else
      var g, before := sorted[n - 1], Tail(sorted, n - 1, pk, cursor);
      if g.size > 0 && PlaceKey(g.place) == pk && CanAlign(before, g.align) then AlignUp(before, g.align) + g.size
      else before
  }

  /** Where region `i` begins: at the next aligned position, or right at the tail when it is empty. */
  function Landing(sorted: seq<Region>, i: nat, cursor: nat): nat
    requires i < |sorted|
  {
    var g := sorted[i];
    var before := Tail(sorted, i, PlaceKey(g.place), cursor);
    if g.size > 0 && CanAlign(before, g.align) then AlignUp(before, g.align) else before
  }

  /** A region with content finds room to be aligned where it lands. */
  predicate LandsAligned(sorted: seq<Region>, i: nat, cursor: nat)
    requires i < |sorted|
  {
    sorted[i].size > 0 ==> CanAlign(Tail(sorted, i, PlaceKey(sorted[i].place), cursor), sorted[i].align)
  }

  ghost predicate TailCursors(sorted: seq<Region>, n: nat, swept: CursorMap, cursors: CursorMap)
    requires n <= |sorted|
  {
    cursors.Keys == swept.Keys && forall pk | pk in cursors ::
        cursors[pk].cursor == Tail(sorted, n, pk, swept[pk].cursor)
  }

  /** The first `n` regions of the pass lie where the cursors it started with say. */
  ghost predicate Landed(sorted: seq<Region>, n: nat, swept: CursorMap, spots: Spots)
    requires n <= |sorted|
  {
    forall i | 0 <= i < n && Resolves(sorted[i].place) ::
      && sorted[i].key in spots && PlaceKey(sorted[i].place) in swept
      && LandsAligned(sorted, i, swept[PlaceKey(sorted[i].place)].cursor)
      && spots[sorted[i].key].start == Landing(sorted, i, swept[PlaceKey(sorted[i].place)].cursor)
  }

  lemma {:induction false} TailBounded(sorted: seq<Region>, n: nat, pk: nat, cursor: nat)
    requires n <= |sorted|
    ensures cursor <= Tail(sorted, n, pk, cursor) <= cursor + RegionsNeed(sorted, n, pk)
  {
    hide AlignUp, PlaceKey;
    if n > 0 { TailBounded(sorted, n - 1, pk, cursor); }
  }

  lemma {:induction false} TailGrows(sorted: seq<Region>, n: nat, m: nat, pk: nat, cursor: nat)
    requires n <= m <= |sorted|
    ensures Tail(sorted, n, pk, cursor) <= Tail(sorted, m, pk, cursor)
  {
    hide AlignUp, PlaceKey;
    if n < m { TailGrows(sorted, n, m - 1, pk, cursor); }
  }

  lemma TailIsBound(sorted: seq<Region>, n: nat, swept: CursorMap, cursors: CursorMap)
    requires n <= |sorted| && TailCursors(sorted, n, swept, cursors)
    ensures PassBound(sorted, n, swept, cursors)
  {
    hide Tail, RegionsNeed;
    forall pk | pk in cursors ensures cursors[pk].cursor <= swept[pk].cursor + RegionsNeed(sorted, n, pk) {
      TailBounded(sorted, n, pk, swept[pk].cursor);
    }
  }

  lemma TailStart(sorted: seq<Region>, swept: CursorMap, spots: Spots)
    ensures TailCursors(sorted, 0, swept, swept) && Landed(sorted, 0, swept, spots)
  {
  }

  lemma TailPlaced(sorted: seq<Region>, n: nat, swept: CursorMap, cursors: CursorMap, spots: Spots, a: Placement,
                   reservations: Reservations)
    requires n < |sorted| && TailCursors(sorted, n, swept, cursors) && Landed(sorted, n, swept, spots)
    requires sorted[n].size > 0 && a.Placed? && PlaceKey(sorted[n].place) in cursors
    requires a == TryAllocate(sorted[n].place, sorted[n].size, sorted[n].align, sorted[n].execute, cursors,
                              reservations)
    requires forall i | 0 <= i < n :: sorted[i].key != sorted[n].key
    ensures PlaceKey(sorted[n].place) in a.cursors && a.cursors[PlaceKey(sorted[n].place)].cursor >= sorted[n].size
    ensures TailCursors(sorted, n + 1, swept, a.cursors)
    ensures Landed(sorted, n + 1, swept,
                   spots[sorted[n].key := SpotOf(sorted[n].place, sorted[n].execute, sorted[n].size, a)])
  {
    hide PlaceKey, Resolves, AlignUp, Landing, TargetBase;
    var g := sorted[n];
    var pk := PlaceKey(g.place);
    assert a.cursors[pk].cursor == AlignUp(cursors[pk].cursor, g.align) + g.size;
    assert Landing(sorted, n, swept[pk].cursor) ==
        AlignUp(cursors[pk].cursor, g.align) by { LandingIs(sorted, n, swept[pk].cursor); }
    LandedStep(sorted, n, swept, spots, SpotOf(g.place, g.execute, g.size, a));
  }

  lemma {:induction false} LandingIs(sorted: seq<Region>, i: nat, cursor: nat)
    requires i < |sorted|
    ensures var before := Tail(sorted, i, PlaceKey(sorted[i].place), cursor);
            Landing(sorted, i, cursor) ==
            if sorted[i].size > 0 && CanAlign(before, sorted[i].align) then AlignUp(before, sorted[i].align) else before
  {
  }

  lemma LandedStep(sorted: seq<Region>, n: nat, swept: CursorMap, spots: Spots, s: Spot)
    requires n < |sorted| && Landed(sorted, n, swept, spots)
    requires forall i | 0 <= i < n :: sorted[i].key != sorted[n].key
    requires Resolves(sorted[n].place) ==>
               PlaceKey(sorted[n].place) in swept
                   && s.start == Landing(sorted, n, swept[PlaceKey(sorted[n].place)].cursor)
                   && LandsAligned(sorted, n, swept[PlaceKey(sorted[n].place)].cursor)
    ensures Landed(sorted, n + 1, swept, spots[sorted[n].key := s])
  {
    hide PlaceKey, Resolves, Landing, LandsAligned;
  }

  lemma TailEmpty(sorted: seq<Region>, n: nat, swept: CursorMap, cursors: CursorMap, spots: Spots)
    requires n < |sorted| && TailCursors(sorted, n, swept, cursors) && Landed(sorted, n, swept, spots)
             && sorted[n].size == 0
    requires Resolves(sorted[n].place) ==> PlaceKey(sorted[n].place) in cursors
    requires forall i | 0 <= i < n :: sorted[i].key != sorted[n].key
    ensures TailCursors(sorted, n + 1, swept, cursors)
    ensures Landed(sorted, n + 1, swept, spots[sorted[n].key := AfterEmpty(sorted[n], cursors)])
  {
    hide PlaceKey, Resolves, AlignUp, Landing;
    var g := sorted[n];
    if Resolves(g.place) { LandingIs(sorted, n, swept[PlaceKey(g.place)].cursor); }
    LandedStep(sorted, n, swept, spots, AfterEmpty(g, cursors));
  }

  // --- Staying inside ------------------------------------------------------------

  ghost predicate CursorsFit(cursors: CursorMap, places: set<Place>) {
    forall p | p in places && Resolves(p) && PlaceKey(p) in cursors ::
        cursors[PlaceKey(p)].cursor <= cursors[PlaceKey(p)].end
  }

  /** No earlier region carries a rebuilt cursor out of its place. */
  lemma SweptFits(placed: map<RegionKey, Allocation>, spots: Spots, before: CursorMap, after: CursorMap, ctx: Context)
    requires WellPlaced(placed, spots, ctx) && AllCanonical(spots) && Consistent(ctx.places) && Separated(ctx.places)
    requires CursorsMatch(before, ctx.places, ctx.reservations) && AllSwept(before, after, placed, placed.Keys)
    requires forall pk | pk in before :: before[pk].cursor == before[pk].base
    ensures CursorsFit(after, ctx.places)
  {
    hide Resolves, PlaceKey;
    forall p | p in ctx.places && Resolves(p) && PlaceKey(p) in after
        ensures after[PlaceKey(p)].cursor <= after[PlaceKey(p)].end {
      var pk := PlaceKey(p);
      assert Swept(before[pk], after[pk], placed, placed.Keys);
      if after[pk].cursor != before[pk].cursor {
        var k :| k in placed.Keys && ReachedBy(before[pk], after[pk], placed[k]);
        var s := spots[k];
        if s.size > 0 {
          assert s.Canonical() && s.Inside(ctx.reservations) && placed[k] == s.Alloc();
        }
      }
    }
  }

  /** When `fit`, the cursors stay inside their places, and so do the empty regions entered at them. */
  ghost predicate PassFit(regions: seq<Region>, n: nat, spots: Spots, cursors: CursorMap, ctx: Context, fit: bool)
    requires n <= |regions|
  {
    fit ==>
      && CursorsFit(cursors, ctx.places)
      && forall i | 0 <= i < n && Resolves(regions[i].place) ::
           regions[i].key in spots && spots[regions[i].key].Inside(ctx.reservations)
  }

  lemma FitEmpty(regions: seq<Region>, n: nat, spots: Spots, cursors: CursorMap, ctx: Context, fit: bool)
    requires n < |regions| && PassFit(regions, n, spots, cursors, ctx, fit)
    requires regions[n].place in ctx.places && CursorsMatch(cursors, ctx.places, ctx.reservations)
    requires Resolves(regions[n].place) ==> PlaceKey(regions[n].place) in cursors
    requires forall i | 0 <= i < n :: regions[i].key != regions[n].key
    ensures PassFit(regions, n + 1, spots[regions[n].key := AfterEmpty(regions[n], cursors)], cursors, ctx, fit)
  {
    hide PlaceKey, Resolves;
    EmptyStartOk(regions[n].place, cursors, ctx);
  }

  lemma FitPlaced(regions: seq<Region>, n: nat, spots: Spots, cursors: CursorMap, ctx: Context, fit: bool, a: Placement)
    requires n < |regions| && PassFit(regions, n, spots, cursors, ctx, fit)
    requires regions[n].place in ctx.places && Consistent(ctx.places)
             && CursorsMatch(cursors, ctx.places, ctx.reservations)
    requires Resolves(regions[n].place) ==> PlaceKey(regions[n].place) in cursors
    requires a.Placed?
    requires a == TryAllocate(regions[n].place, regions[n].size, regions[n].align, regions[n].execute, cursors,
                              ctx.reservations)
    requires forall i | 0 <= i < n :: regions[i].key != regions[n].key
    ensures PlaceKey(regions[n].place) in a.cursors && a.cursors[PlaceKey(regions[n].place)].cursor >= regions[n].size
    ensures PassFit(regions, n + 1,
                    spots[regions[n].key := SpotOf(regions[n].place, regions[n].execute, regions[n].size, a)],
                    a.cursors, ctx, fit)
  {
    var g := regions[n];
    PlacementFacts(g, cursors, ctx, a);
    hide PlaceKey, Resolves, Consistent, CursorsMatch, AlignedTo, IsPow2, CursorEnd;
    var pk := PlaceKey(g.place);
    assert a.cursors == cursors[pk := cursors[pk].(cursor := a.cursors[pk].cursor)];
  }

  lemma FitMeansInside(sorted: seq<Region>, placed0: map<RegionKey, Allocation>, spots0: Spots,
                       placed: map<RegionKey, Allocation>, spots: Spots, cursors: CursorMap, ctx: Context, seen: bool)
    requires PassDone(sorted, |sorted|, placed0, spots0, placed, spots, cursors, ctx, seen)
    requires PassFit(sorted, |sorted|, spots, cursors, ctx, true)
    requires placed0.Keys == spots0.Keys && AllInside(placed0, spots0, ctx.reservations)
    ensures AllInside(placed, spots, ctx.reservations)
  {
    hide PlaceKey, Resolves, CursorsMatch, OldCovered, RegionCovered, NewInOrder, OldNewApart, AlignedTo, IsPow2,
         CursorsFit;
    forall k | k in spots && Resolves(spots[k].place)
      ensures k in placed && spots[k].Inside(ctx.reservations) && placed[k] == spots[k].Alloc()
    {
      if k !in spots0 {
        var i :| 0 <= i < |sorted| && sorted[i].key == k;
        assert RegionHonoured(sorted[i], placed, spots, ctx.reservations);
      }
    }
  }

  lemma PassFits(sorted: seq<Region>, n: nat, placed0: map<RegionKey, Allocation>, spots0: Spots, seeds: CursorMap,
                 swept: CursorMap, cursors: CursorMap, ctx: Context)
    requires n < |sorted| && sorted[n].size > 0 && RegionsRoom(sorted, placed0, ctx.reservations)
    requires PassInput(sorted, placed0, spots0, cursors, ctx) && PassBound(sorted, n, swept, cursors)
    requires CursorsMatch(cursors, ctx.places, ctx.reservations) && CursorsMatch(seeds, ctx.places, ctx.reservations)
    requires AllSwept(seeds, swept, placed0, placed0.Keys) && forall pk | pk in seeds ::
             seeds[pk].cursor == seeds[pk].base
    ensures TryAllocate(sorted[n].place, sorted[n].size, sorted[n].align, sorted[n].execute, cursors,
                        ctx.reservations).Placed?
  {
    hide PlaceKey, Resolves, TryAllocate, Consistent, CursorEnd, RegionsNeed;
    var g := sorted[n];
    var pk := PlaceKey(g.place);
    var need := RegionsNeed(sorted, |sorted|, pk);
    RegionsNeedGrows(sorted, n + 1, |sorted|, pk);
    NeedStep(sorted, n);
    assert Swept(seeds[pk], swept[pk], placed0, placed0.Keys);
    assert seeds[pk] == FreshCursor(g.place, ctx.reservations);
    var used := swept[pk].cursor - pk + RegionsNeed(sorted, n, pk);
    assert swept[pk].cursor + need <= CursorEnd(pk, g.place, ctx.reservations);
    PlacementSucceeds(g.place, g.size, g.align, g.execute, cursors, ctx.reservations, ctx.places, used);
  }

  lemma {:induction false} NeedStep(sorted: seq<Region>, n: nat)
    requires n < |sorted| && sorted[n].size > 0
    ensures var pk := PlaceKey(sorted[n].place);
            RegionsNeed(sorted, n + 1, pk) == RegionsNeed(sorted, n, pk) + sorted[n].size + sorted[n].align
  {
    hide PlaceKey;
  }

  /** The cursors a pass starts with: each place's, moved past what is visible of the layout before it. */
  ghost predicate SweptFor(swept: CursorMap, sorted: seq<Region>, placed: map<RegionKey, Allocation>,
                           reservations: Reservations) {
    forall i | 0 <= i < |sorted| && Resolves(sorted[i].place) ::
      var pk := PlaceKey(sorted[i].place);
      pk in swept && Swept(FreshCursor(sorted[i].place, reservations), swept[pk], placed, placed.Keys)
  }

  lemma SweptForHolds(sorted: seq<Region>, seeds: CursorMap, swept: CursorMap, placed: map<RegionKey, Allocation>,
                      ctx: Context)
    requires AllSwept(seeds, swept, placed, placed.Keys) && CursorsMatch(seeds, ctx.places, ctx.reservations)
    requires forall pk | pk in seeds :: seeds[pk].cursor == seeds[pk].base
    requires forall i | 0 <= i < |sorted| :: sorted[i].place in ctx.places
    requires forall i | 0 <= i < |sorted| && Resolves(sorted[i].place) :: PlaceKey(sorted[i].place) in seeds
    ensures SweptFor(swept, sorted, placed, ctx.reservations)
  {
    hide PlaceKey, Resolves, Swept, CursorEnd;
    forall i | 0 <= i < |sorted| && Resolves(sorted[i].place)
      ensures PlaceKey(sorted[i].place) in swept
      ensures Swept(FreshCursor(sorted[i].place, ctx.reservations), swept[PlaceKey(sorted[i].place)], placed,
                    placed.Keys)
    {
      assert seeds[PlaceKey(sorted[i].place)] == FreshCursor(sorted[i].place, ctx.reservations);
    }
  }

  lemma PassCursors(regions: seq<Region>, n: nat, placed0: map<RegionKey, Allocation>, spots0: Spots,
                    placed: map<RegionKey, Allocation>, spots: Spots, cursors: CursorMap, ctx: Context, seen: bool)
    requires n <= |regions| && PassDone(regions, n, placed0, spots0, placed, spots, cursors, ctx, seen)
    ensures CursorsMatch(cursors, ctx.places, ctx.reservations)
  {
  }

  lemma PlacedNeedsCursor(regions: seq<Region>, n: nat, placed0: map<RegionKey, Allocation>, spots0: Spots,
                          cursors: CursorMap, ctx: Context, a: Placement)
    requires n < |regions| && PassInput(regions, placed0, spots0, cursors, ctx) && a.Placed?
    requires a == TryAllocate(regions[n].place, regions[n].size, regions[n].align, regions[n].execute, cursors,
                              ctx.reservations)
    ensures PlaceKey(regions[n].place) in cursors
  {
  }

  /** Everything that holds after the first `n` regions of a pass. */
  ghost predicate Midway(sorted: seq<Region>, n: nat, placed0: map<RegionKey, Allocation>, spots0: Spots,
                         placed: map<RegionKey, Allocation>, spots: Spots, swept: CursorMap, cursors: CursorMap,
                         ctx: Context, seen: bool, fit: bool)
    requires n <= |sorted|
  {
    && PassInput(sorted, placed0, spots0, cursors, ctx)
    && PassDone(sorted, n, placed0, spots0, placed, spots, cursors, ctx, seen)
    && TailCursors(sorted, n, swept, cursors) && Landed(sorted, n, swept, spots)
    && PassFit(sorted, n, spots, cursors, ctx, fit)
  }

  lemma EmptyMoves(sorted: seq<Region>, n: nat, placed0: map<RegionKey, Allocation>, spots0: Spots,
                   placed: map<RegionKey, Allocation>, spots: Spots, swept: CursorMap, cursors: CursorMap,
                   ctx: Context, seen: bool, fit: bool)
    requires n < |sorted| && sorted[n].size == 0
    requires Midway(sorted, n, placed0, spots0, placed, spots, swept, cursors, ctx, seen, fit)
    ensures var g := sorted[n];
            && (Resolves(g.place) ==> PlaceKey(g.place) <= EmptyStart(g.place, cursors))
            && Midway(sorted, n + 1, placed0, spots0,
                      placed[g.key := EmptyAllocation(g.place, g.execute, cursors)],
                      spots[g.key := AfterEmpty(g, cursors)], swept, cursors, ctx, seen, fit)
  {
    hide PassInput, PassDone, TailCursors, Landed, PassFit, Resolves, PlaceKey, EmptyStart, EmptyAllocation, AfterEmpty,
         CursorsMatch, Consistent;
    PassCursors(sorted, n, placed0, spots0, placed, spots, cursors, ctx, seen);
    PassInputAt(sorted, placed0, spots0, cursors, ctx, n);
    EmptyStep(sorted, n, placed0, spots0, placed, spots, cursors, ctx, seen);
    TailEmpty(sorted, n, swept, cursors, spots);
    FitEmpty(sorted, n, spots, cursors, ctx, fit);
  }

  function PlaceRegion(g: Region, cursors: CursorMap, reservations: Reservations): Placement {
    TryAllocate(g.place, g.size, g.align, g.execute, cursors, reservations)
  }

  lemma PlacedMoves(sorted: seq<Region>, n: nat, placed0: map<RegionKey, Allocation>, spots0: Spots,
                    placed: map<RegionKey, Allocation>, spots: Spots, swept: CursorMap, cursors: CursorMap,
                    ctx: Context, seen: bool, fit: bool, a: Placement)
    requires n < |sorted| && sorted[n].size > 0 && a.Placed?
    requires Midway(sorted, n, placed0, spots0, placed, spots, swept, cursors, ctx, seen, fit)
    requires a == PlaceRegion(sorted[n], cursors, ctx.reservations)
    ensures var g := sorted[n];
            && PlaceKey(g.place) in a.cursors && a.cursors[PlaceKey(g.place)].cursor >= g.size
            && Midway(sorted, n + 1, placed0, spots0, placed[g.key := a.alloc],
                      spots[g.key := SpotOf(g.place, g.execute, g.size, a)], swept, a.cursors, ctx, seen, fit)
  {
    hide PassInput, PassDone, TailCursors, Landed, PassFit, Resolves, PlaceKey, SpotOf, TryAllocate, CursorsMatch,
         Consistent;
    PassCursors(sorted, n, placed0, spots0, placed, spots, cursors, ctx, seen);
    PassInputAt(sorted, placed0, spots0, cursors, ctx, n);
    PlacedStep(sorted, n, placed0, spots0, placed, spots, cursors, ctx, seen, a);
    PlacedNeedsCursor(sorted, n, placed0, spots0, cursors, ctx, a);
    TailPlaced(sorted, n, swept, cursors, spots, a, ctx.reservations);
    FitPlaced(sorted, n, spots, cursors, ctx, fit, a);
  }

  lemma RoomMoves(sorted: seq<Region>, n: nat, placed0: map<RegionKey, Allocation>, spots0: Spots,
                  placed: map<RegionKey, Allocation>, spots: Spots, seeds: CursorMap, swept: CursorMap,
                  cursors: CursorMap, ctx: Context, seen: bool, fit: bool)
    requires n < |sorted| && sorted[n].size > 0 && RegionsRoom(sorted, placed0, ctx.reservations)
    requires Midway(sorted, n, placed0, spots0, placed, spots, swept, cursors, ctx, seen, fit)
    requires CursorsMatch(seeds, ctx.places, ctx.reservations) && AllSwept(seeds, swept, placed0, placed0.Keys)
    requires forall pk | pk in seeds :: seeds[pk].cursor == seeds[pk].base
    ensures PlaceRegion(sorted[n], cursors, ctx.reservations).Placed?
  {
    hide PassInput, PassDone, TailCursors, Landed, PassFit, TryAllocate, CursorsMatch, RegionsRoom, AllSwept, PassBound;
    PassCursors(sorted, n, placed0, spots0, placed, spots, cursors, ctx, seen);
    TailIsBound(sorted, n, swept, cursors);
    PassFits(sorted, n, placed0, spots0, seeds, swept, cursors, ctx);
  }

  lemma Begins(pass: Pass, measured: Measured, sorted: seq<Region>, placed: map<RegionKey, Allocation>, spots: Spots,
               deferred: Deferred, seeds: CursorMap, swept: CursorMap, ctx: Context, seen: bool, fit: bool)
    requires PassRegions(sorted, deferred, measured, pass) && DeferredKnown(deferred, placed, ctx)
    requires WellPlaced(placed, spots, ctx) && Consistent(ctx.places)
    requires CursorsMatch(seeds, ctx.places, ctx.reservations) && AllSwept(seeds, swept, placed, placed.Keys)
    requires forall i | 0 <= i < |sorted| && Resolves(sorted[i].place) :: PlaceKey(sorted[i].place) in seeds
    requires forall pk | pk in seeds :: seeds[pk].cursor == seeds[pk].base
    requires (seen ==> AllCanonical(spots)) && (fit ==> seen && Separated(ctx.places))
    ensures Midway(sorted, 0, placed, spots, placed, spots, swept, swept, ctx, seen, fit)
    ensures SweptFor(swept, sorted, placed, ctx.reservations)
  {
    hide WellPlaced, DeferredKnown, PassDone, PassInput, Consistent, PassRegions, AllSwept, CursorsMatch, OldCovered,
         AllCanonical, PlaceKey, Resolves, TailCursors, Landed, SweptFor, PassFit, Separated;
    KnownRegions(sorted, deferred, measured, pass, placed, ctx);
    AdvanceMatches(placed, seeds, swept, ctx.places, ctx.reservations);
    if seen { AdvanceCovers(placed, spots, seeds, swept, ctx); }
    FitStart(sorted, placed, spots, seeds, swept, ctx, fit);
    SweptKeys(seeds, swept, placed);
    TailStart(sorted, swept, spots);
    SweptForHolds(sorted, seeds, swept, placed, ctx);
    PassStart(sorted, deferred, measured, pass, placed, spots, swept, ctx, seen);
  }

  lemma AllMeasured(pass: Pass, measured: Measured, reservations: Reservations, deferred: Deferred,
                    placed: map<RegionKey, Allocation>)
    requires PassRoom(pass, measured, reservations, deferred, placed)
    ensures forall k :: !Unmeasured(k, deferred, measured, InPass(pass))
  {
    hide RegionsRoom, PassRegions, Unmeasured;
  }

  lemma HasRoom(pass: Pass, measured: Measured, reservations: Reservations, deferred: Deferred,
                placed: map<RegionKey, Allocation>, sorted: seq<Region>)
    requires PassRoom(pass, measured, reservations, deferred, placed)
    requires PassRegions(sorted, deferred, measured, pass)
    ensures RegionsRoom(sorted, placed, reservations)
  {
    hide RegionsRoom, PassRegions, Unmeasured;
  }

  /** What holds when all regions of the pass are placed. */
  lemma Concludes(pass: Pass, measured: Measured, sorted: seq<Region>, placed0: map<RegionKey, Allocation>,
                  spots0: Spots, deferred0: Deferred, placed: map<RegionKey, Allocation>, spots: Spots,
                  deferred: Deferred, swept: CursorMap, cursors: CursorMap, ctx: Context, seen: bool, fit: bool)
    requires PassRegions(sorted, deferred0, measured, pass)
    requires Midway(sorted, |sorted|, placed0, spots0, placed, spots, swept, cursors, ctx, seen, fit)
    requires deferred == map k | k in deferred0 && !InPass(pass)(k) :: deferred0[k]
    requires WellPlaced(placed0, spots0, ctx) && DeferredKnown(deferred0, placed0, ctx)
    requires seen ==> AllCanonical(spots0)
    ensures PassEffect(pass, measured, ctx.reservations, placed0, spots0, deferred0, placed, spots, deferred)
    ensures Landed(sorted, |sorted|, swept, spots)
    ensures WellPlaced(placed, spots, ctx) && DeferredKnown(deferred, placed, ctx)
    ensures seen && PairwiseApart(spots0, ctx.groupOf) ==> PairwiseApart(spots, ctx.groupOf)
    ensures seen && DeferredCanonical(deferred0) ==> AllCanonical(spots) && DeferredCanonical(deferred)
    ensures fit && AllInside(placed0, spots0, ctx.reservations) ==> AllInside(placed, spots, ctx.reservations)
  {
    hide WellPlaced, PairwiseApart, DeferredKnown, PassDone, PassInput, PassRegions, PassEffect, AllCanonical,
         DeferredCanonical, InPass, TailCursors, Landed, PassFit, AllInside;
    PassEffectHolds(pass, measured, sorted, placed0, spots0, deferred0, placed, spots, deferred, cursors, ctx, seen);
    if fit && AllInside(placed0, spots0, ctx.reservations) {
      OldKeysSame(placed0, spots0, ctx);
      FitMeansInside(sorted, placed0, spots0, placed, spots, cursors, ctx, seen);
    }
    StaysValid(pass, measured, sorted, placed0, spots0, deferred0, placed, spots, deferred, cursors, ctx, seen);
  }

  class Layout {
    var placed: map<RegionKey, Allocation>
    var deferred: Deferred
    var aclOnly: seq<RegionKey>
    ghost var spots: Spots

    constructor (solution: Solution, ghost spots: Spots)
      ensures placed == solution.placed && deferred == solution.deferred && aclOnly == solution.aclOnly
      ensures this.spots == spots
    {
      placed, deferred, aclOnly := solution.placed, solution.deferred, solution.aclOnly;
      this.spots := spots;
    }

    ghost predicate Valid(ctx: Context)
      reads this
    {
      && WellPlaced(placed, spots, ctx)
      && DeferredKnown(deferred, placed, ctx)
    }

    /**
     Resolves the deferred regions of one owner class. Regions of the pass never overlap each
     other; the whole layout stays free of overlaps when all earlier regions are visible to
     the rebuilt cursors.
     */
    method Resolve(pass: Pass, measured: Measured, reservations: Reservations, ghost ctx: Context)
      returns (r: Result<(), LayoutError>, ghost order: seq<Region>, ghost swept: CursorMap)
      requires Valid(ctx) && ctx.reservations == reservations && Consistent(ctx.places)
      modifies this
      ensures aclOnly == old(aclOnly)
      ensures r.Success? ==>
                PassEffect(pass, measured, reservations, old(placed), old(spots), old(deferred), placed, spots,
                           deferred)
      ensures old(PassRoom(pass, measured, reservations, deferred, placed)) ==> r.Success?
      ensures r.Failure? && r.error != Panicked ==>
                || (r.error.OutOfSpace? && Wanted(r.error.key, old(deferred), InPass(pass)))
                || (r.error.DeferredNotMeasured? && Unmeasured(r.error.key, old(deferred), measured, InPass(pass)))
      ensures r.Success? ==> Valid(ctx)
      ensures r.Success? && old(AllCanonical(spots)) && old(PairwiseApart(spots, ctx.groupOf)) ==>
                PairwiseApart(spots, ctx.groupOf)
      ensures r.Success? && old(AllCanonical(spots)) && old(DeferredCanonical(deferred)) ==>
                AllCanonical(spots) && DeferredCanonical(deferred)
      ensures r.Success? ==>
                && PassRegions(order, old(deferred), measured, pass)
                && SweptFor(swept, order, old(placed), reservations) && Landed(order, |order|, swept, spots)
      ensures r.Success? && old(AllCanonical(spots)) && Separated(ctx.places)
              && old(AllInside(placed, spots, reservations)) ==>
                AllInside(placed, spots, reservations)
    {
      hide WellPlaced, PairwiseApart, DeferredKnown, PassDone, PassInput, TryAllocate, Consistent, PassRegions,
           PassEffect, AllSwept, CursorsMatch, OldCovered, AllCanonical, DeferredCanonical, Collected, PlaceKey, InPass,
           BiggestFirst, StableSort.Sort, EmptyStart, EmptyAllocation, Resolves, SpotOf, AfterEmpty, RegionsRoom,
           PassBound, TailCursors, Landed, SweptFor, PassFit, Separated, AllInside, Wanted, Unmeasured,
           PassRoom, Midway, PlaceRegion;
      order, swept := [], map[];
      ghost var room := PassRoom(pass, measured, reservations, deferred, placed);
      var collected := CollectRegions(deferred, measured, InPass(pass));
      if collected.Failure? {
        if room { AllMeasured(pass, measured, reservations, deferred, placed); }
        return Failure(collected.error), order, swept;
      }
      var regions := collected.value;
      var sorted := StableSort.Sort(regions, BiggestFirst);
      SortRegions(regions, sorted, deferred, measured, pass);
      KnownRegions(sorted, deferred, measured, pass, placed, ctx);
      var cursors := SeedCursors(sorted, reservations, ctx.places);
      var advanced := AdvanceCursorsPast(placed, cursors);
      ghost var seen := AllCanonical(spots);
      ghost var fit := seen && Separated(ctx.places);
      ghost var seeds := cursors;
      Begins(pass, measured, sorted, placed, spots, deferred, seeds, advanced, ctx, seen, fit);
      if room { HasRoom(pass, measured, reservations, deferred, placed, sorted); }
      cursors := advanced;
      ghost var placed0, spots0 := placed, spots;
      for n := 0 to |sorted|
        invariant aclOnly == old(aclOnly) && deferred == old(deferred)
        invariant Midway(sorted, n, placed0, spots0, placed, spots, advanced, cursors, ctx, seen, fit)
      {
        var g := sorted[n];
        if g.size == 0 {
          EmptyMoves(sorted, n, placed0, spots0, placed, spots, advanced, cursors, ctx, seen, fit);
          placed := placed[g.key := EmptyAllocation(g.place, g.execute, cursors)];
          spots := spots[g.key := AfterEmpty(g, cursors)];
        } else {
          var a := PlaceRegion(g, cursors, reservations);
          if room { RoomMoves(sorted, n, placed0, spots0, placed, spots, seeds, advanced, cursors, ctx, seen, fit); }
          if a.DoesNotFit? {
            RegionWanted(sorted, deferred, measured, pass, n);
            return Failure(OutOfSpace(g.key)), order, swept;
          }
          if a.Overflows? { return Failure(Panicked), order, swept; }
          PlacedMoves(sorted, n, placed0, spots0, placed, spots, advanced, cursors, ctx, seen, fit, a);
          placed := placed[g.key := a.alloc];
          spots := spots[g.key := SpotOf(g.place, g.execute, g.size, a)];
          cursors := a.cursors;
        }
      }
      deferred := map k | k in deferred && !InPass(pass)(k) :: deferred[k];
      order, swept := sorted, advanced;
      Concludes(pass, measured, sorted, placed0, spots0, old(deferred), placed, spots, deferred, advanced, cursors, ctx,
                seen, fit);
      r := Success(());
    }
  }

  lemma RegionWanted(sorted: seq<Region>, deferred: Deferred, measured: Measured, pass: Pass, n: nat)
    requires PassRegions(sorted, deferred, measured, pass) && n < |sorted|
    ensures Wanted(sorted[n].key, deferred, InPass(pass))
  {
    hide InPass, RegionFor, StableSort.Sorted;
  }

  lemma FitStart(sorted: seq<Region>, placed: map<RegionKey, Allocation>, spots: Spots, before: CursorMap,
                 after: CursorMap, ctx: Context, fit: bool)
    requires fit ==> WellPlaced(placed, spots, ctx) && AllCanonical(spots)
    requires fit ==> Consistent(ctx.places) && Separated(ctx.places)
    requires CursorsMatch(before, ctx.places, ctx.reservations) && AllSwept(before, after, placed, placed.Keys)
    requires forall pk | pk in before :: before[pk].cursor == before[pk].base
    ensures PassFit(sorted, 0, spots, after, ctx, fit)
  {
    hide WellPlaced, AllCanonical, Consistent, Separated, CursorsMatch, AllSwept, CursorsFit;
    if fit { SweptFits(placed, spots, before, after, ctx); }
  }

  lemma OldKeysSame(placed: map<RegionKey, Allocation>, spots: Spots, ctx: Context)
    requires WellPlaced(placed, spots, ctx)
    ensures placed.Keys == spots.Keys
  {
  }

  lemma PassEffectHolds(pass: Pass, measured: Measured, sorted: seq<Region>, placed0: map<RegionKey, Allocation>,
                        spots0: Spots, deferred0: Deferred, placed: map<RegionKey, Allocation>, spots: Spots,
                        deferred: Deferred, cursors: CursorMap, ctx: Context, seen: bool)
    requires PassRegions(sorted, deferred0, measured, pass)
    requires PassDone(sorted, |sorted|, placed0, spots0, placed, spots, cursors, ctx, seen)
    requires deferred == map k | k in deferred0 && !InPass(pass)(k) :: deferred0[k]
    ensures PassEffect(pass, measured, ctx.reservations, placed0, spots0, deferred0, placed, spots, deferred)
  {
    hide RegionFor, IsCpuMapped, RegionHonoured, OldKept, PassDone, PassRegions, Apart, Below, InPass;
    PassKeys(pass, measured, sorted, placed0, spots0, deferred0, placed, spots, cursors, ctx, seen);
    PassPairs(pass, measured, sorted, placed0, spots0, deferred0, placed, spots, cursors, ctx, seen);
  }

  lemma PassKeys(pass: Pass, measured: Measured, sorted: seq<Region>, placed0: map<RegionKey, Allocation>,
                 spots0: Spots, deferred0: Deferred, placed: map<RegionKey, Allocation>, spots: Spots,
                 cursors: CursorMap, ctx: Context, seen: bool)
    requires PassRegions(sorted, deferred0, measured, pass)
    requires PassDone(sorted, |sorted|, placed0, spots0, placed, spots, cursors, ctx, seen)
    ensures OldKept(placed0, spots0, placed, spots)
    ensures forall k :: k in placed <==> k in placed0 || Wanted(k, deferred0, InPass(pass))
    ensures forall k | Wanted(k, deferred0, InPass(pass)) ::
              RegionHonoured(RegionFor(k, deferred0[k], measured), placed, spots, ctx.reservations)
  {
    hide RegionFor, IsCpuMapped, PlaceKey, RegionHonoured, RegionCovered, OldKept, CursorsMatch, OldCovered,
         OldNewApart, Apart, Below, InPass, BiggestFirst, StableSort.Sorted;
    OldKeys(placed0, spots0, placed, spots);
    forall k | Wanted(k, deferred0, InPass(pass))
      ensures k in placed && RegionHonoured(RegionFor(k, deferred0[k], measured), placed, spots, ctx.reservations)
    {
      var i :| 0 <= i < |sorted| && sorted[i].key == k;
      assert sorted[i].key in spots;
    }
  }

  lemma PassPairs(pass: Pass, measured: Measured, sorted: seq<Region>, placed0: map<RegionKey, Allocation>,
                  spots0: Spots, deferred0: Deferred, placed: map<RegionKey, Allocation>, spots: Spots,
                  cursors: CursorMap, ctx: Context, seen: bool)
    requires PassRegions(sorted, deferred0, measured, pass)
    requires PassDone(sorted, |sorted|, placed0, spots0, placed, spots, cursors, ctx, seen)
    ensures forall k, l | Wanted(k, deferred0, InPass(pass)) && Wanted(l, deferred0, InPass(pass)) && k != l
            && k in spots && l in spots ::
              Apart(spots[k], spots[l]) && (spots[k].size > spots[l].size ==> Below(spots[k], spots[l]))
  {
    hide RegionFor, IsCpuMapped, PlaceKey, RegionHonoured, RegionCovered, OldKept, CursorsMatch, OldCovered,
         OldNewApart, Apart, Below, InPass, BiggestFirst, StableSort.Sorted;
    forall k, l | Wanted(k, deferred0, InPass(pass)) && Wanted(l, deferred0, InPass(pass)) && k != l && k in spots
        && l in spots
      ensures Apart(spots[k], spots[l]) && (spots[k].size > spots[l].size ==> Below(spots[k], spots[l]))
    {
      var i :| 0 <= i < |sorted| && sorted[i].key == k;
      var j :| 0 <= j < |sorted| && sorted[j].key == l;
      OrderedPair(sorted, i, j, spots, placed, ctx.reservations);
    }
  }

  lemma OldKeys(placed0: map<RegionKey, Allocation>, spots0: Spots, placed: map<RegionKey, Allocation>, spots: Spots)
    requires OldKept(placed0, spots0, placed, spots)
    ensures forall k | k in placed0 :: k in placed
    ensures forall k | k in spots0 :: k in spots
  {
  }

  lemma OrderedPair(sorted: seq<Region>, i: nat, j: nat, spots: Spots, placed: map<RegionKey, Allocation>,
                    reservations: Reservations)
    requires i < |sorted| && j < |sorted| && i != j
    requires NewInOrder(sorted, |sorted|, spots) && StableSort.Sorted(sorted, BiggestFirst)
    requires RegionHonoured(sorted[i], placed, spots, reservations)
             && RegionHonoured(sorted[j], placed, spots, reservations)
    ensures Apart(spots[sorted[i].key], spots[sorted[j].key])
    ensures spots[sorted[i].key].size > spots[sorted[j].key].size ==> Below(spots[sorted[i].key], spots[sorted[j].key])
  {
    hide PlaceKey, AlignedTo, IsPow2, Resolves;
    if i > j {
      assert Below(spots[sorted[j].key], spots[sorted[i].key]);
      assert BiggestFirst(sorted[j], sorted[i]);
    }
  }

  lemma StaysValid(pass: Pass, measured: Measured, sorted: seq<Region>, placed0: map<RegionKey, Allocation>,
                   spots0: Spots, deferred0: Deferred, placed: map<RegionKey, Allocation>, spots: Spots,
                   deferred: Deferred, cursors: CursorMap, ctx: Context, seen: bool)
    requires PassRegions(sorted, deferred0, measured, pass)
    requires PassDone(sorted, |sorted|, placed0, spots0, placed, spots, cursors, ctx, seen)
    requires deferred == map k | k in deferred0 && !InPass(pass)(k) :: deferred0[k]
    requires WellPlaced(placed0, spots0, ctx) && DeferredKnown(deferred0, placed0, ctx)
    requires seen ==> AllCanonical(spots0)
    ensures WellPlaced(placed, spots, ctx) && DeferredKnown(deferred, placed, ctx)
    ensures seen && PairwiseApart(spots0, ctx.groupOf) ==> PairwiseApart(spots, ctx.groupOf)
    ensures seen && DeferredCanonical(deferred0) ==> AllCanonical(spots) && DeferredCanonical(deferred)
  {
    hide WellPlaced, PairwiseApart, DeferredKnown, PassDone, PassRegions, AllCanonical, DeferredCanonical, InPass;
    KnownRegions(sorted, deferred0, measured, pass, placed0, ctx);
    OldKeysSame(placed0, spots0, ctx);
    StaysWellPlaced(sorted, placed0, spots0, placed, spots, cursors, ctx, seen);
    StaysKnown(pass, measured, sorted, placed0, deferred0, placed, deferred, ctx, spots0, spots, cursors, seen);
    if seen && PairwiseApart(spots0, ctx.groupOf) {
      StaysApart(sorted, placed0, spots0, placed, spots, cursors, ctx);
    }
    if seen && DeferredCanonical(deferred0) {
      StaysCanonical(pass, measured, sorted, placed0, spots0, deferred0, placed, spots, deferred, cursors, ctx);
    }
  }

  lemma StaysWellPlaced(sorted: seq<Region>, placed0: map<RegionKey, Allocation>, spots0: Spots,
                        placed: map<RegionKey, Allocation>, spots: Spots, cursors: CursorMap, ctx: Context, seen: bool)
    requires PassDone(sorted, |sorted|, placed0, spots0, placed, spots, cursors, ctx, seen)
    requires WellPlaced(placed0, spots0, ctx)
    requires forall i | 0 <= i < |sorted| :: sorted[i].place in ctx.places
    ensures WellPlaced(placed, spots, ctx)
  {
    hide PlaceKey, AlignedTo, IsPow2, Resolves, NewInOrder, CursorsMatch, OldCovered, OldNewApart, RegionCovered;
    forall k | k in spots
      ensures placed[k].size == spots[k].size
      ensures spots[k].size > 0 ==>
              spots[k].place in ctx.places && spots[k].Inside(ctx.reservations) && placed[k] == spots[k].Alloc()
    {
      if k !in placed0 {
        var i :| 0 <= i < |sorted| && sorted[i].key == k;
        assert RegionHonoured(sorted[i], placed, spots, ctx.reservations);
      }
    }
  }

  lemma StaysApart(sorted: seq<Region>, placed0: map<RegionKey, Allocation>, spots0: Spots,
                   placed: map<RegionKey, Allocation>, spots: Spots, cursors: CursorMap, ctx: Context)
    requires PassDone(sorted, |sorted|, placed0, spots0, placed, spots, cursors, ctx, true)
    requires placed0.Keys == spots0.Keys && PairwiseApart(spots0, ctx.groupOf)
    ensures PairwiseApart(spots, ctx.groupOf)
  {
    hide PlaceKey, Resolves, CursorsMatch, OldCovered, RegionCovered, RegionHonoured, SameGroup;
    forall k, l | k in spots && l in spots && k != l && !SameGroup(ctx.groupOf, k, l)
        ensures Apart(spots[k], spots[l]) {
      if k in spots0 && l in spots0 {
      } else if k in spots0 {
        var j :| 0 <= j < |sorted| && sorted[j].key == l;
        assert Apart(spots0[k], spots[sorted[j].key]);
      } else if l in spots0 {
        var i :| 0 <= i < |sorted| && sorted[i].key == k;
        assert Apart(spots0[l], spots[sorted[i].key]);
      } else {
        var i :| 0 <= i < |sorted| && sorted[i].key == k;
        var j :| 0 <= j < |sorted| && sorted[j].key == l;
        assert if i < j then Below(spots[sorted[i].key], spots[sorted[j].key])
               else Below(spots[sorted[j].key], spots[sorted[i].key]);
      }
    }
  }

  lemma StaysKnown(pass: Pass, measured: Measured, sorted: seq<Region>, placed0: map<RegionKey, Allocation>,
                   deferred0: Deferred, placed: map<RegionKey, Allocation>, deferred: Deferred, ctx: Context,
                   spots0: Spots, spots: Spots, cursors: CursorMap, seen: bool)
    requires PassRegions(sorted, deferred0, measured, pass)
    requires PassDone(sorted, |sorted|, placed0, spots0, placed, spots, cursors, ctx, seen)
    requires deferred == map k | k in deferred0 && !InPass(pass)(k) :: deferred0[k]
    requires DeferredKnown(deferred0, placed0, ctx)
    ensures DeferredKnown(deferred, placed, ctx)
  {
    hide PlaceKey, Resolves, CursorsMatch, OldCovered, RegionCovered, RegionHonoured, NewInOrder, OldNewApart,
         IsCpuMapped, RegionFor, InPass;
  }

  lemma StaysCanonical(pass: Pass, measured: Measured, sorted: seq<Region>, placed0: map<RegionKey, Allocation>,
                       spots0: Spots, deferred0: Deferred, placed: map<RegionKey, Allocation>, spots: Spots,
                       deferred: Deferred, cursors: CursorMap, ctx: Context)
    requires PassRegions(sorted, deferred0, measured, pass)
    requires PassDone(sorted, |sorted|, placed0, spots0, placed, spots, cursors, ctx, true)
    requires placed0.Keys == spots0.Keys
    requires deferred == map k | k in deferred0 && !InPass(pass)(k) :: deferred0[k]
    requires AllCanonical(spots0) && DeferredCanonical(deferred0)
    ensures AllCanonical(spots) && DeferredCanonical(deferred)
  {
    hide PlaceKey, Resolves, CursorsMatch, OldCovered, RegionCovered, NewInOrder, OldNewApart, IsCpuMapped, InPass,
         TargetBase, AlignedTo, IsPow2;
    forall k | k in spots && spots[k].size > 0 ensures spots[k].Canonical() {
      if k !in spots0 {
        var i :| 0 <= i < |sorted| && sorted[i].key == k;
        assert RegionHonoured(sorted[i], placed, spots, ctx.reservations);
      }
    }
  }
}
