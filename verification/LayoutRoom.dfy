/** Room for a whole layout: one condition on requests and measurements under which every pass succeeds. */
module LayoutRoom {
  import opened Wrappers
  import opened BitOps
  import opened LayoutCursors
  import opened LayoutSolver
  import opened LayoutSolve
  import opened LayoutPasses
  import StableSort

  // --- What the linker sizes --------------------------------------------------------

  /** The unsized private requests in mapped places, among the first `n`. */
  ghost function DeferredOf(requests: seq<Request>, n: nat): (d: Deferred)
    requires n <= |requests|
    ensures forall k | k in d ::
            exists i :: 0 <= i < n && requests[i].0 == k && Awaits(requests[i]) && requests[i].1 == d[k]
  {
    if n == 0 then map[]
    else
      var d := DeferredOf(requests, n - 1);
      if Awaits(requests[n - 1]) then d[requests[n - 1].0 := requests[n - 1].1] else d
  }

  predicate Awaits(req: Request) {
    IsDeferred(req) && Mapped(req.1)
  }

  lemma {:induction false} DeferredOfAll(requests: seq<Request>, n: nat, i: nat)
    requires n <= |requests| && DistinctKeys(requests) && i < n && Awaits(requests[i])
    ensures requests[i].0 in DeferredOf(requests, n) && DeferredOf(requests, n)[requests[i].0] == requests[i].1
  {
    hide IsCpuMapped;
    var d := DeferredOf(requests, n - 1);
    assert DeferredOf(requests, n) == if Awaits(requests[n - 1]) then d[requests[n - 1].0 := requests[n - 1].1] else d;
    if i < n - 1 { DeferredOfAll(requests, n - 1, i); }
  }

  lemma FixedIsPlaced(req: Request, placed: map<RegionKey, Allocation>, spots: Spots, reservations: Reservations)
    requires FixedHonoured(req, placed, spots, reservations)
    ensures req.0 in placed
  {
  }

  lemma {:induction false} SolvedDefers(requests: seq<Request>, sol: Solution, spots: Spots, ctx: Context)
    requires Solved(requests, sol, spots, ctx) && DistinctKeys(requests)
    ensures sol.deferred == DeferredOf(requests, |requests|)
  {
    hide NoDup, PlaceKey, PairwiseApart, PackedLargestFirst, SameFate, IsCpuMapped, AlignedTo, IsPow2, Resolves,
         SharedMatches, SameGroup, WellPlaced, GroupsAreData, FixedHonoured, DeferredOf;
    var d := DeferredOf(requests, |requests|);
    forall k | k in sol.deferred ensures k in d && d[k] == sol.deferred[k] {
      var i :| 0 <= i < |requests| && requests[i].0 == k;
      assert Settled(requests[i], sol, spots, ctx.reservations);
      if IsFixed(requests[i])
          && Mapped(requests[i].1) { FixedIsPlaced(requests[i], sol.placed, spots, ctx.reservations); }
      DeferredOfAll(requests, |requests|, i);
    }
    forall k | k in d ensures k in sol.deferred {
      var i :| 0 <= i < |requests| && requests[i].0 == k && Awaits(requests[i]) && requests[i].1 == d[k];
      assert Settled(requests[i], sol, spots, ctx.reservations);
    }
  }

  // --- What a place has to hold -----------------------------------------------------

  /** Everything that will take room: merged groups, fixed regions and measured ones. */
  datatype Plan = Plan(groups: map<string, SharedGroup>, fixed: seq<Request>, deferred: Deferred,
                       measured: Pass -> Measured)

  function DeferredCost(plan: Plan, k: RegionKey, pk: nat): nat
    requires k in plan.deferred
  {
    if Mapped(plan.deferred[k]) then RegionCost(RegionFor(k, plan.deferred[k], plan.measured(PassFor(k))), pk) else 0
  }

  ghost function DeferredNeed(plan: Plan, keys: set<RegionKey>, pk: nat): nat
    requires keys <= plan.deferred.Keys
  {
    if keys == {} then 0
    else
      var k :| k in keys;
      DeferredCost(plan, k, pk) + DeferredNeed(plan, keys - {k}, pk)
  }

  lemma {:induction false} DeferredNeedWith(plan: Plan, keys: set<RegionKey>, k: RegionKey, pk: nat)
    requires keys <= plan.deferred.Keys && k in keys
    ensures DeferredNeed(plan, keys, pk) == DeferredCost(plan, k, pk) + DeferredNeed(plan, keys - {k}, pk)
    decreases keys
  {
    hide DeferredCost;
    var l :| && l in keys
             && DeferredNeed(plan, keys, pk) == DeferredCost(plan, l, pk) + DeferredNeed(plan, keys - {l}, pk);
    if l != k {
      DeferredNeedWith(plan, keys - {l}, k, pk);
      DeferredNeedWith(plan, keys - {k}, l, pk);
      assert keys - {l} - {k} == keys - {k} - {l};
    }
  }

  lemma {:induction false} DeferredNeedSplits(plan: Plan, a: set<RegionKey>, b: set<RegionKey>, pk: nat)
    requires a <= plan.deferred.Keys && b <= plan.deferred.Keys && a !! b
    ensures DeferredNeed(plan, a + b, pk) == DeferredNeed(plan, a, pk) + DeferredNeed(plan, b, pk)
    decreases b
  {
    hide DeferredCost;
    if b == {} {
      assert a + b == a;
    } else {
      var k :| k in b;
      DeferredNeedWith(plan, b, k, pk);
      DeferredNeedWith(plan, a + b, k, pk);
      assert a + b - {k} == a + (b - {k});
      DeferredNeedSplits(plan, a, b - {k}, pk);
    }
  }

  /** What groups, fixed regions and the measured regions under `keys` take from the place with this key. */
  ghost function Used(plan: Plan, keys: set<RegionKey>, pk: nat): nat
    requires keys <= plan.deferred.Keys
  {
    GroupsNeed(plan.groups, plan.groups.Keys, pk)
    + FixedNeed(plan.fixed, |plan.fixed|, pk)
    + DeferredNeed(plan, keys, pk)
  }

  ghost predicate RoomForAll(plan: Plan, place: Place, reservations: Reservations) {
    RoomFor(place, Used(plan, plan.deferred.Keys, PlaceKey(place)), reservations)
  }

  /** Nothing lacks a field or asks for alignment zero, and every place holds all that goes into it. */
  ghost predicate Roomy(plan: Plan, reservations: Reservations) {
    && (forall g | g in plan.groups ::
          && plan.groups[g].place.Some? && plan.groups[g].size.Some? && plan.groups[g].align.GetOr(4) > 0
          && (IsCpuMapped(plan.groups[g].place.value) ==> RoomForAll(plan, plan.groups[g].place.value, reservations)))
    && (forall i | 0 <= i < |plan.fixed| ::
          && plan.fixed[i].1.place.Some? && plan.fixed[i].1.align.GetOr(4) > 0
          && (Mapped(plan.fixed[i].1) ==> RoomForAll(plan, plan.fixed[i].1.place.value, reservations)))
    && (forall k | k in plan.deferred && Mapped(plan.deferred[k]) ::
          plan.deferred[k].align.GetOr(32) > 0 && RoomForAll(plan, plan.deferred[k].place.value, reservations))
  }

  ghost function PlanFor(requests: seq<Request>, groups: map<string, SharedGroup>, measured: Pass -> Measured): Plan {
    Plan(groups, FixedOf(requests), DeferredOf(requests, |requests|), measured)
  }

  /**
   What a caller can check before building: group members agree, private regions name their place, all
   code is measured, and each place has room for its groups, fixed regions and measured regions together.
   */
  ghost predicate Buildable(requests: seq<Request>, reservations: Reservations, measured: Pass -> Measured) {
    && (forall i, j | 0 <= i < j < |requests| :: !Clash(requests[i], requests[j]))
    && (forall i | 0 <= i < |requests| && requests[i].1.shared.None? :: requests[i].1.place.Some?)
    && (forall i | 0 <= i < |requests| && Awaits(requests[i]) && requests[i].0.1 == "code" ::
          requests[i].0 in measured(PassFor(requests[i].0)))
    && (forall groups | AreGroups(requests, groups) :: Roomy(PlanFor(requests, groups, measured), reservations))
  }

  lemma BuildableIsSolvable(requests: seq<Request>, reservations: Reservations, measured: Pass -> Measured)
    requires Buildable(requests, reservations, measured)
    ensures Solvable(requests, reservations)
  {
    hide Clash, DeferredOf, FixedOf, PlaceKey, Resolves, GroupsNeed, FixedNeed, IsCpuMapped, CursorEnd, DeferredNeed;
    forall groups | AreGroups(requests, groups)
      ensures SharedRoom(groups, reservations) && FixedRoom(groups, FixedOf(requests), reservations)
    {
      assert Roomy(PlanFor(requests, groups, measured), reservations);
    }
  }

  // --- A pass within the plan -----------------------------------------------------------

  ghost function FirstKeys(sorted: seq<Region>, n: nat): set<RegionKey>
    requires n <= |sorted|
  {
    set i | 0 <= i < n :: sorted[i].key
  }

  /** What a pass needs does not depend on the order its regions are taken in. */
  lemma {:induction false} PassNeedIs(plan: Plan, sorted: seq<Region>, n: nat, deferred: Deferred, pass: Pass, pk: nat)
    requires n <= |sorted| && PassRegions(sorted, deferred, plan.measured(pass), pass)
    requires forall k | k in deferred :: k in plan.deferred && plan.deferred[k] == deferred[k]
    ensures FirstKeys(sorted, n) <= plan.deferred.Keys
    ensures RegionsNeed(sorted, n, pk) == DeferredNeed(plan, FirstKeys(sorted, n), pk)
  {
    hide RegionCost, RegionFor, IsCpuMapped, BiggestFirst, StableSort.Sorted, InPass, PassFor;
    if n == 0 {
      assert FirstKeys(sorted, 0) == {};
    } else {
      PassNeedIs(plan, sorted, n - 1, deferred, pass, pk);
      var g := sorted[n - 1];
      assert Wanted(g.key, deferred, InPass(pass));
      PassForIs(g.key, pass);
      assert FirstKeys(sorted, n) == FirstKeys(sorted, n - 1) + {g.key};
      assert g.key !in FirstKeys(sorted, n - 1);
      DeferredNeedWith(plan, FirstKeys(sorted, n), g.key, pk);
      assert FirstKeys(sorted, n) - {g.key} == FirstKeys(sorted, n - 1);
    }
  }

  ghost function PassKeys(deferred: Deferred, pass: Pass): set<RegionKey> {
    set k | k in deferred && PassFor(k) == pass
  }

  lemma AllKeys(plan: Plan, sorted: seq<Region>, deferred: Deferred, measured: Measured, pass: Pass)
    requires PassRegions(sorted, deferred, measured, pass) && forall k | k in deferred :: Mapped(deferred[k])
    ensures FirstKeys(sorted, |sorted|) == PassKeys(deferred, pass)
  {
    hide RegionFor, IsCpuMapped, BiggestFirst, StableSort.Sorted, InPass, PassFor;
    forall k ensures k in FirstKeys(sorted, |sorted|) <==> k in PassKeys(deferred, pass) {
      PassForIs(k, pass);
      if k in PassKeys(deferred, pass) { assert Wanted(k, deferred, InPass(pass)); }
    }
  }

  /** Every region lies at a canonical address inside a place that resolves. */
  ghost predicate Sound(placed: map<RegionKey, Allocation>, spots: Spots, ctx: Context) {
    && placed.Keys == spots.Keys
    && forall k | k in spots ::
         && spots[k].place in ctx.places && Resolves(spots[k].place) && spots[k].Canonical()
         && spots[k].Inside(ctx.reservations) && placed[k] == spots[k].Alloc()
  }

  ghost predicate WithinPlan(plan: Plan, keys: set<RegionKey>, spots: Spots)
    requires keys <= plan.deferred.Keys
  {
    forall k | k in spots :: spots[k].start + spots[k].size <= spots[k].Key() + Used(plan, keys, spots[k].Key())
  }

  /** Whatever a cursor sees ends within what has been used of its place. */
  lemma VisibleWithinPlan(plan: Plan, keys: set<RegionKey>, placed: map<RegionKey, Allocation>, spots: Spots,
                          ctx: Context, place: Place, k: RegionKey)
    requires keys <= plan.deferred.Keys && Sound(placed, spots, ctx) && WithinPlan(plan, keys, spots)
             && Separated(ctx.places)
    requires place in ctx.places && Resolves(place) && k in placed
             && Visible(FreshCursor(place, ctx.reservations), placed[k])
    ensures placed[k].base + placed[k].size <= PlaceKey(place) + Used(plan, keys, PlaceKey(place))
  {
    hide PlaceKey, Resolves, TargetBase, Used;
    var s := spots[k];
    assert s.Canonical() && s.Inside(ctx.reservations) && placed[k] == s.Alloc();
    assert placed[k].base == s.start;
    if s.Key() != PlaceKey(place) {
      assert s.size == 0;
    }
  }

  lemma PassRoomHolds(plan: Plan, keys: set<RegionKey>, deferred: Deferred, placed: map<RegionKey, Allocation>,
                      spots: Spots, ctx: Context, pass: Pass)
    requires keys == plan.deferred.Keys - deferred.Keys && forall k | k in deferred ::
             k in plan.deferred && plan.deferred[k] == deferred[k]
    requires Sound(placed, spots, ctx) && WithinPlan(plan, keys, spots) && Separated(ctx.places)
    requires DeferredKnown(deferred, placed, ctx) && Roomy(plan, ctx.reservations)
    requires forall k | k in plan.deferred && k.1 == "code" :: k in plan.measured(PassFor(k))
    ensures PassRoom(pass, plan.measured(pass), ctx.reservations, deferred, placed)
  {
    hide PlaceKey, Resolves, Used, InPass, PassFor, Sound, WithinPlan, Separated, Roomy, DeferredKnown, PassRegions,
         RegionsRoom;
    forall k ensures !Unmeasured(k, deferred, plan.measured(pass), InPass(pass)) { PassForIs(k, pass); }
    forall sorted | PassRegions(sorted, deferred, plan.measured(pass), pass)
        ensures RegionsRoom(sorted, placed, ctx.reservations) {
      RegionsRoomHolds(plan, keys, deferred, placed, spots, ctx, pass, sorted);
    }
  }

  /** Used before the pass plus needed by it is no more than the plan needs altogether. */
  lemma {:induction false} PassWithinPlan(plan: Plan, keys: set<RegionKey>, deferred: Deferred, pass: Pass,
                                          sorted: seq<Region>, pk: nat)
    requires keys == plan.deferred.Keys - deferred.Keys && forall k | k in deferred ::
             k in plan.deferred && plan.deferred[k] == deferred[k]
    requires PassRegions(sorted, deferred, plan.measured(pass), pass) && forall k | k in deferred :: Mapped(deferred[k])
    ensures PassKeys(deferred, pass) <= plan.deferred.Keys
    ensures Used(plan, keys, pk) + RegionsNeed(sorted, |sorted|, pk) == Used(plan, keys + PassKeys(deferred, pass), pk)
    ensures Used(plan, keys + PassKeys(deferred, pass), pk) <= Used(plan, plan.deferred.Keys, pk)
  {
    hide GroupsNeed, FixedNeed, DeferredNeed, PassFor, IsCpuMapped, PassRegions;
    AllKeys(plan, sorted, deferred, plan.measured(pass), pass);
    PassNeedIs(plan, sorted, |sorted|, deferred, pass, pk);
    var now := PassKeys(deferred, pass);
    DeferredNeedSplits(plan, keys, now, pk);
    var rest := plan.deferred.Keys - (keys + now);
    DeferredNeedSplits(plan, keys + now, rest, pk);
    assert keys + now + rest == plan.deferred.Keys;
  }

  lemma RegionsRoomHolds(plan: Plan, keys: set<RegionKey>, deferred: Deferred, placed: map<RegionKey, Allocation>,
                         spots: Spots, ctx: Context, pass: Pass, sorted: seq<Region>)
    requires keys == plan.deferred.Keys - deferred.Keys && forall k | k in deferred ::
             k in plan.deferred && plan.deferred[k] == deferred[k]
    requires Sound(placed, spots, ctx) && WithinPlan(plan, keys, spots) && Separated(ctx.places)
    requires DeferredKnown(deferred, placed, ctx) && Roomy(plan, ctx.reservations)
    requires PassRegions(sorted, deferred, plan.measured(pass), pass)
    ensures RegionsRoom(sorted, placed, ctx.reservations)
  {
    hide PlaceKey, Resolves, Used, InPass, PassFor, Sound, WithinPlan, Separated, StableSort.Sorted, BiggestFirst,
         RegionsNeed, FreshCursor, IsCpuMapped, Visible, CursorEnd;
    forall i | 0 <= i < |sorted| && sorted[i].size > 0
      ensures var place, need := sorted[i].place, RegionsNeed(sorted, |sorted|, PlaceKey(sorted[i].place));
              && sorted[i].align > 0 && RoomFor(place, need, ctx.reservations)
              && forall k | k in placed && Visible(FreshCursor(place, ctx.reservations), placed[k]) ::
                   placed[k].base + placed[k].size + need <= CursorEnd(PlaceKey(place), place, ctx.reservations)
    {
      var g := sorted[i];
      var pk := PlaceKey(g.place);
      assert g.key in deferred && g == RegionFor(g.key, deferred[g.key], plan.measured(pass));
      assert g.place in ctx.places && RoomForAll(plan, g.place, ctx.reservations);
      PassWithinPlan(plan, keys, deferred, pass, sorted, pk);
      forall k | k in placed && Visible(FreshCursor(g.place, ctx.reservations), placed[k])
        ensures placed[k].base + placed[k].size <= pk + Used(plan, keys, pk)
      {
        VisibleWithinPlan(plan, keys, placed, spots, ctx, g.place, k);
      }
    }
  }

  /** The regions a pass adds stay within what it was planned to use. */
  lemma StaysWithinPlan(plan: Plan, keys: set<RegionKey>, deferred: Deferred, pass: Pass, ctx: Context,
                        order: seq<Region>, swept: CursorMap, placed0: map<RegionKey, Allocation>, spots0: Spots,
                        placed: map<RegionKey, Allocation>, spots: Spots, deferred': Deferred)
    requires keys == plan.deferred.Keys - deferred.Keys && forall k | k in deferred ::
             k in plan.deferred && plan.deferred[k] == deferred[k]
    requires Sound(placed0, spots0, ctx) && WithinPlan(plan, keys, spots0) && Separated(ctx.places)
             && Roomy(plan, ctx.reservations)
    requires DeferredKnown(deferred, placed0, ctx) && DeferredCanonical(deferred)
    requires PassEffect(pass, plan.measured(pass), ctx.reservations, placed0, spots0, deferred, placed, spots,
                        deferred')
    requires PassRegions(order, deferred, plan.measured(pass), pass)
    requires SweptFor(swept, order, placed0, ctx.reservations) && Landed(order, |order|, swept, spots)
    requires placed.Keys == spots.Keys && AllInside(placed, spots, ctx.reservations)
    ensures Sound(placed, spots, ctx)
    ensures WithinPlan(plan, plan.deferred.Keys - deferred'.Keys, spots)
  {
    hide *;
    var now := PassKeys(deferred, pass);
    KeysAfter(plan, keys, deferred, pass, ctx, placed0, spots0, placed, spots, deferred');
    var keys' := plan.deferred.Keys - deferred'.Keys;
    forall k | k in spots
      ensures spots[k].place in ctx.places && Resolves(spots[k].place) && spots[k].Canonical()
      ensures spots[k].Inside(ctx.reservations) && spots[k].Key() <= spots[k].start && placed[k] == spots[k].Alloc()
      ensures spots[k].start + spots[k].size <= spots[k].Key() + Used(plan, keys', spots[k].Key())
    {
      if k in spots0 {
        OldWithinPlan(plan, keys, deferred, pass, ctx, order, placed0, spots0, placed, spots, deferred', k);
      } else {
        NewWithinPlan(plan, keys, deferred, pass, ctx, order, swept, placed0, spots0, placed, spots, deferred', k);
      }
    }
    assert Sound(placed, spots, ctx) by { SoundFrom(placed, spots, ctx); }
    assert WithinPlan(plan, keys', spots) by { WithinFrom(plan, keys', spots); }
  }

  lemma SoundFrom(placed: map<RegionKey, Allocation>, spots: Spots, ctx: Context)
    requires placed.Keys == spots.Keys
    requires forall k | k in spots ::
               && spots[k].place in ctx.places && Resolves(spots[k].place) && spots[k].Canonical()
               && spots[k].Inside(ctx.reservations) && placed[k] == spots[k].Alloc()
    ensures Sound(placed, spots, ctx)
  {
  }

  lemma WithinFrom(plan: Plan, keys: set<RegionKey>, spots: Spots)
    requires keys <= plan.deferred.Keys
    requires forall k | k in spots ::
             spots[k].start + spots[k].size <= spots[k].Key() + Used(plan, keys, spots[k].Key())
    ensures WithinPlan(plan, keys, spots)
  {
    hide Used;
  }

  lemma KeysAfter(plan: Plan, keys: set<RegionKey>, deferred: Deferred, pass: Pass, ctx: Context,
                  placed0: map<RegionKey, Allocation>, spots0: Spots, placed: map<RegionKey, Allocation>, spots: Spots,
                  deferred': Deferred)
    requires keys == plan.deferred.Keys - deferred.Keys && forall k | k in deferred ::
             k in plan.deferred && plan.deferred[k] == deferred[k]
    requires PassEffect(pass, plan.measured(pass), ctx.reservations, placed0, spots0, deferred, placed, spots,
                        deferred')
    ensures plan.deferred.Keys - deferred'.Keys == keys + PassKeys(deferred, pass)
  {
    hide InPass, PassFor, RegionHonoured, RegionFor, Apart, Below, OldKept, IsCpuMapped;
    forall k | k in plan.deferred ensures k in deferred' <==>
        k in deferred && PassFor(k) != pass { PassForIs(k, pass); }
  }

  lemma OldWithinPlan(plan: Plan, keys: set<RegionKey>, deferred: Deferred, pass: Pass, ctx: Context,
                      order: seq<Region>, placed0: map<RegionKey, Allocation>, spots0: Spots,
                      placed: map<RegionKey, Allocation>, spots: Spots, deferred': Deferred, k: RegionKey)
    requires keys == plan.deferred.Keys - deferred.Keys && forall k | k in deferred ::
             k in plan.deferred && plan.deferred[k] == deferred[k]
    requires Sound(placed0, spots0, ctx) && WithinPlan(plan, keys, spots0) && DeferredKnown(deferred, placed0, ctx)
    requires PassEffect(pass, plan.measured(pass), ctx.reservations, placed0, spots0, deferred, placed, spots,
                        deferred')
    requires PassRegions(order, deferred, plan.measured(pass), pass)
    requires k in spots0
    ensures k in spots && k in placed && PassKeys(deferred, pass) <= plan.deferred.Keys
    ensures spots[k].place in ctx.places && Resolves(spots[k].place) && spots[k].Canonical()
    ensures spots[k].Inside(ctx.reservations) && spots[k].Key() <= spots[k].start && placed[k] == spots[k].Alloc()
    ensures var pk := spots[k].Key();
            spots[k].start + spots[k].size <= pk + Used(plan, keys + PassKeys(deferred, pass), pk)
  {
    hide InPass, PassFor, RegionHonoured, RegionFor, Apart, Below, IsCpuMapped, PlaceKey, Resolves, TargetBase, Used,
         PassRegions, RegionsNeed;
    PassWithinPlan(plan, keys, deferred, pass, order, spots0[k].Key());
  }

  lemma NewWithinPlan(plan: Plan, keys: set<RegionKey>, deferred: Deferred, pass: Pass, ctx: Context,
                      order: seq<Region>, swept: CursorMap, placed0: map<RegionKey, Allocation>, spots0: Spots,
                      placed: map<RegionKey, Allocation>, spots: Spots, deferred': Deferred, k: RegionKey)
    requires keys == plan.deferred.Keys - deferred.Keys && forall k | k in deferred ::
             k in plan.deferred && plan.deferred[k] == deferred[k]
    requires Sound(placed0, spots0, ctx) && WithinPlan(plan, keys, spots0) && Separated(ctx.places)
             && Roomy(plan, ctx.reservations)
    requires DeferredKnown(deferred, placed0, ctx) && DeferredCanonical(deferred)
    requires PassEffect(pass, plan.measured(pass), ctx.reservations, placed0, spots0, deferred, placed, spots,
                        deferred')
    requires PassRegions(order, deferred, plan.measured(pass), pass)
    requires SweptFor(swept, order, placed0, ctx.reservations) && Landed(order, |order|, swept, spots)
    requires placed.Keys == spots.Keys && AllInside(placed, spots, ctx.reservations)
    requires k in spots && k !in spots0
    ensures PassKeys(deferred, pass) <= plan.deferred.Keys
    ensures spots[k].place in ctx.places && Resolves(spots[k].place) && spots[k].Canonical()
    ensures spots[k].Inside(ctx.reservations) && spots[k].Key() <= spots[k].start && placed[k] == spots[k].Alloc()
    ensures var pk := spots[k].Key();
            spots[k].start + spots[k].size <= pk + Used(plan, keys + PassKeys(deferred, pass), pk)
  {
    hide *;
    var i := NewRegion(plan, deferred, pass, ctx, order, placed0, spots0, placed, spots, deferred', k);
    var pk := PlaceKey(order[i].place);
    SweptWithinPlan(plan, keys, placed0, spots0, ctx, order, swept, i);
    LandsWithin(order, i, swept, spots);
    PassWithinPlan(plan, keys, deferred, pass, order, pk);
    InsideAt(placed, spots, ctx.reservations, k);
  }

  lemma InsideAt(placed: map<RegionKey, Allocation>, spots: Spots, reservations: Reservations, k: RegionKey)
    requires AllInside(placed, spots, reservations) && k in spots && Resolves(spots[k].place)
    ensures k in placed && spots[k].Inside(reservations) && spots[k].Key() <= spots[k].start
            && placed[k] == spots[k].Alloc()
    ensures spots[k].Key() == PlaceKey(spots[k].place)
  {
  }

  /** The region of the pass that a new spot belongs to. */
  lemma NewRegion(plan: Plan, deferred: Deferred, pass: Pass, ctx: Context, order: seq<Region>,
                  placed0: map<RegionKey, Allocation>, spots0: Spots, placed: map<RegionKey, Allocation>, spots: Spots,
                  deferred': Deferred, k: RegionKey)
    returns (i: nat)
    requires forall k | k in deferred :: k in plan.deferred && plan.deferred[k] == deferred[k]
    requires DeferredKnown(deferred, placed0, ctx) && DeferredCanonical(deferred) && Roomy(plan, ctx.reservations)
    requires Sound(placed0, spots0, ctx)
    requires PassEffect(pass, plan.measured(pass), ctx.reservations, placed0, spots0, deferred, placed, spots,
                        deferred')
    requires PassRegions(order, deferred, plan.measured(pass), pass)
    requires placed.Keys == spots.Keys && k in spots && k !in spots0
    ensures forall l | l in deferred :: Mapped(deferred[l])
    ensures i < |order| && order[i].key == k
    ensures spots[k].place == order[i].place && spots[k].size == order[i].size
    ensures order[i].place in ctx.places && Resolves(order[i].place) && spots[k].Canonical()
    ensures spots[k].Key() == PlaceKey(order[i].place)
  {
    hide InPass, PassFor, Apart, Below, IsCpuMapped, PlaceKey, Resolves, TargetBase, Used, AlignedTo, IsPow2, CursorEnd,
         StableSort.Sorted, BiggestFirst;
    assert k in placed && k !in placed0;
    assert Wanted(k, deferred, InPass(pass));
    i :| 0 <= i < |order| && order[i].key == k;
    assert RegionHonoured(order[i], placed, spots, ctx.reservations);
    assert RoomForAll(plan, plan.deferred[k].place.value, ctx.reservations);
  }

  lemma SweptWithinPlan(plan: Plan, keys: set<RegionKey>, placed0: map<RegionKey, Allocation>, spots0: Spots,
                        ctx: Context, order: seq<Region>, swept: CursorMap, i: nat)
    requires keys <= plan.deferred.Keys
    requires Sound(placed0, spots0, ctx) && WithinPlan(plan, keys, spots0) && Separated(ctx.places)
    requires SweptFor(swept, order, placed0, ctx.reservations)
    requires i < |order| && order[i].place in ctx.places && Resolves(order[i].place)
    ensures PlaceKey(order[i].place) in swept
    ensures var pk := PlaceKey(order[i].place); swept[pk].cursor <= pk + Used(plan, keys, pk)
  {
    hide PlaceKey, Resolves, Used, Sound, WithinPlan, Separated, CursorEnd;
    var pk := PlaceKey(order[i].place);
    var start := FreshCursor(order[i].place, ctx.reservations);
    assert Swept(start, swept[pk], placed0, placed0.Keys);
    if swept[pk].cursor != start.cursor {
      var k :| k in placed0.Keys && ReachedBy(start, swept[pk], placed0[k]);
      VisibleWithinPlan(plan, keys, placed0, spots0, ctx, order[i].place, k);
    }
  }

  lemma {:induction false} LandsWithin(order: seq<Region>, i: nat, swept: CursorMap, spots: Spots)
    requires Landed(order, |order|, swept, spots) && i < |order| && Resolves(order[i].place)
    ensures PlaceKey(order[i].place) in swept && order[i].key in spots
    ensures var pk := PlaceKey(order[i].place);
            spots[order[i].key].start + order[i].size <= swept[pk].cursor + RegionsNeed(order, |order|, pk)
  {
    hide PlaceKey, Resolves, Tail, AlignUp, RegionsNeed;
    var pk := PlaceKey(order[i].place);
    var cursor := swept[pk].cursor;
    LandingIs(order, i, cursor);
    TailBounded(order, i, pk, cursor);
    RegionsNeedGrows(order, i, |order|, pk);
    if order[i].size > 0 {
      NeedStep(order, i);
      RegionsNeedGrows(order, i + 1, |order|, pk);
    }
  }
}
