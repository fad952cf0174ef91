/** The whole layout: solving, then the three deferred passes in any order. */
module LayoutTheorems {
  import opened Wrappers
  import opened BitOps
  import opened LayoutCursors
  import opened LayoutSolver
  import opened LayoutSolve
  import opened LayoutPasses
  import opened LayoutRoom

  /** Executable and data resolution of every requested place agree. */
  ghost predicate Agreeing(requests: seq<Request>) {
    forall i | 0 <= i < |requests| && requests[i].1.place.Some? ::
      TargetBase(requests[i].1.place.value, requests[i].1.execute) == PlaceKey(requests[i].1.place.value)
  }

  /** Progress of the passes: what left `deferred` has been placed as measured, nothing else moved. */
  ghost predicate Resolved(sol: Solution, spots0: Spots, measured: Pass -> Measured, ctx: Context,
                           placed: map<RegionKey, Allocation>, spots: Spots, deferred: Deferred) {
    && OldKept(sol.placed, spots0, placed, spots)
    && (forall k | k in deferred :: k in sol.deferred && deferred[k] == sol.deferred[k])
    && (forall k :: k in placed <==> k in sol.placed || (k in sol.deferred && k !in deferred))
    && (forall k | k in sol.deferred && k !in deferred && Mapped(sol.deferred[k]) ::
          RegionHonoured(RegionFor(k, sol.deferred[k], measured(PassFor(k))), placed, spots, ctx.reservations))
  }

  lemma ResolvedStep(sol: Solution, spots0: Spots, measured: Pass -> Measured, ctx: Context, pass: Pass,
                     placed: map<RegionKey, Allocation>, spots: Spots, deferred: Deferred,
                     placed': map<RegionKey, Allocation>, spots': Spots, deferred': Deferred)
    requires Resolved(sol, spots0, measured, ctx, placed, spots, deferred)
    requires DeferredKnown(deferred, placed, ctx)
    requires PassEffect(pass, measured(pass), ctx.reservations, placed, spots, deferred, placed', spots', deferred')
    ensures Resolved(sol, spots0, measured, ctx, placed', spots', deferred')
  {
    hide RegionFor, IsCpuMapped, InPass, PassFor, Apart, Below, RegionHonoured;
    forall k ensures InPass(pass)(k) <==> PassFor(k) == pass { PassForIs(k, pass); }
    forall k | k in sol.deferred && k !in deferred' && Mapped(sol.deferred[k])
      ensures RegionHonoured(RegionFor(k, sol.deferred[k], measured(PassFor(k))), placed', spots', ctx.reservations)
    {
      if k !in deferred {
        HonouredKept(RegionFor(k, sol.deferred[k], measured(PassFor(k))), placed, spots, placed', spots',
                     ctx.reservations);
      } else {
        assert Wanted(k, deferred, InPass(pass));
      }
    }
  }

  lemma HonouredKept(r: Region, placed: map<RegionKey, Allocation>, spots: Spots, placed': map<RegionKey, Allocation>,
                     spots': Spots, reservations: Reservations)
    requires RegionHonoured(r, placed, spots, reservations) && OldKept(placed, spots, placed', spots')
    ensures RegionHonoured(r, placed', spots', reservations)
  {
    hide PlaceKey, Resolves, AlignedTo, IsPow2;
  }

  /** Every request is settled: placed as asked, or access-controlled only. */
  ghost predicate Finished(req: Request, sol: Solution, spots: Spots, measured: Pass -> Measured,
                           reservations: Reservations) {
    && (req.0 in sol.placed <==> req.0 !in sol.aclOnly)
    && if req.1.shared.Some? then req.0 in sol.placed ==> req.0 in spots && SharedMatches(req.1, spots[req.0])
       else
         && req.1.place.Some?
         && var place := req.1.place.value;
            if place.unmapped || place.mappings == [] then req.0 in sol.aclOnly
            else if req.1.size.Some? then FixedHonoured(req, sol.placed, spots, reservations)
            else DeferredHonoured(req, sol.placed, spots, measured(PassFor(req.0)), reservations)
  }

  /** The region has the size that was measured for it, none if nothing was, and sits where its request asked. */
  ghost predicate DeferredHonoured(req: Request, placed: map<RegionKey, Allocation>, spots: Spots, measured: Measured,
                                   reservations: Reservations) {
    var (k, r) := req;
    && k in placed && k in spots && r.place == Some(spots[k].place) && spots[k].execute == r.execute
    && placed[k].size == spots[k].size && (k in measured ==> spots[k].size == measured[k])
    && (k !in measured ==> spots[k].size == 0)
    && (spots[k].size > 0 ==> spots[k].Inside(reservations))
    && (Resolves(spots[k].place) ==> spots[k].Key() <= spots[k].start && placed[k] == spots[k].Alloc())
    && (spots[k].size > 0 && IsPow2(r.align.GetOr(32)) ==> AlignedTo(spots[k], r.align.GetOr(32)))
  }

  lemma RegionIsDeferred(req: Request, placed: map<RegionKey, Allocation>, spots: Spots, measured: Measured,
                         reservations: Reservations)
    requires Mapped(req.1) && RegionHonoured(RegionFor(req.0, req.1, measured), placed, spots, reservations)
    ensures DeferredHonoured(req, placed, spots, measured, reservations)
  {
    hide PlaceKey, Resolves, AlignedTo, IsPow2;
  }

  /** No two regions share an address unless they belong to one shared group. */
  ghost predicate NoOverlap(sol: Solution, groupOf: map<RegionKey, string>) {
    forall k, l | k in sol.placed && l in sol.placed && k != l && !SameGroup(groupOf, k, l) ::
        Disjoint(sol.placed[k], sol.placed[l])
  }

  lemma ValidMeansNoOverlap(sol: Solution, spots: Spots, ctx: Context)
    requires WellPlaced(sol.placed, spots, ctx) && PairwiseApart(spots, ctx.groupOf) && AllCanonical(spots)
             && Separated(ctx.places)
    ensures NoOverlap(sol, ctx.groupOf)
  {
    hide SameGroup, PlaceKey, Separated, Resolves, Apart;
    forall k, l | k in sol.placed && l in sol.placed && k != l && !SameGroup(ctx.groupOf, k, l)
        ensures Disjoint(sol.placed[k], sol.placed[l]) {
      if spots[k].size > 0 && spots[l].size > 0 {
        ApartSpotsAreDisjoint(spots[k], spots[l], ctx.places, ctx.reservations);
      }
    }
  }

  lemma {:induction false} SolvedIsCanonical(requests: seq<Request>, sol: Solution, spots: Spots, ctx: Context)
    requires Solved(requests, sol, spots, ctx) && DistinctKeys(requests)
    requires ctx.groupOf == GroupOf(requests, |requests|) && ctx.places == PlacesOf(requests)
    ensures DeferredKnown(sol.deferred, sol.placed, ctx)
    ensures Agreeing(requests) ==> AllCanonical(spots) && DeferredCanonical(sol.deferred)
  {
    hide NoDup, PlaceKey, PairwiseApart, PackedLargestFirst, SameFate, IsCpuMapped, AlignedTo, IsPow2, Resolves,
         SharedMatches, TargetBase, SameGroup;
    forall k | Agreeing(requests) && k in spots && spots[k].size > 0 ensures spots[k].Canonical() {
      var i :| 0 <= i < |requests| && requests[i].0 == k;
      assert Settled(requests[i], sol, spots, ctx.reservations);
      if requests[i].1.shared.Some? {
        GroupOfAll(requests, |requests|, i);
        DataIsCanonical(spots[k].place);
      }
    }
    forall k | k in sol.deferred
      ensures Mapped(sol.deferred[k])
      ensures Agreeing(requests) ==>
                TargetBase(sol.deferred[k].place.value, sol.deferred[k].execute)
                == PlaceKey(sol.deferred[k].place.value)
      ensures k !in sol.placed && k !in ctx.groupOf && sol.deferred[k].place.value in ctx.places
    {
      var i :| 0 <= i < |requests| && requests[i].0 == k;
      assert Settled(requests[i], sol, spots, ctx.reservations);
      GroupOfAll(requests, |requests|, i);
    }
  }

  /** The alignment a request stands for; only regions without content are exempt from it. */
  function AlignFor(req: RegionRequest): nat {
    req.align.GetOr(if req.size.Some? then 4 else 32)
  }

  predicate AddressAligned(req: RegionRequest, a: Allocation) {
    (a.size > 0 || (req.shared.None? && req.size.Some?)) && (req.shared.None? || req.align.Some?)
        && IsPow2(AlignFor(req)) ==>
      Aligned(a.base, AlignFor(req))
  }

  /** What the windows of the places decide: addresses in the data window, and regions clear of each other. */
  ghost predicate Clean(agree: bool, clear: bool, placed: map<RegionKey, Allocation>, spots: Spots, deferred: Deferred,
                        ctx: Context) {
    && (agree ==> AllCanonical(spots) && DeferredCanonical(deferred) && PairwiseApart(spots, ctx.groupOf))
    && (clear ==> AllInside(placed, spots, ctx.reservations))
  }

  /** What a failed build names: what solving does, or a region without size that has no room or was not measured. */
  ghost predicate BuildBlames(requests: seq<Request>, measured: Pass -> Measured, e: LayoutError) {
    || SolveBlames(requests, e)
    || (e.OutOfSpace? && exists i ::
          0 <= i < |requests| && requests[i].0 == e.key && IsDeferred(requests[i]) && Mapped(requests[i].1))
    || (e.DeferredNotMeasured? && e.key.1 == "code" && e.key !in measured(PassFor(e.key)) && exists i ::
          0 <= i < |requests| && requests[i].0 == e.key && IsDeferred(requests[i]))
  }

  lemma {:induction false} PassBlames(requests: seq<Request>, sol: Solution, spots: Spots, ctx: Context,
                                      measured: Pass -> Measured, deferred: Deferred, pass: Pass, e: LayoutError)
    requires Solved(requests, sol, spots, ctx) && DistinctKeys(requests)
    requires forall k | k in deferred :: k in sol.deferred && sol.deferred[k] == deferred[k]
    requires e != Panicked ==>
               || (e.OutOfSpace? && Wanted(e.key, deferred, InPass(pass)))
               || (e.DeferredNotMeasured? && Unmeasured(e.key, deferred, measured(pass), InPass(pass)))
    ensures BuildBlames(requests, measured, e)
  {
    hide InPass, PassFor, IsCpuMapped, Solved, DistinctKeys;
    SolvedDefers(requests, sol, spots, ctx);
    if e != Panicked {
      PassForIs(e.key, pass);
      var i :| 0 <= i < |requests| && requests[i].0 == e.key && Awaits(requests[i]);
    }
  }

  /**
   Solving followed by the passes in any order. Every request ends up placed as asked or ACL-only. Where the
   windows of each place agree, every region has an aligned address and no two regions of a place overlap;
   where places are separate too, no two regions overlap at all, and whatever has room is built.
   */
  method BuildLayout(requests: seq<Request>, reservations: Reservations, measured: Pass -> Measured)
    returns (r: Result<Solution, LayoutError>, ghost spots: Spots)
    requires DistinctKeys(requests) && Consistent(PlacesOf(requests))
    ensures r.Success? ==>
              && r.value.deferred == map[]
              && WellPlaced(r.value.placed, spots, ContextOf(requests, reservations))
              && forall i | 0 <= i < |requests| :: Finished(requests[i], r.value, spots, measured, reservations)
    ensures r.Success? ==> forall i | 0 <= i < |requests| ::
            requests[i].0 in r.value.placed <==> requests[i].0 !in r.value.aclOnly
    ensures r.Success? && Agreeing(requests) ==>
              AllCanonical(spots) && PairwiseApart(spots, GroupOf(requests, |requests|))
    ensures r.Success? && Agreeing(requests) ==> forall i | 0 <= i < |requests| && requests[i].0 in r.value.placed ::
                             AddressAligned(requests[i].1, r.value.placed[requests[i].0])
    ensures r.Success? && Agreeing(requests) && Separated(PlacesOf(requests)) ==>
              NoOverlap(r.value, GroupOf(requests, |requests|)) && AllInside(r.value.placed, spots, reservations)
    ensures Agreeing(requests) && Separated(PlacesOf(requests)) && Buildable(requests, reservations, measured) ==>
              r.Success?
    ensures r.Failure? ==> BuildBlames(requests, measured, r.error)
  {
    hide Solved, Consistent, Separated, Agreeing, WellPlaced, PairwiseApart, DeferredKnown, AllCanonical,
         DeferredCanonical, PassEffect, Resolved, InPass, PassFor, Finished, NoOverlap, DistinctKeys, PlacesOf, GroupOf,
         Buildable, AllInside, OnPlan, PlanFor, AreGroups, SpotsBound, PassRoom, PassRegions, SweptFor, Landed,
         Solvable, AddressAligned, AllKnown, SolveBlames, Wanted, Unmeasured;
    spots := map[];
    ghost var ctx, agree := ContextOf(requests, reservations), Agreeing(requests);
    ghost var clear := agree && Separated(PlacesOf(requests));
    ghost var room := clear && Buildable(requests, reservations, measured);
    if room { BuildableIsSolvable(requests, reservations, measured); }
    ghost var spots0, groups;
    var solved;
    solved, spots0, groups := Solve(requests, reservations);
    if solved.Failure? { return Failure(solved.error), spots; }
    var sol := solved.value;
    SolvedIsCanonical(requests, sol, spots0, ctx);
    var layout := new Layout(sol, spots0);
    SolvedIsPlaced(requests, sol, spots0, ctx);
    ResolvedStart(sol, spots0, measured, ctx);
    ghost var plan := PlanFor(requests, groups, measured);
    PlanStart(requests, reservations, measured, groups, sol, spots0, ctx, room);
    var todo := {Tasks, Kernel, Bootloader};
    assert forall k :: PassFor(k) in todo by { ThreePasses(); }
    while todo != {}
      invariant fresh(layout) && layout.aclOnly == sol.aclOnly && layout.Valid(ctx)
      invariant Clean(agree, clear, layout.placed, layout.spots, layout.deferred, ctx)
      invariant Resolved(sol, spots0, measured, ctx, layout.placed, layout.spots, layout.deferred)
      invariant forall k | k in layout.deferred :: PassFor(k) in todo
      invariant OnPlan(room, plan, layout.placed, layout.spots, layout.deferred, ctx)
    {
      var pass :| pass in todo;
      todo := todo - {pass};
      ghost var placed, spotsB, deferred := layout.placed, layout.spots, layout.deferred;
      PlanHasRoom(room, plan, sol, spots0, ctx, placed, spotsB, deferred, pass);
      ghost var sorted, swept;
      var step;
      step, sorted, swept := layout.Resolve(pass, measured(pass), reservations, ctx);
      if step.Failure? {
        ResolvedDeferred(sol, spots0, measured, ctx, placed, spotsB, deferred);
        PassBlames(requests, sol, spots0, ctx, measured, deferred, pass, step.error);
        return Failure(step.error), spots;
      }
      PassKeeps(room, plan, sol, spots0, ctx, pass, sorted, swept, placed, spotsB, deferred,
                layout.placed, layout.spots, layout.deferred);
    }
    spots := layout.spots;
    NothingDeferred(layout.deferred);
    var final := Solution(layout.placed, layout.deferred, layout.aclOnly);
    forall i | 0 <= i < |requests|
      ensures Finished(requests[i], final, spots, measured, reservations)
      ensures requests[i].0 in final.placed <==> requests[i].0 !in final.aclOnly
      ensures agree && requests[i].0 in final.placed ==>
                AddressAligned(requests[i].1, final.placed[requests[i].0])
    {
      FinishedHolds(requests, sol, spots0, measured, ctx, final, spots, requests[i]);
      FinishedOnce(requests[i], final, spots, measured, reservations);
      if agree { FinishedAligned(requests, i, final, spots, measured, ctx); }
    }
    if clear { ValidMeansNoOverlap(final, spots, ctx); }
    r := Success(final);
  }

  lemma {:induction false} PlanIs(requests: seq<Request>, groups: map<string, SharedGroup>, measured: Pass -> Measured)
    ensures var plan := PlanFor(requests, groups, measured);
            plan.deferred == DeferredOf(requests, |requests|) && plan.measured == measured
  {
  }

  /** If there is room for everything, what has been placed so far is within the plan. */
  ghost predicate OnPlan(room: bool, plan: Plan, placed: map<RegionKey, Allocation>, spots: Spots, deferred: Deferred,
                         ctx: Context) {
    room ==>
      && Roomy(plan, ctx.reservations) && Sound(placed, spots, ctx)
      && WithinPlan(plan, plan.deferred.Keys - deferred.Keys, spots)
      && forall k | k in plan.deferred && k.1 == "code" :: k in plan.measured(PassFor(k))
  }

  lemma PlanStart(requests: seq<Request>, reservations: Reservations, measured: Pass -> Measured,
                  groups: map<string, SharedGroup>, sol: Solution, spots: Spots, ctx: Context, room: bool)
    requires room ==> Buildable(requests, reservations, measured) && Agreeing(requests)
    requires AreGroups(requests, groups) && SpotsBound(spots, groups, FixedOf(requests))
    requires DistinctKeys(requests) && ctx == ContextOf(requests, reservations)
    requires Solved(requests, sol, spots, ctx) && AllInside(sol.placed, spots, reservations) && AllKnown(spots, ctx)
    ensures var plan := PlanFor(requests, groups, measured);
            plan.measured == measured && plan.deferred == sol.deferred
                && OnPlan(room, plan, sol.placed, spots, sol.deferred, ctx)
  {
    hide *;
    var plan := PlanFor(requests, groups, measured);
    PlanIs(requests, groups, measured);
    ContextReservations(requests, reservations);
    SolvedDefers(requests, sol, spots, ctx);
    if room {
      PlanRoomy(requests, reservations, measured, groups);
      SolvedIsSound(requests, reservations, sol, spots, ctx);
      BoundIsWithin(plan, requests, groups, measured, spots);
      assert plan.deferred.Keys - sol.deferred.Keys == {};
    }
    OnPlanFrom(room, plan, sol.placed, spots, sol.deferred, ctx);
  }

  lemma SolvedIsSound(requests: seq<Request>, reservations: Reservations, sol: Solution, spots: Spots, ctx: Context)
    requires DistinctKeys(requests) && Agreeing(requests) && ctx == ContextOf(requests, reservations)
    requires Solved(requests, sol, spots, ctx) && AllInside(sol.placed, spots, reservations) && AllKnown(spots, ctx)
    ensures Sound(sol.placed, spots, ctx)
  {
    hide *;
    ContextReservations(requests, reservations);
    forall k | k in spots
      ensures spots[k].place in ctx.places && Resolves(spots[k].place) && spots[k].Canonical()
      ensures spots[k].Inside(ctx.reservations) && spots[k].Key() <= spots[k].start && k in sol.placed
              && sol.placed[k] == spots[k].Alloc()
    {
      SolvedSpot(requests, sol, spots, ctx, k);
      InsideAt(sol.placed, spots, reservations, k);
    }
    SolvedKeys(requests, sol, spots, ctx);
    SoundFrom(sol.placed, spots, ctx);
  }

  lemma OnPlanFrom(room: bool, plan: Plan, placed: map<RegionKey, Allocation>, spots: Spots, deferred: Deferred,
                   ctx: Context)
    requires room ==> Roomy(plan, ctx.reservations) && Sound(placed, spots, ctx)
                      && WithinPlan(plan, plan.deferred.Keys - deferred.Keys, spots)
    requires room ==> forall k | k in plan.deferred && k.1 == "code" :: k in plan.measured(PassFor(k))
    ensures OnPlan(room, plan, placed, spots, deferred, ctx)
  {
    hide Roomy, Sound, WithinPlan, PassFor;
  }

  lemma PlanHasRoom(room: bool, plan: Plan, sol: Solution, spots0: Spots, ctx: Context,
                    placed: map<RegionKey, Allocation>, spots: Spots, deferred: Deferred, pass: Pass)
    requires OnPlan(room, plan, placed, spots, deferred, ctx) && plan.deferred == sol.deferred
    requires Resolved(sol, spots0, plan.measured, ctx, placed, spots, deferred)
    requires DeferredKnown(deferred, placed, ctx) && (room ==> Separated(ctx.places))
    ensures room ==> PassRoom(pass, plan.measured(pass), ctx.reservations, deferred, placed)
  {
    hide Roomy, Sound, WithinPlan, PassFor, Resolved, DeferredKnown, Separated, PassRoom;
    ResolvedDeferred(sol, spots0, plan.measured, ctx, placed, spots, deferred);
    if room { PassRoomHolds(plan, plan.deferred.Keys - deferred.Keys, deferred, placed, spots, ctx, pass); }
  }

  /** One pass keeps the progress and the plan. */
  lemma PassKeeps(room: bool, plan: Plan, sol: Solution, spots0: Spots, ctx: Context, pass: Pass, sorted: seq<Region>,
                  swept: CursorMap, placed: map<RegionKey, Allocation>, spots: Spots, deferred: Deferred,
                  placed': map<RegionKey, Allocation>, spots': Spots, deferred': Deferred)
    requires OnPlan(room, plan, placed, spots, deferred, ctx) && plan.deferred == sol.deferred
    requires Resolved(sol, spots0, plan.measured, ctx, placed, spots, deferred)
    requires DeferredKnown(deferred, placed, ctx) && WellPlaced(placed', spots', ctx)
    requires room ==> DeferredCanonical(deferred) && Separated(ctx.places)
    requires room ==> AllInside(placed', spots', ctx.reservations)
    requires PassEffect(pass, plan.measured(pass), ctx.reservations, placed, spots, deferred, placed', spots',
                        deferred')
    requires PassRegions(sorted, deferred, plan.measured(pass), pass)
    requires SweptFor(swept, sorted, placed, ctx.reservations) && Landed(sorted, |sorted|, swept, spots')
    ensures Resolved(sol, spots0, plan.measured, ctx, placed', spots', deferred')
    ensures forall k | k in deferred' :: k in deferred && PassFor(k) != pass
    ensures OnPlan(room, plan, placed', spots', deferred', ctx)
  {
    hide Roomy, Sound, WithinPlan, PassFor, Resolved, DeferredKnown, Separated, PassEffect, PassRegions, SweptFor,
         Landed, WellPlaced, AllInside, DeferredCanonical;
    ResolvedStep(sol, spots0, plan.measured, ctx, pass, placed, spots, deferred, placed', spots', deferred');
    DeferredShrinks(pass, plan.measured(pass), ctx.reservations, placed, spots, deferred, placed', spots', deferred');
    ResolvedDeferred(sol, spots0, plan.measured, ctx, placed, spots, deferred);
    OldKeysSame(placed', spots', ctx);
    if room {
      StaysWithinPlan(plan, plan.deferred.Keys - deferred.Keys, deferred, pass, ctx, sorted, swept, placed, spots,
                      placed', spots', deferred');
    }
  }

  lemma {:induction false} ContextReservations(requests: seq<Request>, reservations: Reservations)
    ensures ContextOf(requests, reservations).reservations == reservations
    ensures ContextOf(requests, reservations).groupOf == GroupOf(requests, |requests|)
  {
  }

  lemma SolvedKeys(requests: seq<Request>, sol: Solution, spots: Spots, ctx: Context)
    requires Solved(requests, sol, spots, ctx)
    ensures sol.placed.Keys == spots.Keys
  {
  }

  lemma BoundIsWithin(plan: Plan, requests: seq<Request>, groups: map<string, SharedGroup>, measured: Pass -> Measured,
                      spots: Spots)
    requires plan == PlanFor(requests, groups, measured) && SpotsBound(spots, groups, FixedOf(requests))
    ensures WithinPlan(plan, {}, spots)
  {
    hide PlaceKey, GroupsNeed, FixedNeed, FixedOf, DeferredOf;
    assert forall pk :: DeferredNeed(plan, {}, pk) == 0;
  }

  lemma PlanRoomy(requests: seq<Request>, reservations: Reservations, measured: Pass -> Measured,
                  groups: map<string, SharedGroup>)
    requires Buildable(requests, reservations, measured) && AreGroups(requests, groups) && DistinctKeys(requests)
    ensures var plan := PlanFor(requests, groups, measured);
            Roomy(plan, reservations) && forall k | k in plan.deferred && k.1 == "code" ::
                k in plan.measured(PassFor(k))
  {
    hide Clash, FixedOf, Roomy, PassFor, AreGroups;
    var plan := PlanFor(requests, groups, measured);
    forall k | k in plan.deferred && k.1 == "code" ensures k in plan.measured(PassFor(k)) {
      var i :| 0 <= i < |requests| && requests[i].0 == k && Awaits(requests[i]) && requests[i].1 == plan.deferred[k];
    }
  }

  /** Where a solved spot comes from. A spot is only ever made where placement succeeded, so its place resolves. */
  lemma {:induction false} SolvedSpot(requests: seq<Request>, sol: Solution, spots: Spots, ctx: Context, k: RegionKey)
    requires Solved(requests, sol, spots, ctx) && DistinctKeys(requests) && Agreeing(requests) && k in spots
    requires AllKnown(spots, ctx) && ctx.groupOf == GroupOf(requests, |requests|)
    ensures spots[k].place in ctx.places && Resolves(spots[k].place) && spots[k].Canonical()
  {
    hide NoDup, PlaceKey, PairwiseApart, PackedLargestFirst, SameFate, IsCpuMapped, AlignedTo, IsPow2, Resolves,
         SharedMatches, TargetBase, SameGroup;
    var i :| 0 <= i < |requests| && requests[i].0 == k;
    assert Settled(requests[i], sol, spots, ctx.reservations);
    if requests[i].1.shared.Some? {
      GroupOfAll(requests, |requests|, i);
      DataIsCanonical(spots[k].place);
    }
  }

  lemma ResolvedDeferred(sol: Solution, spots0: Spots, measured: Pass -> Measured, ctx: Context,
                         placed: map<RegionKey, Allocation>, spots: Spots, deferred: Deferred)
    requires Resolved(sol, spots0, measured, ctx, placed, spots, deferred)
    ensures forall k | k in deferred :: k in sol.deferred && sol.deferred[k] == deferred[k]
  {
  }

  lemma {:induction false} CanonicalAligned(s: Spot, align: nat)
    requires AlignedTo(s, align) && s.Canonical()
    ensures s.Key() <= s.start && Aligned(s.Alloc().base, align)
  {
    hide Aligned, PlaceKey, TargetBase;
    var shift := WindowShift(s.place, s.execute);
    assert shift == 0;
    assert 0 % align == 0;
  }

  lemma FinishedAligned(requests: seq<Request>, i: nat, sol: Solution, spots: Spots, measured: Pass -> Measured,
                        ctx: Context)
    requires i < |requests| && Finished(requests[i], sol, spots, measured, ctx.reservations) && Agreeing(requests)
    requires WellPlaced(sol.placed, spots, ctx) && AllCanonical(spots)
    ensures requests[i].0 in sol.placed ==> AddressAligned(requests[i].1, sol.placed[requests[i].0])
  {
    hide PlaceKey, Resolves, TargetBase, IsPow2, AlignedTo, Aligned, PassFor, IsCpuMapped, CursorEnd;
    var (k, req) := requests[i];
    if k in sol.placed && IsPow2(AlignFor(req)) && (sol.placed[k].size > 0 || (req.shared.None? && req.size.Some?))
       && (req.shared.None? || req.align.Some?) {
      assert k in spots && spots[k].size == sol.placed[k].size;
      assert spots[k].Canonical();
      CanonicalAligned(spots[k], AlignFor(req));
    }
  }

  lemma SolvedIsPlaced(requests: seq<Request>, sol: Solution, spots: Spots, ctx: Context)
    requires Solved(requests, sol, spots, ctx)
    ensures WellPlaced(sol.placed, spots, ctx) && PairwiseApart(spots, ctx.groupOf)
  {
  }

  lemma ResolvedStart(sol: Solution, spots0: Spots, measured: Pass -> Measured, ctx: Context)
    requires WellPlaced(sol.placed, spots0, ctx)
    ensures Resolved(sol, spots0, measured, ctx, sol.placed, spots0, sol.deferred)
  {
  }

  lemma DeferredShrinks(pass: Pass, measured: Measured, reservations: Reservations,
                        placed0: map<RegionKey, Allocation>, spots0: Spots, deferred0: Deferred,
                        placed: map<RegionKey, Allocation>, spots: Spots, deferred: Deferred)
    requires PassEffect(pass, measured, reservations, placed0, spots0, deferred0, placed, spots, deferred)
    ensures forall k | k in deferred :: k in deferred0 && PassFor(k) != pass
  {
    hide PassFor, InPass, RegionHonoured, Apart, Below;
    forall k | k in deferred ensures PassFor(k) != pass { PassForIs(k, pass); }
  }

  lemma ThreePasses()
    ensures forall k :: PassFor(k) in {Tasks, Kernel, Bootloader}
  {
  }

  lemma NothingDeferred(deferred: Deferred)
    requires forall k | k in deferred :: PassFor(k) in {}
    ensures deferred == map[]
  {
  }

  lemma FinishedOnce(req: Request, sol: Solution, spots: Spots, measured: Pass -> Measured, reservations: Reservations)
    requires Finished(req, sol, spots, measured, reservations)
    ensures req.0 in sol.placed <==> req.0 !in sol.aclOnly
  {
  }

  lemma FinishedHolds(requests: seq<Request>, sol: Solution, spots0: Spots, measured: Pass -> Measured, ctx: Context,
                      final: Solution, spots: Spots, req: Request)
    requires req in requests && Solved(requests, sol, spots0, ctx)
    requires Resolved(sol, spots0, measured, ctx, final.placed, spots, final.deferred)
    requires final.deferred == map[] && final.aclOnly == sol.aclOnly
    ensures Finished(req, final, spots, measured, ctx.reservations)
  {
    hide NoDup, PlaceKey, PairwiseApart, PackedLargestFirst, SameFate, IsCpuMapped, AlignedTo, IsPow2, Resolves,
         SharedMatches, SameGroup, GroupsAreData, RegionHonoured, RegionFor, PassFor, WellPlaced, DeferredHonoured;
    assert Settled(req, sol, spots0, ctx.reservations);
    MappedIs(req.1);
    if req.1.shared.None? && Mapped(req.1) && req.1.size.None? {
      RegionIsDeferred(req, final.placed, spots, measured(PassFor(req.0)), ctx.reservations);
    }
  }

  lemma MappedIs(req: RegionRequest)
    ensures Mapped(req) <==> req.place.Some? && !req.place.value.unmapped && req.place.value.mappings != []
  {
  }

  // --- From the configuration -----------------------------------------------------

  /**
   What a board's configuration has to say: places are not empty; mappings at different addresses do not meet;
   and places in one mapping have the same offset and size, or offset ranges apart.
   */
  ghost predicate Partitioned(places: set<Place>) {
    && (forall p | p in places :: p.size > 0)
    && forall p, q, m, n | p in places && q in places && m in p.mappings && n in q.mappings && HoldsPlace(p, m)
         && HoldsPlace(q, n) :: WindowsFit(p, m, q, n)
  }

  predicate WindowsFit(p: Place, m: Mapping, q: Place, n: Mapping) {
    var o, r := p.offset.GetOr(0), q.offset.GetOr(0);
    if m.address != n.address then m.address + m.size <= n.address || n.address + n.size <= m.address
    else if o == r then p.size == q.size
    else o + p.size <= r || r + q.size <= o
  }

  /** The place fits into mappings at one address only. */
  ghost predicate OneWindow(place: Place) {
    forall m, n | m in place.mappings && n in place.mappings && HoldsPlace(place, m) && HoldsPlace(place, n) ::
      m.address == n.address
  }

  /** Such places are separate in the address space, and equal only where the configuration repeats them. */
  lemma PartitionedIsSeparated(places: set<Place>)
    requires Partitioned(places)
    ensures Separated(places) && Consistent(places)
  {
    hide ResolveCpuAddress, HoldsPlace;
    forall p, q | p in places && q in places && Resolves(p) && Resolves(q)
      ensures PlaceKey(p) == PlaceKey(q) ==> p.size == q.size
      ensures PlaceKey(p) != PlaceKey(q) ==>
                PlaceKey(p) + p.size <= PlaceKey(q) || PlaceKey(q) + q.size <= PlaceKey(p)
    {
      var m := ResolvesInto(p, false);
      var n := ResolvesInto(q, false);
      assert WindowsFit(p, m, q, n);
      InMapping(p, m);
      InMapping(q, n);
    }
  }

  lemma InMapping(p: Place, m: Mapping)
    requires HoldsPlace(p, m)
    ensures m.address + p.offset.GetOr(0) + p.size <= m.address + m.size
  {
  }

  /** A place with one window resolves to it for data and for code. */
  lemma OneWindowAgrees(place: Place, execute: bool)
    requires OneWindow(place)
    ensures TargetBase(place, execute) == PlaceKey(place)
  {
    hide ResolveCpuAddress;
    ResolveAgreesOnSuccess(place);
    if ResolveCpuAddress(place, execute).Some? {
      var m := ResolvesInto(place, execute);
      var n := ResolvesInto(place, false);
    }
  }

  /** What `BuildLayout` asks of the places, read off the configuration. */
  lemma ConfigurationClear(requests: seq<Request>)
    requires Partitioned(PlacesOf(requests)) && forall p | p in PlacesOf(requests) :: OneWindow(p)
    ensures Separated(PlacesOf(requests)) && Consistent(PlacesOf(requests)) && Agreeing(requests)
  {
    hide ResolveCpuAddress, Partitioned, OneWindow, Separated, Consistent, TargetBase, PlaceKey;
    PartitionedIsSeparated(PlacesOf(requests));
    forall i | 0 <= i < |requests| && requests[i].1.place.Some?
      ensures TargetBase(requests[i].1.place.value, requests[i].1.execute) == PlaceKey(requests[i].1.place.value)
    {
      OneWindowAgrees(requests[i].1.place.value, requests[i].1.execute);
    }
  }

  /** The trailer at the end of every image place stays free of regions, in whichever window they are handed out. */
  lemma TrailersStayFree(sol: Solution, spots: Spots, ctx: Context, k: RegionKey)
    requires WellPlaced(sol.placed, spots, ctx) && k in spots && spots[k].size > 0
    requires PlaceKey(spots[k].place) in ctx.reservations
             && ctx.reservations[PlaceKey(spots[k].place)] == PLCB_TRAILER_RESERVATION
    ensures var s := spots[k];
            && TargetBase(s.place, s.execute) <= sol.placed[k].base
            && sol.placed[k].base + sol.placed[k].size + 1024 <= TargetBase(s.place, s.execute) + s.place.size
  {
    hide PlaceKey, TargetBase, Resolves;
    assert spots[k].Inside(ctx.reservations) && sol.placed[k] == spots[k].Alloc();
  }
}
