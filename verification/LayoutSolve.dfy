/** The first solving pass over all requests, and what it promises about each of them. */
module LayoutSolve {
  import opened Wrappers
  import opened BitOps
  import opened LayoutCursors
  import opened LayoutSolver
  import StableSort

  datatype Solution = Solution(
    placed: map<RegionKey, Allocation>, deferred: map<RegionKey, RegionRequest>, aclOnly: seq<RegionKey>)

  // --- The context a request list determines -----------------------------------

  ghost function PlacesOf(requests: seq<Request>): set<Place> {
    set i | 0 <= i < |requests| && requests[i].1.place.Some? :: requests[i].1.place.value
  }

  ghost function GroupOf(requests: seq<Request>, n: nat): (m: map<RegionKey, string>)
    requires n <= |requests|
    ensures forall k | k in m :: exists i :: 0 <= i < n && requests[i].0 == k && InGroup(requests[i], m[k])
  {
    if n == 0 then map[]
    else
      var m := GroupOf(requests, n - 1);
      if requests[n - 1].1.shared.Some? then m[requests[n - 1].0 := requests[n - 1].1.shared.value] else m
  }

  lemma {:induction false} GroupOfAll(requests: seq<Request>, n: nat, i: nat)
    requires n <= |requests| && DistinctKeys(requests) && i < n
    ensures requests[i].1.shared.Some? ==>
              requests[i].0 in GroupOf(requests, n) && GroupOf(requests, n)[requests[i].0] == requests[i].1.shared.value
    ensures requests[i].1.shared.None? ==> requests[i].0 !in GroupOf(requests, n)
  {
    var m := GroupOf(requests, n - 1);
    assert GroupOf(requests, n) ==
        if requests[n - 1].1.shared.Some? then m[requests[n - 1].0 := requests[n - 1].1.shared.value] else m;
    hide GroupOf;
    if i < n - 1 {
      GroupOfAll(requests, n - 1, i);
    }
  }

  ghost function ContextOf(requests: seq<Request>, reservations: Reservations): Context {
    Context(PlacesOf(requests), GroupOf(requests, |requests|), reservations)
  }

  lemma GroupsAreKnown(requests: seq<Request>, groups: map<string, SharedGroup>, reservations: Reservations)
    requires DistinctKeys(requests)
    requires forall g | g in groups :: Merged(requests, |requests|, g, groups[g])
    ensures GroupsKnown(groups, ContextOf(requests, reservations))
  {
    var ctx := ContextOf(requests, reservations);
    forall g | g in groups
      ensures NoDup(groups[g].members)
      ensures groups[g].place.Some? ==> groups[g].place.value in ctx.places
      ensures forall k | k in groups[g].members :: k in ctx.groupOf && ctx.groupOf[k] == g
    {
      MembersDistinct(requests, |requests|, g);
      forall k | k in groups[g].members ensures k in ctx.groupOf && ctx.groupOf[k] == g {
        var i :| 0 <= i < |requests| && InGroup(requests[i], g) && requests[i].0 == k;
        GroupOfAll(requests, |requests|, i);
      }
    }
  }

  // --- Sorting the fixed regions -------------------------------------------------

  function FixedOf(requests: seq<Request>): seq<Request> {
    StableSort.Sort(StableSort.Filter(requests, IsFixed), LargestFirst)
  }

  lemma FixedOfFacts(requests: seq<Request>)
    requires DistinctKeys(requests)
    ensures DistinctKeys(FixedOf(requests))
    ensures StableSort.Sorted(FixedOf(requests), LargestFirst)
    ensures forall r :: r in FixedOf(requests) <==> r in requests && IsFixed(r)
  {
    var kept := StableSort.Filter(requests, IsFixed);
    var fixed := FixedOf(requests);
    assert forall i, j | 0 <= i < j < |requests| :: requests[i] != requests[j];
    StableSort.FilterKeepsDistinct(requests, IsFixed);
    StableSort.SortKeepsDistinct(kept, LargestFirst);
    StableSort.SortMembers(kept, LargestFirst);
    StableSort.SortSorts(kept, LargestFirst);
    forall i, j | 0 <= i < j < |fixed| ensures fixed[i].0 != fixed[j].0 {
      assert fixed[i] in fixed && fixed[j] in fixed && fixed[i] != fixed[j];
      DifferentRequestsDifferentKeys(requests, fixed[i], fixed[j]);
    }
  }

  lemma DifferentRequestsDifferentKeys(requests: seq<Request>, a: Request, b: Request)
    requires DistinctKeys(requests) && a in requests && b in requests && a != b
    ensures a.0 != b.0
  {
  }

  // --- Deferring what the linker sizes -------------------------------------------

  predicate IsDeferred(req: Request) {
    req.1.shared.None? && req.1.size.None?
  }

  ghost predicate DeferDone(requests: seq<Request>, n: nat, acl0: seq<RegionKey>,
                            deferred: map<RegionKey, RegionRequest>, acl: seq<RegionKey>)
    requires n <= |requests|
  {
    && (forall k | k in deferred :: exists i :: 0 <= i < n && requests[i].0 == k)
    && (forall k | k in acl :: k in acl0 || exists i :: 0 <= i < n && IsDeferred(requests[i]) && requests[i].0 == k)
    && (forall k | k in acl0 :: k in acl)
    && (forall i | 0 <= i < n && IsDeferred(requests[i]) ::
          && requests[i].1.place.Some?
          && if Mapped(requests[i].1) then requests[i].0 in deferred && requests[i].0 !in acl
             else requests[i].0 in acl && requests[i].0 !in deferred)
    && (forall i | 0 <= i < n && requests[i].0 in deferred ::
          IsDeferred(requests[i]) && Mapped(requests[i].1) && deferred[requests[i].0] == requests[i].1)
    && NoDup(acl)
  }

  /** Regions without a size wait for the linker; those in driver-only places become ACL entries. */
  method SplitDeferred(requests: seq<Request>, acl0: seq<RegionKey>)
    returns (r: Result<(map<RegionKey, RegionRequest>, seq<RegionKey>), LayoutError>)
    requires DistinctKeys(requests) && NoDup(acl0)
    requires forall i | 0 <= i < |requests| && IsDeferred(requests[i]) :: requests[i].0 !in acl0
    ensures r.Success? ==> DeferDone(requests, |requests|, acl0, r.value.0, r.value.1)
    ensures r.Failure? <==> exists i :: 0 <= i < |requests| && IsDeferred(requests[i]) && requests[i].1.place.None?
    ensures r.Failure? ==> r.error == Panicked
  {
    var deferred: map<RegionKey, RegionRequest> := map[];
    var acl := acl0;
    for n := 0 to |requests|
      invariant DeferDone(requests, n, acl0, deferred, acl)
      invariant forall i | 0 <= i < n && IsDeferred(requests[i]) :: requests[i].1.place.Some?
    {
      var (key, req) := requests[n];
      if req.shared.None? && req.size.None? {
        if req.place.None? { return Failure(Panicked); }
        if IsCpuMapped(req.place.value) {
          DeferStep(requests, n, acl0, deferred, acl);
          deferred := deferred[key := req];
        } else {
          DeferStep(requests, n, acl0, deferred, acl);
          acl := acl + [key];
        }
      }
    }
    r := Success((deferred, acl));
  }

  lemma DeferStep(requests: seq<Request>, n: nat, acl0: seq<RegionKey>, deferred: map<RegionKey, RegionRequest>,
                  acl: seq<RegionKey>)
    requires DistinctKeys(requests) && n < |requests| && DeferDone(requests, n, acl0, deferred, acl)
    requires IsDeferred(requests[n]) && requests[n].1.place.Some? && requests[n].0 !in acl0
    ensures Mapped(requests[n].1) ==> DeferDone(requests, n + 1, acl0, deferred[requests[n].0 := requests[n].1], acl)
    ensures !Mapped(requests[n].1) ==> DeferDone(requests, n + 1, acl0, deferred, acl + [requests[n].0])
  {
    hide PlaceKey, IsCpuMapped;
    var key := requests[n].0;
    assert key !in acl && key !in deferred;
    if !Mapped(requests[n].1) {
      NoDupConcat(acl, [key]);
      assert forall k | k in acl + [key] :: k in acl || k == key;
    }
  }

  // --- The solver -----------------------------------------------------------------

  /** A placed member sits where each field it specified says. */
  ghost predicate SharedMatches(req: RegionRequest, s: Spot) {
    && !s.execute
    && (req.place.Some? ==> PlaceKey(s.place) == PlaceKey(req.place.value))
    && (req.size.Some? ==> s.size == req.size.value)
    && (req.align.Some? && IsPow2(req.align.value) ==> AlignedTo(s, req.align.value))
  }

  predicate ExactlyOne(key: RegionKey, sol: Solution) {
    || (key in sol.placed && key !in sol.deferred && key !in sol.aclOnly)
    || (key !in sol.placed && key in sol.deferred && key !in sol.aclOnly)
    || (key !in sol.placed && key !in sol.deferred && key in sol.aclOnly)
  }

  /** The one place a request ends up in, and what holds of it there. */
  ghost predicate Settled(req: Request, sol: Solution, spots: Spots, reservations: Reservations) {
    && ExactlyOne(req.0, sol)
    && if req.1.shared.Some? then
         req.0 !in sol.deferred && (req.0 in sol.placed ==> req.0 in spots && SharedMatches(req.1, spots[req.0]))
       else
         && req.1.place.Some?
         && if !Mapped(req.1) then req.0 in sol.aclOnly
            else if req.1.size.Some? then FixedHonoured(req, sol.placed, spots, reservations)
            else req.0 in sol.deferred && sol.deferred[req.0] == req.1
  }

  ghost predicate SameFate(k: RegionKey, l: RegionKey, sol: Solution) {
    if k in sol.placed then l in sol.placed && sol.placed[k] == sol.placed[l]
    else l !in sol.placed && k in sol.aclOnly && l in sol.aclOnly
  }

  /** Every nonempty region lies inside its place at the address its spot says. */
  ghost predicate WellPlaced(placed: map<RegionKey, Allocation>, spots: Spots, ctx: Context) {
    && placed.Keys == spots.Keys
    && forall k | k in spots ::
         && placed[k].size == spots[k].size
         && (spots[k].size > 0 ==>
               spots[k].place in ctx.places && spots[k].Inside(ctx.reservations) && placed[k] == spots[k].Alloc())
  }

  /** Every region of a place that resolves, empty or not, lies inside it. */
  ghost predicate AllInside(placed: map<RegionKey, Allocation>, spots: Spots, reservations: Reservations) {
    forall k | k in spots && Resolves(spots[k].place) ::
      k in placed && spots[k].Inside(reservations) && placed[k] == spots[k].Alloc()
  }

  /** Larger private regions of a place come first. */
  ghost predicate PackedLargestFirst(requests: seq<Request>, spots: Spots) {
    forall a, b | a in requests && b in requests && IsFixed(a) && IsFixed(b) && Mapped(a.1) && Mapped(b.1)
                  && PlaceKey(a.1.place.value) == PlaceKey(b.1.place.value) && a.1.size.value > b.1.size.value
                  && a.0 in spots && b.0 in spots ::
      spots[a.0].start + spots[a.0].size <= spots[b.0].start
  }

  ghost predicate Solved(requests: seq<Request>, sol: Solution, spots: Spots, ctx: Context) {
    && (forall i | 0 <= i < |requests| :: Settled(requests[i], sol, spots, ctx.reservations))
    && (forall k | k in sol.placed || k in sol.deferred || k in sol.aclOnly ::
        exists i :: 0 <= i < |requests| && requests[i].0 == k)
    && NoDup(sol.aclOnly)
    && (forall k, l | SameGroup(ctx.groupOf, k, l) :: SameFate(k, l, sol))
    && WellPlaced(sol.placed, spots, ctx)
    && PairwiseApart(spots, ctx.groupOf)
    && PackedLargestFirst(requests, spots)
    && GroupsAreData(spots, ctx)
  }

  /** Shared regions are never handed out in executable addresses. */
  ghost predicate GroupsAreData(spots: Spots, ctx: Context) {
    forall k | k in spots && k in ctx.groupOf :: !spots[k].execute
  }

  ghost predicate AreGroups(requests: seq<Request>, groups: map<string, SharedGroup>) {
    groups.Keys == GroupNames(requests, |requests|) && forall g | g in groups ::
        Merged(requests, |requests|, g, groups[g])
  }

  /**
   What a caller can check beforehand: group members agree, private regions have a place, and every
   place has room for the sizes and paddings asked of it.
   */
  ghost predicate Solvable(requests: seq<Request>, reservations: Reservations) {
    && (forall i, j | 0 <= i < j < |requests| :: !Clash(requests[i], requests[j]))
    && (forall i | 0 <= i < |requests| && requests[i].1.shared.None? :: requests[i].1.place.Some?)
    && (forall groups | AreGroups(requests, groups) ::
          SharedRoom(groups, reservations) && FixedRoom(groups, FixedOf(requests), reservations))
  }

  /** No spot ends behind what the groups and fixed regions of its place need together. */
  ghost predicate SpotsBound(spots: Spots, groups: map<string, SharedGroup>, fixed: seq<Request>) {
    forall k | k in spots ::
      var pk := spots[k].Key();
      spots[k].start + spots[k].size <= pk + GroupsNeed(groups, groups.Keys, pk) + FixedNeed(fixed, |fixed|, pk)
  }

  /** Every spot is in a place that some request named and that resolves. */
  ghost predicate AllKnown(spots: Spots, ctx: Context) {
    forall k | k in spots :: spots[k].place in ctx.places && Resolves(spots[k].place)
  }

  lemma PackedIsBound(placed: map<RegionKey, Allocation>, spots: Spots, cursors: CursorMap, ctx: Context,
                      groups: map<string, SharedGroup>, fixed: seq<Request>)
    requires Packed(placed, spots, cursors, ctx) && FixedBound(groups, fixed, |fixed|, cursors)
    ensures SpotsBound(spots, groups, fixed) && AllInside(placed, spots, ctx.reservations) && AllKnown(spots, ctx)
  {
    hide PlaceKey, GroupsNeed, FixedNeed, Resolves, PairwiseApart, CursorsMatch;
  }

  /** What a failure names: the request, or the group of requests, that is at fault. */
  ghost predicate SolveBlames(requests: seq<Request>, e: LayoutError) {
    match e
    case SharedConflict(_, _) => Blamed(requests, e)
    case SharedMissing(g) =>
      && g in GroupNames(requests, |requests|)
      && (|| (forall i | 0 <= i < |requests| && InGroup(requests[i], g) :: requests[i].1.place.None?)
          || (forall i | 0 <= i < |requests| && InGroup(requests[i], g) :: requests[i].1.size.None?))
    case OutOfSpace(key) =>
      || (key.1 in GroupNames(requests, |requests|) && key.0 == "shared:" + key.1)
      || (exists i :: 0 <= i < |requests| && requests[i].0 == key && IsFixed(requests[i]) && Mapped(requests[i].1))
    case DeferredNotMeasured(_) => false
    case Panicked => true
  }

  lemma GroupLacks(requests: seq<Request>, groups: map<string, SharedGroup>, g: string)
    requires AreGroups(requests, groups) && g in groups && (groups[g].place.None? || groups[g].size.None?)
    ensures SolveBlames(requests, SharedMissing(g))
  {
    hide PlaceKey, Members;
    assert Merged(requests, |requests|, g, groups[g]);
  }

  lemma FixedBlamed(requests: seq<Request>, fixed: seq<Request>, e: LayoutError)
    requires forall r | r in fixed :: r in requests && IsFixed(r)
    requires e != Panicked ==>
               e.OutOfSpace? && exists i :: 0 <= i < |fixed| && fixed[i].0 == e.key && Mapped(fixed[i].1)
    ensures SolveBlames(requests, e)
  {
    hide Mapped;
    if e != Panicked {
      var i :| 0 <= i < |fixed| && fixed[i].0 == e.key && Mapped(fixed[i].1);
      assert fixed[i] in fixed;
      var j :| 0 <= j < |requests| && requests[j] == fixed[i];
    }
  }

  lemma ConflictBlamed(requests: seq<Request>, e: LayoutError)
    requires Blamed(requests, e)
    ensures SolveBlames(requests, e)
  {
  }

  lemma SharedBlamed(requests: seq<Request>, groups: map<string, SharedGroup>, e: LayoutError)
    requires AreGroups(requests, groups)
    requires match e
             case SharedMissing(g) => g in groups && (groups[g].place.None? || groups[g].size.None?)
             case OutOfSpace(key) => key.1 in groups && key.0 == "shared:" + key.1
             case _ => e == Panicked
    ensures SolveBlames(requests, e)
  {
    hide Merged;
    if e.SharedMissing? { GroupLacks(requests, groups, e.group); }
  }

  /** Solves the layout of every region whose size is known before linking, and succeeds on every solvable one. */
  method Solve(requests: seq<Request>, reservations: Reservations)
    returns (r: Result<Solution, LayoutError>, ghost spots: Spots, ghost merged: map<string, SharedGroup>)
    requires DistinctKeys(requests) && Consistent(PlacesOf(requests))
    ensures r.Success? ==> Solved(requests, r.value, spots, ContextOf(requests, reservations))
    ensures r.Success? ==>
            AllInside(r.value.placed, spots, reservations) && AllKnown(spots, ContextOf(requests, reservations))
    ensures r.Success? ==> AreGroups(requests, merged) && SpotsBound(spots, merged, FixedOf(requests))
    ensures Solvable(requests, reservations) ==> r.Success?
    ensures r.Failure? ==> SolveBlames(requests, r.error)
  {
    hide SolveBlames, Solved, Merged, Clash, Blamed, DistinctKeys, Consistent, GroupsKnown, SharedRoom, FixedRoom,
         SharedBound, FixedBound, Packed, GroupDone, AllInside, AllKnown, SpotsBound, DeferDone, FixedHonoured, InOrder,
         GroupOf, PlacesOf, FixedOf, IsFixed, Mapped, PlaceKey, NoDup;
    spots, merged := map[], map[];
    ghost var ctx := ContextOf(requests, reservations);
    var coalesced := CoalesceShared(requests);
    if coalesced.Failure? {
      ConflictBlamed(requests, coalesced.error);
      return Failure(coalesced.error), spots, merged;
    }
    var groups := coalesced.value;
    assert AreGroups(requests, groups);
    merged := groups;
    GroupsAreKnown(requests, groups, reservations);
    var shared, spots1 := AllocateShared(groups, reservations, ctx);
    if shared.Failure? {
      SharedBlamed(requests, groups, shared.error);
      return Failure(shared.error), spots, merged;
    }
    var fixed := FixedOf(requests);
    FixedOfFacts(requests);
    FixedInputHolds(requests, groups, fixed, shared.value, spots1, ctx);
    var rest, spots2 := AllocateFixed(fixed, shared.value, reservations, ctx, spots1, groups);
    if rest.Failure? {
      FixedBlamed(requests, fixed, rest.error);
      return Failure(rest.error), spots, merged;
    }
    DeferInputHolds(requests, groups, fixed, shared.value, spots1, rest.value, spots2, ctx);
    var split := SplitDeferred(requests, rest.value.aclOnly);
    if split.Failure? {
      FixedBlamed(requests, fixed, split.error);
      return Failure(split.error), spots, merged;
    }
    spots := spots2;
    FixedPacked(fixed, shared.value, spots1, rest.value, spots2, ctx);
    PackedIsBound(rest.value.placed, spots2, rest.value.cursors, ctx, groups, fixed);
    r := Success(Solution(rest.value.placed, split.value.0, split.value.1));
    SolvedHolds(requests, groups, fixed, shared.value, spots1, rest.value, spots2, r.value, ctx);
  }

  lemma FixedPacked(fixed: seq<Request>, start: Progress, spots0: Spots, p: Progress, spots: Spots, ctx: Context)
    requires FixedDone(fixed, |fixed|, start, spots0, p, spots, ctx)
    ensures Packed(p.placed, spots, p.cursors, ctx)
  {
  }

  /** The group's members are exactly the requests that name it. */
  lemma MemberKeysAre(requests: seq<Request>, groups: map<string, SharedGroup>, k: RegionKey)
    requires DistinctKeys(requests)
    requires groups.Keys == GroupNames(requests, |requests|)
    requires forall g | g in groups :: Merged(requests, |requests|, g, groups[g])
    ensures k in MemberKeys(groups, groups.Keys) <==>
            exists i :: 0 <= i < |requests| && requests[i].0 == k && requests[i].1.shared.Some?
  {
    if k in MemberKeys(groups, groups.Keys) {
      var g :| g in groups && k in groups[g].members;
      var i :| 0 <= i < |requests| && InGroup(requests[i], g) && requests[i].0 == k;
    }
    forall i | 0 <= i < |requests| && requests[i].0 == k && requests[i].1.shared.Some?
      ensures k in MemberKeys(groups, groups.Keys)
    {
      var g := requests[i].1.shared.value;
      assert g in groups && InGroup(requests[i], g);
      assert k in groups[g].members;
    }
  }

  ghost predicate Grouped(requests: seq<Request>, groups: map<string, SharedGroup>, fixed: seq<Request>) {
    && DistinctKeys(requests)
    && groups.Keys == GroupNames(requests, |requests|)
    && (forall g | g in groups :: Merged(requests, |requests|, g, groups[g]))
    && DistinctKeys(fixed)
    && StableSort.Sorted(fixed, LargestFirst)
    && (forall r :: r in fixed <==> r in requests && IsFixed(r))
  }

  /** A private request's key is no group member's key. */
  lemma PrivateNotMember(requests: seq<Request>, groups: map<string, SharedGroup>, fixed: seq<Request>, req: Request)
    requires Grouped(requests, groups, fixed) && req in requests && req.1.shared.None?
    ensures req.0 !in MemberKeys(groups, groups.Keys)
  {
    MemberKeysAre(requests, groups, req.0);
  }

  lemma FixedInputHolds(requests: seq<Request>, groups: map<string, SharedGroup>, fixed: seq<Request>, shared: Progress,
                        spots1: Spots, ctx: Context)
    requires Grouped(requests, groups, fixed) && SharedDone(groups, groups.Keys, shared, spots1, ctx)
    requires ctx.places == PlacesOf(requests) && Consistent(ctx.places)
    ensures FixedInput(fixed, shared, ctx)
  {
    hide Packed, GroupDone, NoDup, Consistent, MemberKeys, PlaceKey;
    forall i | 0 <= i < |fixed|
      ensures IsFixed(fixed[i]) && (fixed[i].1.place.Some? ==> fixed[i].1.place.value in ctx.places)
      ensures fixed[i].0 !in shared.placed && fixed[i].0 !in shared.aclOnly
    {
      assert fixed[i] in fixed && fixed[i] in requests;
      PrivateNotMember(requests, groups, fixed, fixed[i]);
    }
  }

  lemma DeferInputHolds(requests: seq<Request>, groups: map<string, SharedGroup>, fixed: seq<Request>, shared: Progress,
                        spots1: Spots, rest: Progress, spots2: Spots, ctx: Context)
    requires Grouped(requests, groups, fixed) && SharedDone(groups, groups.Keys, shared, spots1, ctx)
    requires FixedDone(fixed, |fixed|, shared, spots1, rest, spots2, ctx)
    ensures forall i | 0 <= i < |requests| && IsDeferred(requests[i]) ::
            requests[i].0 !in rest.aclOnly && requests[i].0 !in rest.placed
  {
    hide Packed, GroupDone, NoDup, MemberKeys, PlaceKey, InOrder, FixedHonoured;
    forall i | 0 <= i < |requests| && IsDeferred(requests[i])
      ensures requests[i].0 !in rest.aclOnly && requests[i].0 !in rest.placed
    {
      PrivateNotMember(requests, groups, fixed, requests[i]);
      forall j | 0 <= j < |fixed| ensures fixed[j].0 != requests[i].0 {
        assert fixed[j] in fixed;
        DifferentRequestsDifferentKeys(requests, fixed[j], requests[i]);
      }
    }
  }

  ghost predicate Staged(requests: seq<Request>, groups: map<string, SharedGroup>, fixed: seq<Request>,
                         shared: Progress, spots1: Spots, rest: Progress, spots2: Spots, sol: Solution, ctx: Context) {
    && Grouped(requests, groups, fixed)
    && SharedDone(groups, groups.Keys, shared, spots1, ctx)
    && FixedDone(fixed, |fixed|, shared, spots1, rest, spots2, ctx)
    && DeferDone(requests, |requests|, rest.aclOnly, sol.deferred, sol.aclOnly)
    && sol.placed == rest.placed
  }

  /** Where the key of each kind of request is after the first two stages. */
  lemma StageKeys(requests: seq<Request>, groups: map<string, SharedGroup>, fixed: seq<Request>, shared: Progress,
                  spots1: Spots, rest: Progress, spots2: Spots, sol: Solution, ctx: Context, req: Request)
    requires Staged(requests, groups, fixed, shared, spots1, rest, spots2, sol, ctx) && req in requests
    ensures req.1.shared.Some? ==>
              && (req.0 in shared.placed || req.0 in shared.aclOnly)
              && (req.0 in rest.placed <==> req.0 in shared.placed)
                  && (req.0 in rest.aclOnly <==> req.0 in shared.aclOnly)
    ensures IsFixed(req) ==>
              && req.0 !in shared.placed && req.0 !in shared.aclOnly
              && (req.0 in rest.placed <==> Mapped(req.1)) && (req.0 in rest.aclOnly <==> !Mapped(req.1))
    ensures IsDeferred(req) ==> req.0 !in rest.placed && req.0 !in rest.aclOnly
  {
    hide Packed, GroupDone, NoDup, MemberKeys, PlaceKey, InOrder, FixedHonoured, Merged, IsCpuMapped, DeferDone;
    MemberKeysAre(requests, groups, req.0);
    if req.1.shared.None? { PrivateNotMember(requests, groups, fixed, req); }
    if IsDeferred(req) {
      DeferInputHolds(requests, groups, fixed, shared, spots1, rest, spots2, ctx);
    } else if req.1.shared.Some? {
      forall j | 0 <= j < |fixed| ensures fixed[j].0 != req.0 {
        assert fixed[j] in fixed;
        DifferentRequestsDifferentKeys(requests, fixed[j], req);
      }
    } else {
      var i :| 0 <= i < |fixed| && fixed[i] == req;
      assert req.0 in KeysOf(fixed, |fixed|, Mapped(req.1));
      assert req.0 !in KeysOf(fixed, |fixed|, !Mapped(req.1));
    }
  }

  /** The last stage touches only the keys of unsized private requests. */
  lemma DeferKeys(requests: seq<Request>, acl0: seq<RegionKey>, sol: Solution, req: Request)
    requires DistinctKeys(requests) && DeferDone(requests, |requests|, acl0, sol.deferred, sol.aclOnly)
             && req in requests
    ensures !IsDeferred(req) ==> req.0 !in sol.deferred && (req.0 in sol.aclOnly <==> req.0 in acl0)
    ensures IsDeferred(req) ==>
              && req.1.place.Some?
              && if Mapped(req.1) then req.0 in sol.deferred && sol.deferred[req.0] == req.1 && req.0 !in sol.aclOnly
                 else req.0 in sol.aclOnly && req.0 !in sol.deferred
  {
    hide NoDup, PlaceKey, IsCpuMapped;
    var n :| 0 <= n < |requests| && requests[n] == req;
  }

  lemma SettledHolds(requests: seq<Request>, groups: map<string, SharedGroup>, fixed: seq<Request>, shared: Progress,
                     spots1: Spots, rest: Progress, spots2: Spots, sol: Solution, ctx: Context, req: Request)
    requires Staged(requests, groups, fixed, shared, spots1, rest, spots2, sol, ctx) && req in requests
    ensures Settled(req, sol, spots2, ctx.reservations)
  {
    hide Packed, GroupDone, NoDup, MemberKeys, PlaceKey, InOrder, FixedHonoured, Merged, IsCpuMapped, DeferDone,
         SharedMatches;
    StageKeys(requests, groups, fixed, shared, spots1, rest, spots2, sol, ctx, req);
    DeferKeys(requests, rest.aclOnly, sol, req);
    if req.1.shared.Some? {
      if req.0 in sol.placed {
        assert req.0 in spots1 by { SpotKeys(shared.placed, spots1, shared.cursors, ctx); }
        assert req.0 in spots2 by { SpotKeys(rest.placed, spots2, rest.cursors, ctx); }
        SharedMatchesHolds(requests, groups, shared, spots1, ctx, req);
      }
    } else if IsFixed(req) {
      var i :| 0 <= i < |fixed| && fixed[i] == req;
    }
  }

  lemma SharedMatchesHolds(requests: seq<Request>, groups: map<string, SharedGroup>, shared: Progress, spots1: Spots,
                           ctx: Context, req: Request)
    requires req in requests && req.1.shared.Some? && req.0 in spots1 && req.0 in shared.placed
    requires groups.Keys == GroupNames(requests, |requests|)
    requires forall g | g in groups :: Merged(requests, |requests|, g, groups[g])
    requires SharedDone(groups, groups.Keys, shared, spots1, ctx)
    ensures SharedMatches(req.1, spots1[req.0])
  {
    hide Packed, NoDup, MemberKeys, PlaceKey, IsCpuMapped, AlignedTo, IsPow2;
    var g := req.1.shared.value;
    var i :| 0 <= i < |requests| && requests[i] == req;
    assert g in groups && InGroup(requests[i], g);
    assert req.0 in groups[g].members && Agrees(req.1, groups[g]);
    assert GroupDone(groups[g], shared, spots1, ctx.reservations);
  }

  lemma {:induction false} FateHolds(requests: seq<Request>, groups: map<string, SharedGroup>, fixed: seq<Request>,
                                     shared: Progress, spots1: Spots, rest: Progress, spots2: Spots, sol: Solution,
                                     ctx: Context, k: RegionKey, l: RegionKey)
    requires Staged(requests, groups, fixed, shared, spots1, rest, spots2, sol, ctx)
    requires ctx.groupOf == GroupOf(requests, |requests|) && SameGroup(ctx.groupOf, k, l)
    ensures SameFate(k, l, sol)
  {
    hide Packed, NoDup, MemberKeys, PlaceKey, InOrder, FixedHonoured, IsCpuMapped, DeferDone, AlignedTo, IsPow2, KeysOf;
    var g := ctx.groupOf[k];
    var i :| 0 <= i < |requests| && requests[i].0 == k && InGroup(requests[i], g);
    var j :| 0 <= j < |requests| && requests[j].0 == l && InGroup(requests[j], g);
    StageKeys(requests, groups, fixed, shared, spots1, rest, spots2, sol, ctx, requests[i]);
    StageKeys(requests, groups, fixed, shared, spots1, rest, spots2, sol, ctx, requests[j]);
    DeferKeys(requests, rest.aclOnly, sol, requests[i]);
    DeferKeys(requests, rest.aclOnly, sol, requests[j]);
    assert g in groups && k in groups[g].members && l in groups[g].members;
    assert GroupDone(groups[g], shared, spots1, ctx.reservations);
  }

  lemma LargestFirstHolds(requests: seq<Request>, fixed: seq<Request>, shared: Progress, spots1: Spots, rest: Progress,
                          spots2: Spots, ctx: Context)
    requires forall r :: r in fixed <==> r in requests && IsFixed(r)
    requires StableSort.Sorted(fixed, LargestFirst)
    requires FixedDone(fixed, |fixed|, shared, spots1, rest, spots2, ctx)
    ensures PackedLargestFirst(requests, spots2)
  {
    hide Packed, NoDup, PlaceKey, IsCpuMapped, AlignedTo, IsPow2, KeysOf, DistinctKeys, Consistent;
    forall a, b | a in requests && b in requests && IsFixed(a) && IsFixed(b) && Mapped(a.1) && Mapped(b.1)
                  && PlaceKey(a.1.place.value) == PlaceKey(b.1.place.value) && a.1.size.value > b.1.size.value
                  && a.0 in spots2 && b.0 in spots2
      ensures spots2[a.0].start + spots2[a.0].size <= spots2[b.0].start
    {
      var i :| 0 <= i < |fixed| && fixed[i] == a;
      var j :| 0 <= j < |fixed| && fixed[j] == b;
      assert !LargestFirst(b, a);
      assert i < j;
      assert FixedHonoured(fixed[i], rest.placed, spots2, ctx.reservations)
          && FixedHonoured(fixed[j], rest.placed, spots2, ctx.reservations);
    }
  }

  lemma {:induction false} SolvedHolds(requests: seq<Request>, groups: map<string, SharedGroup>, fixed: seq<Request>,
                                       shared: Progress, spots1: Spots, rest: Progress, spots2: Spots, sol: Solution,
                                       ctx: Context)
    requires Staged(requests, groups, fixed, shared, spots1, rest, spots2, sol, ctx)
    requires ctx.groupOf == GroupOf(requests, |requests|)
    ensures Solved(requests, sol, spots2, ctx)
  {
    hide *;
    assert Solved(requests, sol, spots2, ctx) by {
      StagedParts(requests, groups, fixed, shared, spots1, rest, spots2, sol, ctx);
      GroupsAreDataHolds(requests, groups, fixed, shared, spots1, rest, spots2, sol, ctx);
      forall i | 0 <= i < |requests| ensures Settled(requests[i], sol, spots2, ctx.reservations) {
        SettledHolds(requests, groups, fixed, shared, spots1, rest, spots2, sol, ctx, requests[i]);
      }
      forall k, l | SameGroup(ctx.groupOf, k, l) ensures SameFate(k, l, sol) {
        FateHolds(requests, groups, fixed, shared, spots1, rest, spots2, sol, ctx, k, l);
      }
      SolvedFrom(requests, sol, spots2, ctx);
    }
  }

  lemma StagedParts(requests: seq<Request>, groups: map<string, SharedGroup>, fixed: seq<Request>, shared: Progress,
                    spots1: Spots, rest: Progress, spots2: Spots, sol: Solution, ctx: Context)
    requires Staged(requests, groups, fixed, shared, spots1, rest, spots2, sol, ctx)
    ensures NoDup(sol.aclOnly)
    ensures WellPlaced(sol.placed, spots2, ctx) && PairwiseApart(spots2, ctx.groupOf)
    ensures PackedLargestFirst(requests, spots2)
    ensures forall k | k in sol.placed || k in sol.deferred || k in sol.aclOnly ::
            exists i :: 0 <= i < |requests| && requests[i].0 == k
  {
    LargestFirstHolds(requests, fixed, shared, spots1, rest, spots2, ctx);
    PackedIsWellPlaced(rest.placed, spots2, rest.cursors, ctx);
    hide Packed, NoDup, PlaceKey, IsCpuMapped, InOrder, FixedHonoured, GroupDone, WellPlaced, PairwiseApart,
         PackedLargestFirst, MemberKeys;
    forall k | k in sol.placed || k in sol.deferred || k in sol.aclOnly ensures exists i ::
        0 <= i < |requests| && requests[i].0 == k {
      if k in shared.placed || k in shared.aclOnly {
        MemberKeysAre(requests, groups, k);
      } else if k in sol.placed || k in rest.aclOnly {
        assert k in KeysOf(fixed, |fixed|, k in sol.placed);
        var j :| 0 <= j < |fixed| && fixed[j].0 == k;
        assert fixed[j] in fixed && fixed[j] in requests;
      }
    }
  }

  lemma PackedIsWellPlaced(placed: map<RegionKey, Allocation>, spots: Spots, cursors: CursorMap, ctx: Context)
    requires Packed(placed, spots, cursors, ctx)
    ensures WellPlaced(placed, spots, ctx) && PairwiseApart(spots, ctx.groupOf)
  {
  }

  lemma SolvedFrom(requests: seq<Request>, sol: Solution, spots: Spots, ctx: Context)
    requires forall i | 0 <= i < |requests| :: Settled(requests[i], sol, spots, ctx.reservations)
    requires forall k | k in sol.placed || k in sol.deferred || k in sol.aclOnly ::
             exists i :: 0 <= i < |requests| && requests[i].0 == k
    requires NoDup(sol.aclOnly)
    requires forall k, l | SameGroup(ctx.groupOf, k, l) :: SameFate(k, l, sol)
    requires WellPlaced(sol.placed, spots, ctx) && PairwiseApart(spots, ctx.groupOf)
             && PackedLargestFirst(requests, spots)
    requires GroupsAreData(spots, ctx)
    ensures Solved(requests, sol, spots, ctx)
  {
    hide Settled, NoDup, SameGroup, SameFate, WellPlaced, PairwiseApart, PackedLargestFirst, GroupsAreData;
  }

  lemma {:induction false} GroupsAreDataHolds(requests: seq<Request>, groups: map<string, SharedGroup>,
                                              fixed: seq<Request>, shared: Progress, spots1: Spots, rest: Progress,
                                              spots2: Spots, sol: Solution, ctx: Context)
    requires Staged(requests, groups, fixed, shared, spots1, rest, spots2, sol, ctx)
    requires ctx.groupOf == GroupOf(requests, |requests|)
    ensures GroupsAreData(spots2, ctx)
  {
    hide Packed, NoDup, MemberKeys, PlaceKey, InOrder, FixedHonoured, IsCpuMapped, DeferDone, GroupDone, KeysOf, Merged;
    forall k | k in spots2 && k in ctx.groupOf ensures !spots2[k].execute {
      var i :| 0 <= i < |requests| && requests[i].0 == k && InGroup(requests[i], ctx.groupOf[k]);
      StageKeys(requests, groups, fixed, shared, spots1, rest, spots2, sol, ctx, requests[i]);
      SpotKeys(shared.placed, spots1, shared.cursors, ctx);
      SpotKeys(rest.placed, spots2, rest.cursors, ctx);
    }
  }
}
