/**
 The region solver: shared groups, fixed-size regions and deferred regions.

 A `Spot` records where a region sits in the canonical address space of its
 place, whichever mapping its CPU address was taken from. Maps are iterated in
 an arbitrary order, which covers the ordered maps of the original.
 */
module LayoutSolver {
  import opened Wrappers
  import opened BitOps
  import opened LayoutCursors

  datatype RegionRequest = RegionRequest(
    place: Option<Place>, size: Option<nat>, align: Option<nat>, shared: Option<string>, execute: bool)

  type Request = (RegionKey, RegionRequest)

  datatype LayoutError =
    | OutOfSpace(key: RegionKey)
    | DeferredNotMeasured(key: RegionKey)
    | SharedConflict(group: string, key: RegionKey)
    | SharedMissing(group: string)
    | Panicked

  // --- Spots ------------------------------------------------------------------

  datatype Spot = Spot(place: Place, execute: bool, start: nat, size: nat) {
    function Key(): nat { PlaceKey(place) }

    predicate Inside(reservations: Reservations) {
      && Resolves(place)
      && Key() <= start
      && start + size <= CursorEnd(Key(), place, reservations)
    }

    function Alloc(): Allocation
      requires Key() <= start
    {
      Allocation(TargetBase(place, execute) + (start - Key()), size)
    }

    /** The executable and the canonical resolution agree, so the CPU range is the canonical range. */
    predicate Canonical() {
      TargetBase(place, execute) == Key()
    }
  }

  /** Aligned in the canonical window; the address is aligned exactly when the window it lies in is. */
  predicate AlignedTo(s: Spot, align: nat) {
    && align > 0 && s.Key() <= s.start && Aligned(s.start, align)
    && (Aligned(s.Alloc().base, align) <==> WindowShift(s.place, s.execute) % align == 0)
  }

  predicate Apart(s: Spot, t: Spot) {
    s.size == 0 || t.size == 0 || s.Key() != t.Key() || s.start + s.size <= t.start || t.start + t.size <= s.start
  }

  type Spots = map<RegionKey, Spot>

  predicate SameGroup(groupOf: map<RegionKey, string>, k: RegionKey, l: RegionKey) {
    k in groupOf && l in groupOf && groupOf[k] == groupOf[l]
  }

  ghost predicate PairwiseApart(spots: Spots, groupOf: map<RegionKey, string>) {
    forall k, l | k in spots && l in spots && k != l && !SameGroup(groupOf, k, l) :: Apart(spots[k], spots[l])
  }

  predicate Disjoint(a: Allocation, b: Allocation) {
    a.size == 0 || b.size == 0 || a.base + a.size <= b.base || b.base + b.size <= a.base
  }

  /** Places with equal keys have equal sizes. */
  ghost predicate Consistent(places: set<Place>) {
    forall p, q | p in places && q in places && Resolves(p) && Resolves(q) && PlaceKey(p) == PlaceKey(q) ::
      p.size == q.size
  }

  /** Places with different keys cover different addresses. */
  ghost predicate Separated(places: set<Place>) {
    forall p, q | p in places && q in places && Resolves(p) && Resolves(q) && PlaceKey(p) != PlaceKey(q) ::
      PlaceKey(p) + p.size <= PlaceKey(q) || PlaceKey(q) + q.size <= PlaceKey(p)
  }

  /** Spots apart in canonical space are CPU ranges apart, as long as resolution agrees. */
  lemma ApartSpotsAreDisjoint(s: Spot, t: Spot, places: set<Place>, reservations: Reservations)
    requires s.place in places && t.place in places && Separated(places)
    requires s.Inside(reservations) && t.Inside(reservations)
    requires s.Canonical() && t.Canonical()
    requires Apart(s, t)
    ensures Disjoint(s.Alloc(), t.Alloc())
  {
  }

  // --- Cursor and spot invariants ---------------------------------------------

  ghost predicate CursorsMatch(cursors: CursorMap, places: set<Place>, reservations: Reservations) {
    forall p | p in places && Resolves(p) && PlaceKey(p) in cursors ::
      var pc := cursors[PlaceKey(p)];
      pc.base == PlaceKey(p) && pc.base <= pc.cursor && pc.end == CursorEnd(PlaceKey(p), p, reservations)
  }

  /** Every spot of a place with a cursor ends at or before that cursor. */
  ghost predicate Covered(spots: Spots, cursors: CursorMap) {
    forall k | k in spots && spots[k].Key() in cursors ::
        spots[k].start + spots[k].size <= cursors[spots[k].Key()].cursor
  }

  function SpotOf(place: Place, execute: bool, size: nat, r: Placement): Spot
    requires r.Placed? && PlaceKey(place) in r.cursors && r.cursors[PlaceKey(place)].cursor >= size
  {
    Spot(place, execute, r.cursors[PlaceKey(place)].cursor - size, size)
  }

  /** What one successful placement gives: a spot past everything covered, and cursors that cover it. */
  lemma PlacementStep(place: Place, size: nat, align: nat, execute: bool, cursors: CursorMap,
                      reservations: Reservations, places: set<Place>)
    requires place in places && Consistent(places) && CursorsMatch(cursors, places, reservations)
    ensures var r := TryAllocate(place, size, align, execute, cursors, reservations);
            r.Placed? ==>
              && PlaceKey(place) in r.cursors && r.cursors[PlaceKey(place)].cursor >= size
              && var s := SpotOf(place, execute, size, r);
              && s.Inside(reservations) && r.alloc == s.Alloc()
              && (s.Key() in cursors ==> cursors[s.Key()].cursor <= s.start)
              && r.cursors.Keys == cursors.Keys + {s.Key()}
              && CursorsMatch(r.cursors, places, reservations)
              && (forall pk | pk in cursors :: cursors[pk].cursor <= r.cursors[pk].cursor)
              && r.cursors[s.Key()].cursor == s.start + size
  {
  }

  /** Giving one fresh spot to a set of keys of one group keeps all spots apart. */
  lemma AddSpot(spots: Spots, groupOf: map<RegionKey, string>, keys: set<RegionKey>, s: Spot)
    requires PairwiseApart(spots, groupOf)
    requires keys !! spots.Keys
    requires forall k | k in spots && spots[k].Key() == s.Key() && spots[k].size > 0 ::
             spots[k].start + spots[k].size <= s.start
    requires OneGroup(groupOf, keys)
    ensures PairwiseApart(spots + (map k | k in keys :: s), groupOf)
  {
  }

  ghost predicate OneGroup(groupOf: map<RegionKey, string>, keys: set<RegionKey>) {
    forall k, l | k in keys && l in keys && k != l :: SameGroup(groupOf, k, l)
  }

  datatype Context = Context(places: set<Place>, groupOf: map<RegionKey, string>, reservations: Reservations)

  /** The invariant of one placing pass. */
  ghost predicate Packed(placed: map<RegionKey, Allocation>, spots: Spots, cursors: CursorMap, ctx: Context) {
    && placed.Keys == spots.Keys
    && (forall k | k in spots ::
          && spots[k].place in ctx.places && spots[k].Inside(ctx.reservations)
          && spots[k].Key() in cursors && placed[k] == spots[k].Alloc())
    && Covered(spots, cursors)
    && CursorsMatch(cursors, ctx.places, ctx.reservations)
    && PairwiseApart(spots, ctx.groupOf)
  }

  lemma {:induction false} Pow2Positive(a: nat)
    requires IsPow2(a)
    ensures a > 0
  {
  }

  lemma {:induction false} PlacedAligned(place: Place, size: nat, align: nat, execute: bool, cursors: CursorMap,
                      reservations: Reservations)
    requires TryAllocate(place, size, align, execute, cursors, reservations).Placed?
    ensures var r := TryAllocate(place, size, align, execute, cursors, reservations);
            IsPow2(align) ==> AlignedTo(SpotOf(place, execute, size, r), align)
  {
    hide IsPow2, Aligned, PlaceKey, TargetBase, Resolves, AlignUp, TryAllocate, WindowShift, CursorFor;
    if IsPow2(align) {
      TryAllocateAligned(place, size, align, execute, cursors, reservations);
      assert align > 0 by { Pow2Positive(align); }
    }
  }

  lemma {:induction false} PackedStep(placed: map<RegionKey, Allocation>, spots: Spots, cursors: CursorMap,
                                      ctx: Context, keys: set<RegionKey>, place: Place, size: nat, align: nat,
                                      execute: bool, r: Placement)
    requires Packed(placed, spots, cursors, ctx) && Consistent(ctx.places) && place in ctx.places
    requires keys !! placed.Keys && OneGroup(ctx.groupOf, keys)
    requires r == TryAllocate(place, size, align, execute, cursors, ctx.reservations) && r.Placed?
    ensures PlaceKey(place) in r.cursors && r.cursors[PlaceKey(place)].cursor >= size
    ensures Packed(placed + (map k | k in keys :: r.alloc),
                   spots + (map k | k in keys :: SpotOf(place, execute, size, r)), r.cursors, ctx)
    ensures forall k | k in spots && spots[k].Key() == PlaceKey(place) ::
              spots[k].start + spots[k].size <= SpotOf(place, execute, size, r).start
    ensures IsPow2(align) ==> AlignedTo(SpotOf(place, execute, size, r), align)
  {
    hide TryAllocate, AlignedTo, IsPow2, Resolves, CursorEnd, TargetBase, SameGroup, Apart, PlaceKey, Consistent,
         CursorsMatch, PairwiseApart, OneGroup;
    PlacedAligned(place, size, align, execute, cursors, ctx.reservations);
    PlacementStep(place, size, align, execute, cursors, ctx.reservations, ctx.places);
    AddSpot(spots, ctx.groupOf, keys, SpotOf(place, execute, size, r));
  }

  lemma {:induction false} PackedStepOne(placed: map<RegionKey, Allocation>, spots: Spots, cursors: CursorMap,
                                         ctx: Context, key: RegionKey, place: Place, size: nat, align: nat,
                                         execute: bool, r: Placement)
    requires Packed(placed, spots, cursors, ctx) && Consistent(ctx.places) && place in ctx.places
    requires key !in placed
    requires r == TryAllocate(place, size, align, execute, cursors, ctx.reservations) && r.Placed?
    ensures PlaceKey(place) in r.cursors && r.cursors[PlaceKey(place)].cursor >= size
    ensures var s := SpotOf(place, execute, size, r);
            && Packed(placed[key := r.alloc], spots[key := s], r.cursors, ctx)
            && (forall k | k in spots && spots[k].Key() == s.Key() :: spots[k].start + spots[k].size <= s.start)
            && (IsPow2(align) ==> AlignedTo(s, align))
  {
    hide Packed, TryAllocate, PlaceKey, Consistent, AlignedTo, IsPow2;
    var keys := {key};
    PackedStep(placed, spots, cursors, ctx, keys, place, size, align, execute, r);
    var s := SpotOf(place, execute, size, r);
    assert placed[key := r.alloc] == placed + (map k | k in keys :: r.alloc);
    assert spots[key := s] == spots + (map k | k in keys :: s);
  }

  // --- Shared groups ----------------------------------------------------------

  datatype SharedGroup = SharedGroup(place: Option<Place>, size: Option<nat>, align: Option<nat>,
                                     members: seq<RegionKey>)

  predicate InGroup(req: Request, g: string) {
    req.1.shared == Some(g)
  }

  /** Keys of the group's members among the first `n` requests, in request order. */
  function Members(requests: seq<Request>, n: nat, g: string): (m: seq<RegionKey>)
    requires n <= |requests|
    ensures forall k :: k in m <==> exists i :: 0 <= i < n && InGroup(requests[i], g) && requests[i].0 == k
  {
    if n == 0 then []
    else
      var init := Members(requests, n - 1, g);
      if InGroup(requests[n - 1], g) then init + [requests[n - 1].0] else init
  }

  /** The group carries every field some member specifies, and only such fields. */
  ghost predicate Merged(requests: seq<Request>, n: nat, g: string, group: SharedGroup)
    requires n <= |requests|
  {
    && group.members == Members(requests, n, g)
    && (forall i | 0 <= i < n && InGroup(requests[i], g) :: Agrees(requests[i].1, group))
    && (group.place.Some? ==> exists i :: 0 <= i < n && InGroup(requests[i], g) && requests[i].1.place == group.place)
    && (group.size.Some? ==> exists i :: 0 <= i < n && InGroup(requests[i], g) && requests[i].1.size == group.size)
    && (group.align.Some? ==> exists i :: 0 <= i < n && InGroup(requests[i], g) && requests[i].1.align == group.align)
  }

  predicate Agrees(req: RegionRequest, group: SharedGroup) {
    && (req.place.Some? ==> group.place.Some? && PlaceKey(group.place.value) == PlaceKey(req.place.value))
    && (req.size.Some? ==> group.size == req.size)
    && (req.align.Some? ==> group.align == req.align)
  }

  /** Two members of one group that specify the same field differently. */
  predicate Clash(a: Request, b: Request) {
    && a.1.shared.Some? && a.1.shared == b.1.shared
    && (|| (a.1.place.Some? && b.1.place.Some? && PlaceKey(a.1.place.value) != PlaceKey(b.1.place.value))
        || (a.1.size.Some? && b.1.size.Some? && a.1.size != b.1.size)
        || (a.1.align.Some? && b.1.align.Some? && a.1.align != b.1.align))
  }

  function GroupNames(requests: seq<Request>, n: nat): set<string>
    requires n <= |requests|
  {
    set i | 0 <= i < n && requests[i].1.shared.Some? :: requests[i].1.shared.value
  }

  function Join(req: RegionRequest, key: RegionKey, group: SharedGroup): (joined: SharedGroup) {
    SharedGroup(
      if group.place.Some? then group.place else req.place,
      if group.size.Some? then group.size else req.size,
      if group.align.Some? then group.align else req.align,
      group.members + [key])
  }

  /** The error names a group, and a member of it that disagrees with an earlier one. */
  ghost predicate Blamed(requests: seq<Request>, e: LayoutError) {
    e.SharedConflict? && exists i, j ::
      && 0 <= i < j < |requests| && Clash(requests[i], requests[j])
      && requests[j].0 == e.key && InGroup(requests[j], e.group)
  }

  /** Coalescing fails exactly when two members of a group disagree on a field. */
  method CoalesceShared(requests: seq<Request>) returns (r: Result<map<string, SharedGroup>, LayoutError>)
    ensures r.Failure? <==> exists i, j :: 0 <= i < j < |requests| && Clash(requests[i], requests[j])
    ensures r.Failure? ==> Blamed(requests, r.error)
    ensures r.Success? ==>
              && r.value.Keys == GroupNames(requests, |requests|)
              && forall g | g in r.value :: Merged(requests, |requests|, g, r.value[g])
  {
    var groups: map<string, SharedGroup> := map[];
    for n := 0 to |requests|
      invariant groups.Keys == GroupNames(requests, n)
      invariant forall g | g in groups :: Merged(requests, n, g, groups[g])
    {
      var (key, req) := requests[n];
      if req.shared.Some? {
        var g := req.shared.value;
        var entry := if g in groups then groups[g] else SharedGroup(None, None, None, []);
        if g !in groups { NoMembers(requests, n, g); }
        assert Merged(requests, n, g, entry);
        if (entry.place.Some? && req.place.Some? && PlaceKey(entry.place.value) != PlaceKey(req.place.value))
           || (entry.size.Some? && req.size.Some? && entry.size != req.size)
           || (entry.align.Some? && req.align.Some? && entry.align != req.align) {
          ConflictHasPartner(requests, n, g, entry);
          return Failure(SharedConflict(g, key));
        }
        MergedJoin(requests, n, g, entry);
        OthersUnaffected(requests, n, groups);
        groups := groups[g := Join(req, key, entry)];
      } else {
        OthersUnaffected(requests, n, groups);
      }
    }
    NoClashWhenMerged(requests, groups);
    r := Success(groups);
  }

  lemma {:induction false} NoMembers(requests: seq<Request>, n: nat, g: string)
    requires n <= |requests| && forall i | 0 <= i < n :: !InGroup(requests[i], g)
    ensures Members(requests, n, g) == []
  {
    if n > 0 { NoMembers(requests, n - 1, g); }
  }

  lemma ConflictHasPartner(requests: seq<Request>, n: nat, g: string, entry: SharedGroup)
    requires n < |requests| && InGroup(requests[n], g) && Merged(requests, n, g, entry)
    requires var req := requests[n].1;
             || (entry.place.Some? && req.place.Some? && PlaceKey(entry.place.value) != PlaceKey(req.place.value))
             || (entry.size.Some? && req.size.Some? && entry.size != req.size)
             || (entry.align.Some? && req.align.Some? && entry.align != req.align)
    ensures exists i, j :: 0 <= i < j < |requests| && Clash(requests[i], requests[j])
    ensures Blamed(requests, SharedConflict(g, requests[n].0))
  {
    hide PlaceKey;
    var req := requests[n].1;
    if entry.place.Some? && req.place.Some? && PlaceKey(entry.place.value) != PlaceKey(req.place.value) {
      var i :| 0 <= i < n && InGroup(requests[i], g) && requests[i].1.place == entry.place;
      assert Clash(requests[i], requests[n]);
    } else if entry.size.Some? && req.size.Some? && entry.size != req.size {
      var i :| 0 <= i < n && InGroup(requests[i], g) && requests[i].1.size == entry.size;
      assert Clash(requests[i], requests[n]);
    } else {
      var i :| 0 <= i < n && InGroup(requests[i], g) && requests[i].1.align == entry.align;
      assert Clash(requests[i], requests[n]);
    }
  }

  lemma MergedJoin(requests: seq<Request>, n: nat, g: string, entry: SharedGroup)
    requires n < |requests| && InGroup(requests[n], g) && Merged(requests, n, g, entry)
    requires var req := requests[n].1;
             && (entry.place.Some? && req.place.Some? ==> PlaceKey(entry.place.value) == PlaceKey(req.place.value))
             && (entry.size.Some? && req.size.Some? ==> entry.size == req.size)
             && (entry.align.Some? && req.align.Some? ==> entry.align == req.align)
    ensures Merged(requests, n + 1, g, Join(requests[n].1, requests[n].0, entry))
  {
    assert InGroup(requests[n], g);
  }

  lemma OthersUnaffected(requests: seq<Request>, n: nat, groups: map<string, SharedGroup>)
    requires n < |requests|
    requires forall g | g in groups :: Merged(requests, n, g, groups[g])
    ensures forall g | g in groups && !InGroup(requests[n], g) :: Merged(requests, n + 1, g, groups[g])
  {
  }

  lemma NoClashWhenMerged(requests: seq<Request>, groups: map<string, SharedGroup>)
    requires groups.Keys == GroupNames(requests, |requests|)
    requires forall g | g in groups :: Merged(requests, |requests|, g, groups[g])
    ensures !exists i, j :: 0 <= i < j < |requests| && Clash(requests[i], requests[j])
  {
    forall i, j | 0 <= i < j < |requests| ensures !Clash(requests[i], requests[j]) {
      if requests[i].1.shared.Some? && requests[i].1.shared == requests[j].1.shared {
        var g := requests[i].1.shared.value;
        assert g in groups;
        assert Agrees(requests[i].1, groups[g]) && Agrees(requests[j].1, groups[g]);
      }
    }
  }

  predicate NoDup(s: seq<RegionKey>) {
    forall i, j | 0 <= i < j < |s| :: s[i] != s[j]
  }

  lemma NoDupConcat(s: seq<RegionKey>, t: seq<RegionKey>)
    requires NoDup(s) && NoDup(t) && forall k | k in s :: k !in t
    ensures NoDup(s + t)
  {
    var u := s + t;
    forall i, j | 0 <= i < j < |u| ensures u[i] != u[j] {
      if i < |s| <= j { assert u[i] in s && u[j] == t[j - |s|]; }
    }
  }

  ghost predicate DistinctKeys(requests: seq<Request>) {
    forall i, j | 0 <= i < j < |requests| :: requests[i].0 != requests[j].0
  }

  lemma {:induction false} MembersDistinct(requests: seq<Request>, n: nat, g: string)
    requires n <= |requests| && DistinctKeys(requests)
    ensures NoDup(Members(requests, n, g))
  {
    if n > 0 {
      MembersDistinct(requests, n - 1, g);
      assert requests[n - 1].0 !in Members(requests, n - 1, g);
      NoDupConcat(Members(requests, n - 1, g), [requests[n - 1].0]);
    }
  }

  datatype Progress = Progress(placed: map<RegionKey, Allocation>, aclOnly: seq<RegionKey>, cursors: CursorMap)

  /** Groups whose members are known to the context and whose places come from it. */
  ghost predicate GroupsKnown(groups: map<string, SharedGroup>, ctx: Context) {
    forall g | g in groups ::
      && NoDup(groups[g].members)
      && (groups[g].place.Some? ==> groups[g].place.value in ctx.places)
      && forall k | k in groups[g].members :: k in ctx.groupOf && ctx.groupOf[k] == g
  }

  /** Each member of the finished groups sits at the group's one allocation, or is ACL-only. */
  ghost predicate GroupDone(group: SharedGroup, p: Progress, spots: Spots, reservations: Reservations) {
    && group.place.Some? && group.size.Some?
    && if IsCpuMapped(group.place.value) then
         exists s: Spot ::
           && s.place == group.place.value && !s.execute && s.size == group.size.value && s.Inside(reservations)
           && (IsPow2(group.align.GetOr(4)) ==> AlignedTo(s, group.align.GetOr(4)))
           && forall k | k in group.members :: k in p.placed && k in spots && spots[k] == s && p.placed[k] == s.Alloc()
       else forall k | k in group.members :: k in p.aclOnly
  }

  ghost function MemberKeys(groups: map<string, SharedGroup>, names: set<string>): set<RegionKey>
    requires names <= groups.Keys
  {
    set g, k | g in names && k in groups[g].members :: k
  }

  /** State after the groups named in `done`. */
  ghost predicate SharedDone(groups: map<string, SharedGroup>, done: set<string>, p: Progress, spots: Spots,
                             ctx: Context) {
    && done <= groups.Keys
    && Packed(p.placed, spots, p.cursors, ctx)
    && (forall g | g in done :: GroupDone(groups[g], p, spots, ctx.reservations))
    && (forall k :: k in p.placed || k in p.aclOnly <==> k in MemberKeys(groups, done))
    && (forall k | k in p.placed :: k !in p.aclOnly)
    && NoDup(p.aclOnly)
    && (forall k | k in spots :: !spots[k].execute)
  }

  // --- Capacity ---------------------------------------------------------------

  /** A place can take `need` bytes, padding included, without its addresses leaving 64 bits. */
  predicate RoomFor(place: Place, need: nat, reservations: Reservations) {
    Resolves(place) && PlaceKey(place) + need <= CursorEnd(PlaceKey(place), place, reservations) < U64_LIMIT
  }

  /** Enough room always leads to a placement, and the cursor moves by at most size and padding. */
  lemma PlacementSucceeds(place: Place, size: nat, align: nat, execute: bool, cursors: CursorMap,
                          reservations: Reservations, places: set<Place>, used: nat)
    requires place in places && CursorsMatch(cursors, places, reservations) && align > 0
    requires RoomFor(place, used + size + align - 1, reservations)
    requires PlaceKey(place) in cursors ==> cursors[PlaceKey(place)].cursor <= PlaceKey(place) + used
    ensures var r := TryAllocate(place, size, align, execute, cursors, reservations);
            && r.Placed? && PlaceKey(place) in r.cursors
            && r.cursors[PlaceKey(place)].cursor <= PlaceKey(place) + used + size + align - 1
            && forall pk | pk != PlaceKey(place) ::
                (pk in r.cursors <==> pk in cursors) && (pk in cursors ==> r.cursors[pk] == cursors[pk])
  {
    hide PlaceKey, Resolves;
    var pc := CursorFor(place, cursors, reservations);
    assert pc.cursor <= PlaceKey(place) + used && pc.end == CursorEnd(PlaceKey(place), place, reservations);
  }

  /** What a group takes out of the place with this key. */
  function GroupCost(group: SharedGroup, pk: nat): nat {
    if group.place.Some? && group.size.Some? && IsCpuMapped(group.place.value) && PlaceKey(group.place.value) == pk
    then group.size.value + group.align.GetOr(4) else 0
  }

  ghost function GroupsNeed(groups: map<string, SharedGroup>, names: set<string>, pk: nat): nat
    requires names <= groups.Keys
  {
    if names == {} then 0
    else
      var g :| g in names;
      GroupCost(groups[g], pk) + GroupsNeed(groups, names - {g}, pk)
  }

  lemma {:induction false} GroupsNeedWith(groups: map<string, SharedGroup>, names: set<string>, g: string, pk: nat)
    requires names <= groups.Keys && g in names
    ensures GroupsNeed(groups, names, pk) == GroupCost(groups[g], pk) + GroupsNeed(groups, names - {g}, pk)
    decreases names
  {
    hide GroupCost;
    var h :| && h in names
             && GroupsNeed(groups, names, pk) == GroupCost(groups[h], pk) + GroupsNeed(groups, names - {h}, pk);
    if h != g {
      GroupsNeedWith(groups, names - {h}, g, pk);
      GroupsNeedWith(groups, names - {g}, h, pk);
      assert names - {h} - {g} == names - {g} - {h};
    }
  }

  lemma {:induction false} GroupsNeedGrows(groups: map<string, SharedGroup>, names: set<string>, all: set<string>,
                                           pk: nat)
    requires names <= all <= groups.Keys
    ensures GroupsNeed(groups, names, pk) <= GroupsNeed(groups, all, pk)
    decreases all
  {
    hide GroupCost;
    if names != all {
      var g :| g in all && g !in names;
      GroupsNeedWith(groups, all, g, pk);
      GroupsNeedGrows(groups, names, all - {g}, pk);
    }
  }

  ghost predicate SharedBound(groups: map<string, SharedGroup>, done: set<string>, cursors: CursorMap)
    requires done <= groups.Keys
  {
    forall pk | pk in cursors :: cursors[pk].cursor <= pk + GroupsNeed(groups, done, pk)
  }

  /** Every group is complete and its place has room for all groups together. */
  ghost predicate SharedRoom(groups: map<string, SharedGroup>, reservations: Reservations) {
    forall g | g in groups ::
      && groups[g].place.Some? && groups[g].size.Some? && groups[g].align.GetOr(4) > 0
      && (IsCpuMapped(groups[g].place.value) ==>
            RoomFor(groups[g].place.value, GroupsNeed(groups, groups.Keys, PlaceKey(groups[g].place.value)),
                    reservations))
  }

  lemma SharedFits(groups: map<string, SharedGroup>, done: set<string>, g: string, cursors: CursorMap, ctx: Context)
    requires done <= groups.Keys && g in groups && g !in done
    requires SharedRoom(groups, ctx.reservations) && SharedBound(groups, done, cursors) && GroupsKnown(groups, ctx)
    requires CursorsMatch(cursors, ctx.places, ctx.reservations) && IsCpuMapped(groups[g].place.value)
    ensures TryAllocate(groups[g].place.value, groups[g].size.value, groups[g].align.GetOr(4), false, cursors,
                        ctx.reservations).Placed?
  {
    hide PlaceKey, Resolves, TryAllocate, CursorsMatch, NoDup;
    var place := groups[g].place.value;
    var pk := PlaceKey(place);
    var used := GroupsNeed(groups, done, pk);
    GroupsNeedWith(groups, done + {g}, g, pk);
    assert done + {g} - {g} == done;
    GroupsNeedGrows(groups, done + {g}, groups.Keys, pk);
    assert GroupCost(groups[g], pk) == groups[g].size.value + groups[g].align.GetOr(4);
    PlacementSucceeds(place, groups[g].size.value, groups[g].align.GetOr(4), false, cursors, ctx.reservations,
                      ctx.places, used);
  }

  lemma SharedBoundPlaced(groups: map<string, SharedGroup>, done: set<string>, g: string, cursors: CursorMap,
                          reservations: Reservations, a: Placement)
    requires done <= groups.Keys && g in groups && g !in done && SharedBound(groups, done, cursors)
    requires groups[g].place.Some? && groups[g].size.Some? && IsCpuMapped(groups[g].place.value) && a.Placed?
    requires a == TryAllocate(groups[g].place.value, groups[g].size.value, groups[g].align.GetOr(4), false, cursors,
                              reservations)
    ensures SharedBound(groups, done + {g}, a.cursors)
  {
    hide Resolves, PlaceKey;
    forall pk | pk in a.cursors ensures a.cursors[pk].cursor <= pk + GroupsNeed(groups, done + {g}, pk) {
      GroupsNeedWith(groups, done + {g}, g, pk);
      assert done + {g} - {g} == done;
    }
  }

  lemma SharedBoundKept(groups: map<string, SharedGroup>, done: set<string>, g: string, cursors: CursorMap)
    requires done <= groups.Keys && g in groups && SharedBound(groups, done, cursors)
    ensures SharedBound(groups, done + {g}, cursors)
  {
    forall pk | pk in cursors ensures cursors[pk].cursor <= pk + GroupsNeed(groups, done + {g}, pk) {
      GroupsNeedGrows(groups, done, done + {g}, pk);
    }
  }

  lemma StartBound(groups: map<string, SharedGroup>)
    ensures SharedBound(groups, {}, map[])
  {
  }

  lemma StartDone(groups: map<string, SharedGroup>, ctx: Context)
    ensures SharedDone(groups, {}, Progress(map[], [], map[]), map[], ctx)
  {
  }

  lemma PackedCursors(placed: map<RegionKey, Allocation>, spots: Spots, cursors: CursorMap, ctx: Context)
    requires Packed(placed, spots, cursors, ctx)
    ensures CursorsMatch(cursors, ctx.places, ctx.reservations)
  {
  }

  /** Allocates each shared group once and maps it to all its members; succeeds whenever there is room. */
  method AllocateShared(groups: map<string, SharedGroup>, reservations: Reservations, ghost ctx: Context)
    returns (r: Result<Progress, LayoutError>, ghost spots: Spots)
    requires Consistent(ctx.places) && GroupsKnown(groups, ctx) && ctx.reservations == reservations
    ensures r.Success? ==>
            SharedDone(groups, groups.Keys, r.value, spots, ctx) && SharedBound(groups, groups.Keys, r.value.cursors)
    ensures SharedRoom(groups, reservations) ==> r.Success?
    ensures r.Failure? ==>
              match r.error
              case SharedMissing(g) => g in groups && (groups[g].place.None? || groups[g].size.None?)
              case OutOfSpace(key) => key.1 in groups && key.0 == "shared:" + key.1
              case e => e == Panicked
  {
    hide Packed, GroupDone, MemberKeys, GroupsNeed, GroupsKnown, SharedBound, TryAllocate, PlaceKey, Resolves, NoDup,
         Consistent;
    StartBound(groups);
    StartDone(groups, ctx);
    var p := Progress(map[], [], map[]);
    spots := map[];
    var todo := groups.Keys;
    ghost var done: set<string> := {};
    while todo != {}
      invariant todo <= groups.Keys && done == groups.Keys - todo
      invariant SharedDone(groups, done, p, spots, ctx) && SharedBound(groups, done, p.cursors)
    {
      var g :| g in todo;
      var group := groups[g];
      todo := todo - {g};
      if group.place.None? || group.size.None? {
        return Failure(SharedMissing(g)), spots;
      }
      var place, size, align := group.place.value, group.size.value, group.align.GetOr(4);
      if !IsCpuMapped(place) {
        SharedStepAcl(groups, done, g, p, spots, ctx);
        SharedBoundKept(groups, done, g, p.cursors);
        p := p.(aclOnly := p.aclOnly + group.members);
      } else {
        var a := TryAllocate(place, size, align, false, p.cursors, reservations);
        PackedCursors(p.placed, spots, p.cursors, ctx);
        if SharedRoom(groups, reservations) { SharedFits(groups, done, g, p.cursors, ctx); }
        if a.DoesNotFit? { return Failure(OutOfSpace(("shared:" + g, g))), spots; }
        if a.Overflows? { return Failure(Panicked), spots; }
        SharedStepPlaced(groups, done, g, p, spots, ctx, a);
        SharedBoundPlaced(groups, done, g, p.cursors, reservations, a);
        p := Progress(p.placed + (map k | k in group.members :: a.alloc), p.aclOnly, a.cursors);
        spots := spots + (map k | k in group.members :: SpotOf(place, false, size, a));
      }
      done := done + {g};
    }
    assert done == groups.Keys;
    r := Success(p);
  }

  lemma MembersFresh(groups: map<string, SharedGroup>, done: set<string>, g: string, ctx: Context)
    requires GroupsKnown(groups, ctx) && done <= groups.Keys && g in groups && g !in done
    ensures forall k | k in groups[g].members :: k !in MemberKeys(groups, done)
    ensures forall k :: k in MemberKeys(groups, done + {g}) <==> k in MemberKeys(groups, done) || k in groups[g].members
    ensures OneGroup(ctx.groupOf, set k | k in groups[g].members)
    ensures NoDup(groups[g].members)
    ensures groups[g].place.Some? ==> groups[g].place.value in ctx.places
  {
    forall k ensures k in MemberKeys(groups, done + {g}) <==> k in MemberKeys(groups, done) || k in groups[g].members {
      if k in groups[g].members { assert g in done + {g}; }
    }
  }

  lemma SharedStepAcl(groups: map<string, SharedGroup>, done: set<string>, g: string, p: Progress, spots: Spots,
                      ctx: Context)
    requires SharedDone(groups, done, p, spots, ctx) && GroupsKnown(groups, ctx) && g in groups && g !in done
    requires groups[g].place.Some? && groups[g].size.Some? && !IsCpuMapped(groups[g].place.value)
    ensures SharedDone(groups, done + {g}, p.(aclOnly := p.aclOnly + groups[g].members), spots, ctx)
  {
    hide Packed, NoDup, GroupDone, MemberKeys, GroupsKnown;
    MembersFresh(groups, done, g, ctx);
    var q := p.(aclOnly := p.aclOnly + groups[g].members);
    NoDupConcat(p.aclOnly, groups[g].members);
    GroupsStayDone(groups, done, p, spots, q, spots, ctx.reservations);
    GroupDoneAcl(groups[g], q, spots, ctx.reservations);
  }

  lemma GroupDoneAcl(group: SharedGroup, p: Progress, spots: Spots, reservations: Reservations)
    requires group.place.Some? && group.size.Some? && !IsCpuMapped(group.place.value)
    requires forall k | k in group.members :: k in p.aclOnly
    ensures GroupDone(group, p, spots, reservations)
  {
  }

  lemma SharedStepPlaced(groups: map<string, SharedGroup>, done: set<string>, g: string, p: Progress, spots: Spots,
                         ctx: Context, a: Placement)
    requires SharedDone(groups, done, p, spots, ctx) && GroupsKnown(groups, ctx) && g in groups && g !in done
    requires Consistent(ctx.places)
    requires groups[g].place.Some? && groups[g].size.Some? && IsCpuMapped(groups[g].place.value)
    requires a.Placed?
    requires a == TryAllocate(groups[g].place.value, groups[g].size.value, groups[g].align.GetOr(4), false, p.cursors,
                              ctx.reservations)
    ensures PlaceKey(groups[g].place.value) in a.cursors
            && a.cursors[PlaceKey(groups[g].place.value)].cursor >= groups[g].size.value
    ensures SharedDone(groups, done + {g},
                       Progress(p.placed + (map k | k in groups[g].members :: a.alloc), p.aclOnly, a.cursors),
                       spots + (map k | k in groups[g].members ::
                                SpotOf(groups[g].place.value, false, groups[g].size.value, a)), ctx)
  {
    hide *;
    var group := groups[g];
    var place, size, align := group.place.value, group.size.value, group.align.GetOr(4);
    SharedDoneParts(groups, done, p, spots, ctx);
    MembersFresh(groups, done, g, ctx);
    SpotKeys(p.placed, spots, p.cursors, ctx);
    var keys := set k | k in group.members;
    PackedStep(p.placed, spots, p.cursors, ctx, keys, place, size, align, false, a);
    SpotInside(place, size, align, p.cursors, a, ctx, p.placed, spots);
    SharedAssemble(groups, done, g, p, spots, ctx, a, SpotOf(place, false, size, a), keys);
  }

  lemma SharedDoneParts(groups: map<string, SharedGroup>, done: set<string>, p: Progress, spots: Spots, ctx: Context)
    requires SharedDone(groups, done, p, spots, ctx)
    ensures done <= groups.Keys
    ensures Packed(p.placed, spots, p.cursors, ctx)
    ensures forall k | k in p.placed :: k in MemberKeys(groups, done)
  {
    hide Packed, MemberKeys, GroupDone, NoDup;
  }

  lemma SharedAssemble(groups: map<string, SharedGroup>, done: set<string>, g: string, p: Progress, spots: Spots,
                       ctx: Context, a: Placement, s: Spot, keys: set<RegionKey>)
    requires SharedDone(groups, done, p, spots, ctx) && GroupsKnown(groups, ctx) && g in groups && g !in done
    requires groups[g].place.Some? && groups[g].size.Some? && IsCpuMapped(groups[g].place.value)
    requires a.Placed? && keys == set k | k in groups[g].members
    requires s.place == groups[g].place.value && !s.execute && s.size == groups[g].size.value
    requires s.Inside(ctx.reservations) && a.alloc == s.Alloc()
    requires IsPow2(groups[g].align.GetOr(4)) ==> AlignedTo(s, groups[g].align.GetOr(4))
    requires Packed(p.placed + (map k | k in keys :: a.alloc), spots + (map k | k in keys :: s), a.cursors, ctx)
    ensures SharedDone(groups, done + {g},
                       Progress(p.placed + (map k | k in groups[g].members :: a.alloc), p.aclOnly, a.cursors),
                       spots + (map k | k in groups[g].members :: s), ctx)
  {
    hide Packed, NoDup, GroupDone, MemberKeys, GroupsKnown, PlaceKey, AlignedTo, IsPow2, Resolves, TargetBase,
         CursorEnd, OneGroup, SameGroup;
    var group := groups[g];
    MembersFresh(groups, done, g, ctx);
    SpotKeys(p.placed, spots, p.cursors, ctx);
    var q := Progress(p.placed + (map k | k in group.members :: a.alloc), p.aclOnly, a.cursors);
    var spots' := spots + (map k | k in group.members :: s);
    assert q.placed == p.placed + (map k | k in keys :: a.alloc);
    assert spots' == spots + (map k | k in keys :: s);
    GroupsStayDone(groups, done, p, spots, q, spots', ctx.reservations);
    GroupDonePlaced(group, q, spots', ctx.reservations, s);
  }

  lemma SpotInside(place: Place, size: nat, align: nat, cursors: CursorMap, a: Placement, ctx: Context,
                   placed: map<RegionKey, Allocation>, spots: Spots)
    requires Packed(placed, spots, cursors, ctx) && Consistent(ctx.places) && place in ctx.places
    requires a.Placed? && a == TryAllocate(place, size, align, false, cursors, ctx.reservations)
    ensures PlaceKey(place) in a.cursors && a.cursors[PlaceKey(place)].cursor >= size
    ensures var s := SpotOf(place, false, size, a);
            && s == Spot(place, false, a.cursors[PlaceKey(place)].cursor - size, size)
            && s.Inside(ctx.reservations) && a.alloc == s.Alloc()
  {
    PlacementStep(place, size, align, false, cursors, ctx.reservations, ctx.places);
  }

  lemma GroupDonePlaced(group: SharedGroup, p: Progress, spots: Spots, reservations: Reservations, s: Spot)
    requires group.place.Some? && group.size.Some? && IsCpuMapped(group.place.value)
    requires s.place == group.place.value && !s.execute && s.size == group.size.value && s.Inside(reservations)
    requires IsPow2(group.align.GetOr(4)) ==> AlignedTo(s, group.align.GetOr(4))
    requires forall k | k in group.members :: k in p.placed && k in spots && spots[k] == s && p.placed[k] == s.Alloc()
    ensures GroupDone(group, p, spots, reservations)
  {
  }

  lemma GroupsStayDone(groups: map<string, SharedGroup>, done: set<string>, p: Progress, spots: Spots, q: Progress,
                       spots': Spots, reservations: Reservations)
    requires done <= groups.Keys
    requires forall g | g in done :: GroupDone(groups[g], p, spots, reservations)
    requires forall k | k in p.placed :: k in q.placed && q.placed[k] == p.placed[k]
    requires forall k | k in spots :: k in spots' && spots'[k] == spots[k]
    requires forall k | k in p.aclOnly :: k in q.aclOnly
    ensures forall g | g in done :: GroupDone(groups[g], q, spots', reservations)
  {
    forall g | g in done ensures GroupDone(groups[g], q, spots', reservations) {
      var group := groups[g];
      if IsCpuMapped(group.place.value) {
        var s: Spot :|
          && s.place == group.place.value && !s.execute && s.size == group.size.value && s.Inside(reservations)
          && (IsPow2(group.align.GetOr(4)) ==> AlignedTo(s, group.align.GetOr(4)))
          && forall k | k in group.members :: k in p.placed && k in spots && spots[k] == s && p.placed[k] == s.Alloc();
        assert forall k | k in group.members ::
            k in q.placed && k in spots' && spots'[k] == s && q.placed[k] == s.Alloc();
      }
    }
  }

  // --- Private fixed-size regions ---------------------------------------------

  /** Place key ascending, then size descending. */
  predicate LargestFirst(a: Request, b: Request) {
    var ka := if a.1.place.Some? then PlaceKey(a.1.place.value) else 0;
    var kb := if b.1.place.Some? then PlaceKey(b.1.place.value) else 0;
    ka < kb || (ka == kb && a.1.size.GetOr(0) >= b.1.size.GetOr(0))
  }

  predicate IsFixed(req: Request) {
    req.1.shared.None? && req.1.size.Some?
  }

  predicate Mapped(req: RegionRequest) {
    req.place.Some? && IsCpuMapped(req.place.value)
  }

  /** The region sits where its request asked for it. */
  ghost predicate Honoured(key: RegionKey, req: RegionRequest, size: nat, align: nat,
                           placed: map<RegionKey, Allocation>, spots: Spots, reservations: Reservations) {
    && key in placed && key in spots && req.place.Some?
    && spots[key].place == req.place.value && spots[key].execute == req.execute && spots[key].size == size
    && spots[key].Inside(reservations) && placed[key] == spots[key].Alloc()
    && (IsPow2(align) ==> AlignedTo(spots[key], align))
  }

  ghost predicate FixedHonoured(req: Request, placed: map<RegionKey, Allocation>, spots: Spots,
                                reservations: Reservations) {
    req.1.size.Some? && Honoured(req.0, req.1, req.1.size.value, req.1.align.GetOr(4), placed, spots, reservations)
  }

  /** Earlier regions of a place lie below later ones. */
  ghost predicate InOrder(fixed: seq<Request>, n: nat, spots: Spots)
    requires n <= |fixed|
  {
    forall i, j | 0 <= i < j < n && fixed[i].0 in spots && fixed[j].0 in spots
                  && spots[fixed[i].0].Key() == spots[fixed[j].0].Key() ::
      spots[fixed[i].0].start + spots[fixed[i].0].size <= spots[fixed[j].0].start
  }

  ghost function KeysOf(fixed: seq<Request>, n: nat, mapped: bool): set<RegionKey>
    requires n <= |fixed|
  {
    set i | 0 <= i < n && Mapped(fixed[i].1) == mapped :: fixed[i].0
  }

  /** State after the first `n` fixed-size regions. */
  ghost predicate FixedDone(fixed: seq<Request>, n: nat, start: Progress, spots0: Spots, p: Progress, spots: Spots,
                            ctx: Context)
    requires n <= |fixed|
  {
    && Packed(p.placed, spots, p.cursors, ctx)
    && p.placed.Keys == start.placed.Keys + KeysOf(fixed, n, true)
    && spots0.Keys == start.placed.Keys
    && (forall k | k in start.placed :: p.placed[k] == start.placed[k] && spots[k] == spots0[k])
    && (forall k :: k in p.aclOnly <==> k in start.aclOnly || k in KeysOf(fixed, n, false))
    && NoDup(p.aclOnly)
    && (forall i | 0 <= i < n && Mapped(fixed[i].1) :: FixedHonoured(fixed[i], p.placed, spots, ctx.reservations))
    && (forall i | 0 <= i < n :: fixed[i].1.place.Some?)
    && InOrder(fixed, n, spots)
  }

  ghost predicate FixedInput(fixed: seq<Request>, start: Progress, ctx: Context) {
    && Consistent(ctx.places) && DistinctKeys(fixed)
    && (forall i | 0 <= i < |fixed| ::
        IsFixed(fixed[i]) && (fixed[i].1.place.Some? ==> fixed[i].1.place.value in ctx.places))
    && (forall i | 0 <= i < |fixed| :: fixed[i].0 !in start.placed && fixed[i].0 !in start.aclOnly)
  }

  function FixedCost(req: RegionRequest, pk: nat): nat {
    if Mapped(req) && req.size.Some? && PlaceKey(req.place.value) == pk then req.size.value + req.align.GetOr(4) else 0
  }

  function FixedNeed(fixed: seq<Request>, n: nat, pk: nat): nat
    requires n <= |fixed|
  {
    if n == 0 then 0 else FixedNeed(fixed, n - 1, pk) + FixedCost(fixed[n - 1].1, pk)
  }

  lemma {:induction false} FixedNeedGrows(fixed: seq<Request>, n: nat, m: nat, pk: nat)
    requires n <= m <= |fixed|
    ensures FixedNeed(fixed, n, pk) <= FixedNeed(fixed, m, pk)
  {
    hide FixedCost;
    if n < m { FixedNeedGrows(fixed, n, m - 1, pk); }
  }

  ghost predicate FixedBound(groups: map<string, SharedGroup>, fixed: seq<Request>, n: nat, cursors: CursorMap)
    requires n <= |fixed|
  {
    forall pk | pk in cursors ::
        cursors[pk].cursor <= pk + GroupsNeed(groups, groups.Keys, pk) + FixedNeed(fixed, n, pk)
  }

  /** Every fixed region has a place, with room for all groups and all fixed regions together. */
  ghost predicate FixedRoom(groups: map<string, SharedGroup>, fixed: seq<Request>, reservations: Reservations) {
    forall i | 0 <= i < |fixed| ::
      var req := fixed[i].1;
      && req.place.Some? && req.align.GetOr(4) > 0
      && (Mapped(req) ==>
            var pk := PlaceKey(req.place.value);
            RoomFor(req.place.value, GroupsNeed(groups, groups.Keys, pk) + FixedNeed(fixed, |fixed|, pk), reservations))
  }

  lemma FixedFits(groups: map<string, SharedGroup>, fixed: seq<Request>, n: nat, start: Progress, cursors: CursorMap,
                  ctx: Context)
    requires n < |fixed| && FixedRoom(groups, fixed, ctx.reservations) && FixedBound(groups, fixed, n, cursors)
    requires FixedInput(fixed, start, ctx) && CursorsMatch(cursors, ctx.places, ctx.reservations) && Mapped(fixed[n].1)
    ensures var req := fixed[n].1;
            TryAllocate(req.place.value, req.size.value, req.align.GetOr(4), req.execute, cursors,
                        ctx.reservations).Placed?
  {
    hide PlaceKey, Resolves, TryAllocate, CursorsMatch, Consistent, DistinctKeys;
    var req := fixed[n].1;
    var pk := PlaceKey(req.place.value);
    FixedNeedGrows(fixed, n + 1, |fixed|, pk);
    PlacementSucceeds(req.place.value, req.size.value, req.align.GetOr(4), req.execute, cursors, ctx.reservations,
                      ctx.places,
                      GroupsNeed(groups, groups.Keys, pk) + FixedNeed(fixed, n, pk));
  }

  lemma FixedBoundStep(groups: map<string, SharedGroup>, fixed: seq<Request>, n: nat, cursors: CursorMap,
                       after: CursorMap, reservations: Reservations)
    requires n < |fixed| && FixedBound(groups, fixed, n, cursors) && fixed[n].1.place.Some? && fixed[n].1.size.Some?
    requires var req := fixed[n].1;
             if Mapped(req) then
               TryAllocate(req.place.value, req.size.value, req.align.GetOr(4), req.execute, cursors,
                           reservations).Placed? &&
               after == TryAllocate(req.place.value, req.size.value, req.align.GetOr(4), req.execute, cursors,
                                    reservations).cursors
             else after == cursors
    ensures FixedBound(groups, fixed, n + 1, after)
  {
    hide Resolves, PlaceKey, GroupsNeed;
  }

  lemma FixedStart(groups: map<string, SharedGroup>, fixed: seq<Request>, cursors: CursorMap)
    requires SharedBound(groups, groups.Keys, cursors)
    ensures FixedBound(groups, fixed, 0, cursors)
  {
  }

  lemma FixedRoomAt(groups: map<string, SharedGroup>, fixed: seq<Request>, n: nat, reservations: Reservations)
    requires n < |fixed|
    ensures FixedRoom(groups, fixed, reservations) ==> fixed[n].1.place.Some?
  {
  }

  lemma FixedDoneStart(fixed: seq<Request>, start: Progress, spots0: Spots, ctx: Context)
    requires Packed(start.placed, spots0, start.cursors, ctx) && NoDup(start.aclOnly)
    ensures FixedDone(fixed, 0, start, spots0, start, spots0, ctx)
  {
  }

  lemma FixedDoneParts(fixed: seq<Request>, n: nat, start: Progress, spots0: Spots, p: Progress, spots: Spots,
                       ctx: Context)
    requires n <= |fixed| && FixedDone(fixed, n, start, spots0, p, spots, ctx)
    ensures CursorsMatch(p.cursors, ctx.places, ctx.reservations)
  {
  }

  /** Places the sorted fixed-size regions one after the other; succeeds whenever there is room. */
  method AllocateFixed(fixed: seq<Request>, start: Progress, reservations: Reservations, ghost ctx: Context,
                       ghost spots0: Spots, ghost groups: map<string, SharedGroup>)
    returns (r: Result<Progress, LayoutError>, ghost spots: Spots)
    requires FixedInput(fixed, start, ctx) && ctx.reservations == reservations
    requires Packed(start.placed, spots0, start.cursors, ctx) && NoDup(start.aclOnly)
    requires SharedBound(groups, groups.Keys, start.cursors)
    ensures r.Success? ==> FixedDone(fixed, |fixed|, start, spots0, r.value, spots, ctx)
    ensures r.Success? ==> FixedBound(groups, fixed, |fixed|, r.value.cursors)
    ensures FixedRoom(groups, fixed, reservations) ==> r.Success?
    ensures r.Failure? && r.error != Panicked ==>
              r.error.OutOfSpace? && exists i :: 0 <= i < |fixed| && fixed[i].0 == r.error.key && Mapped(fixed[i].1)
  {
    hide Packed, FixedBound, TryAllocate, PlaceKey, Resolves, NoDup, Consistent, RoomFor, SharedBound, FixedHonoured,
         InOrder;
    var p := start;
    spots := spots0;
    FixedStart(groups, fixed, start.cursors);
    FixedDoneStart(fixed, start, spots0, ctx);
    for n := 0 to |fixed|
      invariant FixedDone(fixed, n, start, spots0, p, spots, ctx) && FixedBound(groups, fixed, n, p.cursors)
    {
      hide FixedDone, FixedRoom;
      var (key, req) := fixed[n];
      FixedDoneParts(fixed, n, start, spots0, p, spots, ctx);
      FixedRoomAt(groups, fixed, n, reservations);
      if req.place.None? { return Failure(Panicked), spots; }
      var place := req.place.value;
      if !IsCpuMapped(place) {
        FixedStepAcl(fixed, n, start, spots0, p, spots, ctx);
        FixedBoundStep(groups, fixed, n, p.cursors, p.cursors, reservations);
        p := p.(aclOnly := p.aclOnly + [key]);
      } else {
        var size, align := req.size.value, req.align.GetOr(4);
        var a := TryAllocate(place, size, align, req.execute, p.cursors, reservations);
        if FixedRoom(groups, fixed, reservations) { FixedFits(groups, fixed, n, start, p.cursors, ctx); }
        if a.DoesNotFit? { return Failure(OutOfSpace(key)), spots; }
        if a.Overflows? { return Failure(Panicked), spots; }
        FixedStepPlaced(fixed, n, start, spots0, p, spots, ctx, a);
        FixedBoundStep(groups, fixed, n, p.cursors, a.cursors, reservations);
        p := Progress(p.placed[key := a.alloc], p.aclOnly, a.cursors);
        spots := spots[key := SpotOf(place, req.execute, size, a)];
      }
    }
    r := Success(p);
  }

  lemma FixedStepAcl(fixed: seq<Request>, n: nat, start: Progress, spots0: Spots, p: Progress, spots: Spots,
                     ctx: Context)
    requires n < |fixed| && FixedInput(fixed, start, ctx) && FixedDone(fixed, n, start, spots0, p, spots, ctx)
    requires fixed[n].1.place.Some? && !Mapped(fixed[n].1)
    ensures FixedDone(fixed, n + 1, start, spots0, p.(aclOnly := p.aclOnly + [fixed[n].0]), spots, ctx)
  {
    hide Packed, NoDup, FixedHonoured, InOrder, Consistent, PlaceKey;
    var key := fixed[n].0;
    KeysOfStep(fixed, n);
    NoDupConcat(p.aclOnly, [key]) by { assert NoDup([key]) by { NoDupOne(key); } }
    SpotKeys(p.placed, spots, p.cursors, ctx);
    InOrderSkip(fixed, n, spots);
  }

  lemma NoDupOne(key: RegionKey)
    ensures NoDup([key])
  {
  }

  lemma SpotKeys(placed: map<RegionKey, Allocation>, spots: Spots, cursors: CursorMap, ctx: Context)
    requires Packed(placed, spots, cursors, ctx)
    ensures placed.Keys == spots.Keys
  {
  }

  lemma InOrderSkip(fixed: seq<Request>, n: nat, spots: Spots)
    requires n < |fixed| && InOrder(fixed, n, spots) && fixed[n].0 !in spots
    ensures InOrder(fixed, n + 1, spots)
  {
  }

  lemma HonouredPersists(req: Request, key: RegionKey, alloc: Allocation, s: Spot, placed: map<RegionKey, Allocation>,
                         spots: Spots, reservations: Reservations)
    requires FixedHonoured(req, placed, spots, reservations) && req.0 != key
    ensures FixedHonoured(req, placed[key := alloc], spots[key := s], reservations)
  {
  }

  lemma {:induction false} HonouredNew(key: RegionKey, req: RegionRequest, size: nat, align: nat,
                                       placed: map<RegionKey, Allocation>, spots: Spots, cursors: CursorMap,
                                       a: Placement, ctx: Context)
    requires req.place.Some? && a.Placed? && PlaceKey(req.place.value) in a.cursors
    requires a.cursors[PlaceKey(req.place.value)].cursor >= size
    requires var s := SpotOf(req.place.value, req.execute, size, a);
             && (IsPow2(align) ==> AlignedTo(s, align))
             && Packed(placed[key := a.alloc], spots[key := s], cursors, ctx)
    ensures Honoured(key, req, size, align, placed[key := a.alloc],
                     spots[key := SpotOf(req.place.value, req.execute, size, a)], ctx.reservations)
  {
    var s := SpotOf(req.place.value, req.execute, size, a);
    assert key in spots[key := s];
  }

  lemma FixedStepPlaced(fixed: seq<Request>, n: nat, start: Progress, spots0: Spots, p: Progress, spots: Spots,
                        ctx: Context, a: Placement)
    requires n < |fixed| && FixedInput(fixed, start, ctx) && FixedDone(fixed, n, start, spots0, p, spots, ctx)
    requires Mapped(fixed[n].1)
    requires var req := fixed[n].1;
             a == TryAllocate(req.place.value, req.size.value, req.align.GetOr(4), req.execute, p.cursors,
                              ctx.reservations)
    requires a.Placed?
    ensures PlaceKey(fixed[n].1.place.value) in a.cursors
            && a.cursors[PlaceKey(fixed[n].1.place.value)].cursor >= fixed[n].1.size.value
    ensures FixedDone(fixed, n + 1, start, spots0, Progress(p.placed[fixed[n].0 := a.alloc], p.aclOnly, a.cursors),
                      spots[fixed[n].0 := SpotOf(fixed[n].1.place.value, fixed[n].1.execute, fixed[n].1.size.value,
                                                 a)], ctx)
  {
    hide Packed, NoDup, Honoured, InOrder, Consistent, PlaceKey, TryAllocate, AlignedTo, IsPow2, KeysOf;
    var (key, req) := fixed[n];
    KeysOfStep(fixed, n);
    SpotKeys(p.placed, spots, p.cursors, ctx);
    PackedStepOne(p.placed, spots, p.cursors, ctx, key, req.place.value, req.size.value, req.align.GetOr(4),
                  req.execute, a);
    var s := SpotOf(req.place.value, req.execute, req.size.value, a);
    InOrderStep(fixed, n, spots, s);
    HonouredNew(key, req, req.size.value, req.align.GetOr(4), p.placed, spots, a.cursors, a, ctx);
    forall i | 0 <= i < n && Mapped(fixed[i].1)
      ensures FixedHonoured(fixed[i], p.placed[key := a.alloc], spots[key := s], ctx.reservations)
    {
      HonouredPersists(fixed[i], key, a.alloc, s, p.placed, spots, ctx.reservations);
    }
  }

  lemma KeysOfStep(fixed: seq<Request>, n: nat)
    requires n < |fixed| && DistinctKeys(fixed)
    ensures Mapped(fixed[n].1) ==> KeysOf(fixed, n + 1, true) == KeysOf(fixed, n, true) + {fixed[n].0}
                                   && KeysOf(fixed, n + 1, false) == KeysOf(fixed, n, false)
    ensures !Mapped(fixed[n].1) ==> KeysOf(fixed, n + 1, false) == KeysOf(fixed, n, false) + {fixed[n].0}
                                    && KeysOf(fixed, n + 1, true) == KeysOf(fixed, n, true)
    ensures fixed[n].0 !in KeysOf(fixed, n, true) && fixed[n].0 !in KeysOf(fixed, n, false)
  {
  }

  lemma InOrderStep(fixed: seq<Request>, n: nat, spots: Spots, s: Spot)
    requires n < |fixed| && DistinctKeys(fixed) && InOrder(fixed, n, spots)
    requires forall k | k in spots && spots[k].Key() == s.Key() :: spots[k].start + spots[k].size <= s.start
    ensures InOrder(fixed, n + 1, spots[fixed[n].0 := s])
  {
  }
}
