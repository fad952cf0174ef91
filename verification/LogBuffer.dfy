/** A device's log buffer: repeated reports of one log are merged, new logs are inserted by binary search. */
module LogBuffer {
  import opened Wrappers
  import StableSort

  datatype Contents = Structured(logId: nat, body: seq<bv8>) | Text(line: seq<bv8>)

  datatype Log = Log(contents: Contents, adapters: seq<nat>, tick: Option<nat>, receivedAt: nat)

  /** Device ticks decide when both logs have one, host arrival otherwise. */
  predicate NotAfter(a: Log, b: Log) {
    if a.tick.Some? && b.tick.Some? then a.tick.value <= b.tick.value else a.receivedAt <= b.receivedAt
  }

  predicate IsLog(l: Log, id: nat) {
    l.contents.Structured? && l.contents.logId == id
  }

  predicate HasId(logs: seq<Log>, id: nat) {
    exists i | 0 <= i < |logs| :: IsLog(logs[i], id)
  }

  predicate UniqueIds(logs: seq<Log>) {
    forall i, j | 0 <= i < j < |logs| && logs[i].contents.Structured? :: !IsLog(logs[j], logs[i].contents.logId)
  }

  predicate NoDup(s: seq<nat>) {
    forall i, j | 0 <= i < j < |s| :: s[i] != s[j]
  }

  function Elements(s: seq<nat>): set<nat> {
    set x | x in s
  }

  /** `existing` followed by the adapters it does not have yet. */
  function Merge(existing: seq<nat>, more: seq<nat>): seq<nat> {
    if more == [] then existing
    else
      var front := Merge(existing, more[..|more| - 1]);
      if more[|more| - 1] in front then front else front + [more[|more| - 1]]
  }

  lemma {:induction false} MergeUnites(existing: seq<nat>, more: seq<nat>)
    ensures Elements(Merge(existing, more)) == Elements(existing) + Elements(more)
    ensures NoDup(existing) ==> NoDup(Merge(existing, more))
  {
    if more != [] {
      var n := |more| - 1;
      MergeUnites(existing, more[..n]);
      assert more == more[..n] + [more[n]];
      assert Elements(more) == Elements(more[..n]) + {more[n]};
      var front := Merge(existing, more[..n]);
      assert Elements(front + [more[n]]) == Elements(front) + {more[n]};
      assert more[n] in front <==> more[n] in Elements(front);
    }
  }

  /** The logs not after `log` come first. */
  predicate Partitioned(logs: seq<Log>, log: Log) {
    forall i, j | 0 <= i < j < |logs| && NotAfter(logs[j], log) :: NotAfter(logs[i], log)
  }

  ghost predicate IsPoint(logs: seq<Log>, log: Log, at: nat) {
    && at <= |logs|
    && (forall i | 0 <= i < at :: NotAfter(logs[i], log))
    && (forall i | at <= i < |logs| :: !NotAfter(logs[i], log))
  }

  /** Halving the part that is still in question. */
  function Bisect(logs: seq<Log>, log: Log, lo: nat, hi: nat): (at: nat)
    requires lo <= hi <= |logs|
    ensures lo <= at <= hi
    decreases hi - lo
  {
    if lo == hi then lo
    else
      var mid := (lo + hi) / 2;
      if NotAfter(logs[mid], log) then Bisect(logs, log, mid + 1, hi) else Bisect(logs, log, lo, mid)
  }

  /** On a partitioned buffer halving finds the partition point. */
  lemma {:induction false} BisectFinds(logs: seq<Log>, log: Log, lo: nat, hi: nat)
    requires lo <= hi <= |logs| && Partitioned(logs, log)
    requires forall i | 0 <= i < lo :: NotAfter(logs[i], log)
    requires forall i | hi <= i < |logs| :: !NotAfter(logs[i], log)
    ensures IsPoint(logs, log, Bisect(logs, log, lo, hi))
    decreases hi - lo
  {
    hide NotAfter;
    if lo < hi {
      var mid := (lo + hi) / 2;
      if NotAfter(logs[mid], log) { BisectFinds(logs, log, mid + 1, hi); } else { BisectFinds(logs, log, lo, mid); }
    }
  }

  /** Binary search. Where the buffer is not partitioned it still ends somewhere inside. */
  method PartitionPoint(logs: seq<Log>, log: Log) returns (at: nat)
    ensures at <= |logs| && at == Bisect(logs, log, 0, |logs|)
    ensures Partitioned(logs, log) ==> IsPoint(logs, log, at)
  {
    hide NotAfter, IsPoint;
    var lo, hi := 0, |logs|;
    while lo < hi
      invariant 0 <= lo <= hi <= |logs|
      invariant Bisect(logs, log, lo, hi) == Bisect(logs, log, 0, |logs|)
    {
      var mid := (lo + hi) / 2;
      if NotAfter(logs[mid], log) {
        lo := mid + 1;
      } else {
        hi := mid;
      }
    }
    at := lo;
    if Partitioned(logs, log) { BisectFinds(logs, log, 0, |logs|); }
  }

  method MergeAdapters(existing: seq<nat>, more: seq<nat>) returns (r: seq<nat>)
    ensures r == Merge(existing, more)
  {
    r := existing;
    for i := 0 to |more|
      invariant r == Merge(existing, more[..i])
    {
      assert more[..i + 1][..i] == more[..i];
      if more[i] !in r { r := r + [more[i]]; }
    }
    assert more[..|more|] == more;
  }

  function LastWith(logs: seq<Log>, id: nat): (k: nat)
    requires HasId(logs, id)
    ensures k < |logs| && IsLog(logs[k], id) && forall i | k < i < |logs| :: !IsLog(logs[i], id)
  {
    var n := |logs| - 1;
    if IsLog(logs[n], id) then n else LastWith(logs[..n], id)
  }

  function MergedAt(logs: seq<Log>, k: nat, log: Log): seq<Log>
    requires k < |logs|
  {
    logs[k := logs[k].(adapters := Merge(logs[k].adapters, log.adapters))]
  }

  /** One push: merge into the last entry with the same id, or insert where the search ends. */
  function After(before: seq<Log>, log: Log): seq<Log> {
    if log.contents.Structured? && HasId(before, log.contents.logId) then
      MergedAt(before, LastWith(before, log.contents.logId), log)
    else
      var at := Bisect(before, log, 0, |before|);
      before[..at] + [log] + before[at..]
  }

  /** What a run of pushes leaves. */
  function BufferOf(logs: seq<Log>): seq<Log> {
    if logs == [] then [] else After(BufferOf(logs[..|logs| - 1]), logs[|logs| - 1])
  }

  class DeviceHandle {
    var buffer: seq<Log>

    constructor ()
      ensures buffer == []
    {
      buffer := [];
    }

    method PushLog(log: Log)
      modifies this
      ensures buffer == After(old(buffer), log)
    {
      hide Merge, NotAfter, Bisect;
      if log.contents.Structured? {
        var k := |buffer|;
        while k > 0
          invariant 0 <= k <= |buffer| && buffer == old(buffer)
          invariant forall i | k <= i < |buffer| :: !IsLog(buffer[i], log.contents.logId)
        {
          k := k - 1;
          if IsLog(buffer[k], log.contents.logId) {
            var merged := MergeAdapters(buffer[k].adapters, log.adapters);
            assert HasId(buffer, log.contents.logId);
            assert LastWith(buffer, log.contents.logId) == k;
            buffer := buffer[k := buffer[k].(adapters := merged)];
            return;
          }
        }
      }
      var at := PartitionPoint(buffer, log);
      buffer := buffer[..at] + [log] + buffer[at..];
    }

    /** Any run of pushes from an empty buffer. */
    method PushAll(logs: seq<Log>)
      requires buffer == []
      modifies this
      ensures buffer == BufferOf(logs) && Collected(buffer, logs)
      ensures Compatible(logs) ==> InOrder(buffer)
    {
      hide Collected, After, Compatible, InOrder;
      NothingCollected(logs);
      for n := 0 to |logs|
        invariant buffer == BufferOf(logs[..n]) && Collected(buffer, logs[..n])
      {
        ghost var before := buffer;
        PushLog(logs[n]);
        CollectStep(before, logs[..n], logs[n]);
        assert logs[..n + 1] == logs[..n] + [logs[n]];
        assert logs[..n + 1][..n] == logs[..n];
      }
      assert logs[..|logs|] == logs;
      if Compatible(logs) { CompatibleSorts(logs); }
    }
  }

  // --- Runs --------------------------------------------------------------------------------------

  /** A log apart from who reported it. */
  function Strip(l: Log): Log {
    l.(adapters := [])
  }

  function Stripped(logs: seq<Log>): (r: seq<Log>)
    ensures |r| == |logs| && forall i | 0 <= i < |logs| :: r[i] == Strip(logs[i])
  {
    seq(|logs|, i requires 0 <= i < |logs| => Strip(logs[i]))
  }

  /** The logs of a run without repeated reports, in arrival order. */
  function Fresh(logs: seq<Log>): seq<Log> {
    if logs == [] then []
    else
      var front, last := Fresh(logs[..|logs| - 1]), logs[|logs| - 1];
      if last.contents.Structured? && HasId(front, last.contents.logId) then front else front + [last]
  }

  /** Everyone who reported the log with this id. */
  function Reporters(logs: seq<Log>, id: nat): set<nat> {
    set i, a | 0 <= i < |logs| && IsLog(logs[i], id) && a in logs[i].adapters :: a
  }

  /** All logs of the run carry ticks, or none does. */
  predicate Uniform(logs: seq<Log>, ticked: bool) {
    forall i | 0 <= i < |logs| :: logs[i].tick.Some? == ticked
  }

  function Order(ticked: bool): (Log, Log) -> bool {
    (a: Log, b: Log) => if ticked then a.tick.GetOr(0) <= b.tick.GetOr(0) else a.receivedAt <= b.receivedAt
  }

  lemma OrderIsTotal(ticked: bool)
    ensures StableSort.TotalPreorder(Order(ticked))
  {
  }

  ghost predicate Merged(buffer: seq<Log>, logs: seq<Log>) {
    forall i | 0 <= i < |buffer| && buffer[i].contents.Structured? ::
      && Elements(buffer[i].adapters) == Reporters(logs, buffer[i].contents.logId)
      && ((forall j | 0 <= j < |logs| :: NoDup(logs[j].adapters)) ==> NoDup(buffer[i].adapters))
  }

  /**
   After a run: every distinct log once, reported by all who reported it, and, when the run is uniform,
   in order with ties as they arrived.
   */
  ghost predicate Collected(buffer: seq<Log>, logs: seq<Log>) {
    && UniqueIds(buffer) && multiset(Stripped(buffer)) == multiset(Stripped(Fresh(logs)))
    && Merged(buffer, logs)
    && (forall ticked | Uniform(logs, ticked) ::
        Stripped(buffer) == StableSort.Sort(Stripped(Fresh(logs)), Order(ticked)))
  }

  lemma NothingCollected(logs: seq<Log>)
    ensures Collected([], logs[..0])
  {
  }

  lemma {:induction false} HasIdStripped(a: seq<Log>, b: seq<Log>, id: nat)
    requires multiset(Stripped(a)) == multiset(Stripped(b)) && HasId(a, id)
    ensures HasId(b, id)
  {
    var i :| 0 <= i < |a| && IsLog(a[i], id);
    assert Stripped(a)[i] in multiset(Stripped(a));
    assert Stripped(a)[i] in multiset(Stripped(b));
    var j :| 0 <= j < |b| && Stripped(b)[j] == Stripped(a)[i];
    assert IsLog(b[j], id);
  }

  lemma SameIds(a: seq<Log>, b: seq<Log>, id: nat)
    requires multiset(Stripped(a)) == multiset(Stripped(b))
    ensures HasId(a, id) <==> HasId(b, id)
  {
    if HasId(a, id) { HasIdStripped(a, b, id); }
    if HasId(b, id) { HasIdStripped(b, a, id); }
  }

  lemma {:induction false} FreshSnoc(logs: seq<Log>, log: Log)
    ensures Fresh(logs + [log]) ==
            if log.contents.Structured? && HasId(Fresh(logs), log.contents.logId) then Fresh(logs)
            else Fresh(logs) + [log]
  {
    assert (logs + [log])[..|logs|] == logs;
  }

  lemma ReportersSnoc(logs: seq<Log>, log: Log, id: nat)
    ensures Reporters(logs + [log], id) == Reporters(logs, id) + if IsLog(log, id) then Elements(log.adapters) else {}
  {
    var all := logs + [log];
    forall a | a in Reporters(logs, id) ensures a in Reporters(all, id) {
      var i :| 0 <= i < |logs| && IsLog(logs[i], id) && a in logs[i].adapters;
      assert all[i] == logs[i];
    }
    forall a | IsLog(log, id) && a in log.adapters ensures a in Reporters(all, id) {
      assert all[|logs|] == log;
    }
  }

  lemma {:induction false} NoReporters(buffer: seq<Log>, logs: seq<Log>, id: nat)
    requires multiset(Stripped(buffer)) == multiset(Stripped(Fresh(logs))) && !HasId(buffer, id)
    ensures Reporters(logs, id) == {}
  {
    SameIds(buffer, Fresh(logs), id);
    FreshHasAll(logs, id);
  }

  lemma {:induction false} FreshHasAll(logs: seq<Log>, id: nat)
    requires !HasId(Fresh(logs), id)
    ensures forall i | 0 <= i < |logs| :: !IsLog(logs[i], id)
  {
    if logs != [] {
      var front, last := Fresh(logs[..|logs| - 1]), logs[|logs| - 1];
      FreshSnoc(logs[..|logs| - 1], last);
      assert logs[..|logs| - 1] + [last] == logs;
      forall i | 0 <= i < |front| ensures !IsLog(front[i], id) {
        assert Fresh(logs)[i] == front[i];
      }
      FreshHasAll(logs[..|logs| - 1], id);
      assert last.contents.Structured? && !HasId(front, last.contents.logId) ==> Fresh(logs)[|front|] == last;
    }
  }

  lemma {:induction false} CollectStep(before: seq<Log>, logs: seq<Log>, log: Log)
    requires Collected(before, logs)
    ensures Collected(After(before, log), logs + [log])
  {
    hide Merge, NotAfter, Fresh, Reporters, Stripped, Collected, Bisect, HasId, Partitioned, IsPoint;
    FreshSnoc(logs, log);
    if log.contents.Structured? { CollectedIds(before, logs, log.contents.logId); }
    if log.contents.Structured? && HasId(before, log.contents.logId) {
      MergeStep(before, logs, log, LastWith(before, log.contents.logId));
    } else {
      if Partitioned(before, log) { BisectFinds(before, log, 0, |before|); }
      InsertStep(before, logs, log, Bisect(before, log, 0, |before|));
    }
  }

  lemma {:induction false} CollectedIds(before: seq<Log>, logs: seq<Log>, id: nat)
    requires Collected(before, logs)
    ensures HasId(before, id) <==> HasId(Fresh(logs), id)
  {
    hide Fresh, Stripped, HasId;
    SameIds(before, Fresh(logs), id);
  }

  lemma {:induction false} MergeStep(before: seq<Log>, logs: seq<Log>, log: Log, k: nat)
    requires Collected(before, logs) && k < |before| && log.contents.Structured? && IsLog(before[k], log.contents.logId)
    requires Fresh(logs + [log]) == Fresh(logs)
    ensures Collected(before[k := before[k].(adapters := Merge(before[k].adapters, log.adapters))], logs + [log])
  {
    hide Merge, NotAfter, Fresh, Reporters, StableSort.Sort;
    var after := before[k := before[k].(adapters := Merge(before[k].adapters, log.adapters))];
    assert Stripped(after) == Stripped(before);
    forall ticked | Uniform(logs + [log], ticked) ensures Uniform(logs, ticked) { UniformFront(logs, log, ticked); }
    MergeUnites(before[k].adapters, log.adapters);
    forall i | 0 <= i < |after| && after[i].contents.Structured?
      ensures Elements(after[i].adapters) == Reporters(logs + [log], after[i].contents.logId)
      ensures (forall j | 0 <= j < |logs + [log]| :: NoDup((logs + [log])[j].adapters)) ==> NoDup(after[i].adapters)
    {
      ReportersSnoc(logs, log, after[i].contents.logId);
      DistinctFront(logs, log);
    }
  }

  lemma UniformFront(logs: seq<Log>, log: Log, ticked: bool)
    requires Uniform(logs + [log], ticked)
    ensures Uniform(logs, ticked) && log.tick.Some? == ticked
  {
    assert forall i | 0 <= i < |logs| :: (logs + [log])[i] == logs[i];
    assert (logs + [log])[|logs|] == log;
  }

  lemma DistinctFront(logs: seq<Log>, log: Log)
    ensures (forall j | 0 <= j < |logs + [log]| :: NoDup((logs + [log])[j].adapters)) ==>
              NoDup(log.adapters) && forall j | 0 <= j < |logs| :: NoDup(logs[j].adapters)
  {
    assert (logs + [log])[|logs|] == log;
    assert forall j | 0 <= j < |logs| :: (logs + [log])[j] == logs[j];
  }

  lemma StrippedInsert(before: seq<Log>, log: Log, at: nat)
    requires at <= |before|
    ensures Stripped(before[..at] + [log] + before[at..]) ==
            Stripped(before)[..at] + [Strip(log)] + Stripped(before)[at..]
    ensures multiset(Stripped(before[..at] + [log] + before[at..])) == multiset(Stripped(before)) + multiset{Strip(log)}
  {
    assert Stripped(before) == Stripped(before)[..at] + Stripped(before)[at..];
  }

  lemma {:induction false} InsertStep(before: seq<Log>, logs: seq<Log>, log: Log, at: nat)
    requires Collected(before, logs) && at <= |before| && (Partitioned(before, log) ==> IsPoint(before, log, at))
    requires log.contents.Structured? ==> !HasId(before, log.contents.logId)
    requires Fresh(logs + [log]) == Fresh(logs) + [log]
    ensures Collected(before[..at] + [log] + before[at..], logs + [log])
  {
    hide NotAfter, Fresh, Reporters, StableSort.Sort, StableSort.Insert, Partitioned, IsPoint, Merged;
    var after := before[..at] + [log] + before[at..];
    StrippedInsert(before, log, at);
    assert Stripped(Fresh(logs) + [log]) == Stripped(Fresh(logs)) + [Strip(log)];
    InsertUnique(before, log, at);
    InsertMerged(before, logs, log, at);
    forall ticked | Uniform(logs + [log], ticked)
      ensures Stripped(after) == StableSort.Sort(Stripped(Fresh(logs + [log])), Order(ticked))
    {
      UniformFront(logs, log, ticked);
      InsertSorts(before, logs, log, at, ticked);
    }
  }

  lemma InsertUnique(before: seq<Log>, log: Log, at: nat)
    requires UniqueIds(before) && at <= |before| && (log.contents.Structured? ==> !HasId(before, log.contents.logId))
    ensures UniqueIds(before[..at] + [log] + before[at..])
  {
    var after := before[..at] + [log] + before[at..];
    assert forall i | 0 <= i < |after| ::
        after[i] == if i < at then before[i] else if i == at then log else before[i - 1];
    assert log.contents.Structured? ==> forall i | 0 <= i < |before| :: !IsLog(before[i], log.contents.logId);
  }

  lemma {:induction false} InsertMerged(before: seq<Log>, logs: seq<Log>, log: Log, at: nat)
    requires Merged(before, logs) && at <= |before| && multiset(Stripped(before)) == multiset(Stripped(Fresh(logs)))
    requires log.contents.Structured? ==> !HasId(before, log.contents.logId)
    ensures Merged(before[..at] + [log] + before[at..], logs + [log])
  {
    hide Fresh, Reporters, Stripped;
    var after := before[..at] + [log] + before[at..];
    forall i | 0 <= i < |after| && after[i].contents.Structured?
      ensures Elements(after[i].adapters) == Reporters(logs + [log], after[i].contents.logId)
      ensures (forall j | 0 <= j < |logs + [log]| :: NoDup((logs + [log])[j].adapters)) ==> NoDup(after[i].adapters)
    {
      ReportersSnoc(logs, log, after[i].contents.logId);
      DistinctFront(logs, log);
      if i == at {
        NoReporters(before, logs, log.contents.logId);
      } else {
        var k := if i < at then i else i - 1;
        assert after[i] == before[k];
        assert HasId(before, after[i].contents.logId);
      }
    }
  }

  // --- Uniform runs ------------------------------------------------------------------------------

  /** At the partition point a log goes exactly where the stable insertion puts it. */
  lemma {:induction false} PointIsInsert(s: seq<Log>, x: Log, at: nat, leq: (Log, Log) -> bool)
    requires at <= |s| && (forall i | 0 <= i < at :: leq(s[i], x)) && (forall i | at <= i < |s| :: !leq(s[i], x))
    ensures StableSort.Insert(s, x, leq) == s[..at] + [x] + s[at..]
  {
    if at == |s| {
      assert s[..at] == s && s[at..] == [];
    } else {
      var n := |s| - 1;
      PointIsInsert(s[..n], x, at, leq);
      assert s[..n][..at] == s[..at];
      assert s[at..] == s[..n][at..] + [s[n]];
    }
  }

  lemma {:induction false} FreshUniform(logs: seq<Log>, ticked: bool)
    requires Uniform(logs, ticked)
    ensures Uniform(Fresh(logs), ticked)
  {
    if logs != [] { FreshUniform(logs[..|logs| - 1], ticked); }
  }

  lemma {:induction false} StrippedUniform(buffer: seq<Log>, s: seq<Log>, ticked: bool)
    requires multiset(Stripped(buffer)) == multiset(Stripped(s)) && Uniform(s, ticked)
    ensures Uniform(buffer, ticked)
  {
    forall i | 0 <= i < |buffer| ensures buffer[i].tick.Some? == ticked {
      assert Stripped(buffer)[i] in multiset(Stripped(buffer));
      assert Stripped(buffer)[i] in multiset(Stripped(s));
      var j :| 0 <= j < |s| && Stripped(s)[j] == Stripped(buffer)[i];
    }
  }

  lemma {:induction false} InsertSorts(before: seq<Log>, logs: seq<Log>, log: Log, at: nat, ticked: bool)
    requires Collected(before, logs) && at <= |before| && (Partitioned(before, log) ==> IsPoint(before, log, at))
    requires Uniform(logs, ticked) && log.tick.Some? == ticked
    ensures Stripped(before)[..at] + [Strip(log)] + Stripped(before)[at..] ==
            StableSort.Sort(Stripped(Fresh(logs)) + [Strip(log)], Order(ticked))
  {
    hide Fresh, StableSort.Sort, Merged, UniqueIds;
    var leq := Order(ticked);
    var s := Stripped(before);
    FreshUniform(logs, ticked);
    StrippedUniform(before, Fresh(logs), ticked);
    OrderIsTotal(ticked);
    StableSort.SortSorts(Stripped(Fresh(logs)), leq);
    assert forall i | 0 <= i < |before| :: NotAfter(before[i], log) <==> leq(s[i], Strip(log));
    assert Partitioned(before, log) by { SortedPartitions(before, log, ticked); }
    PointIsInsert(s, Strip(log), at, leq);
    SortSnoc(Stripped(Fresh(logs)), Strip(log), leq);
  }

  lemma SortedPartitions(before: seq<Log>, log: Log, ticked: bool)
    requires StableSort.Sorted(Stripped(before), Order(ticked)) && Uniform(before, ticked) && log.tick.Some? == ticked
    ensures Partitioned(before, log)
  {
    forall i, j | 0 <= i < j < |before| && NotAfter(before[j], log) ensures NotAfter(before[i], log) {
      assert Order(ticked)(Stripped(before)[i], Stripped(before)[j]);
    }
  }

  lemma {:induction false} SortSnoc(s: seq<Log>, x: Log, leq: (Log, Log) -> bool)
    ensures StableSort.Sort(s + [x], leq) == StableSort.Insert(StableSort.Sort(s, leq), x, leq)
  {
    assert (s + [x])[..|s|] == s;
  }

  /** What a uniform run leaves is sorted, and logs that tie are in arrival order. */
  lemma {:induction false} UniformRunIsSorted(buffer: seq<Log>, logs: seq<Log>, ticked: bool, key: Log)
    requires Collected(buffer, logs) && Uniform(logs, ticked)
    ensures StableSort.Sorted(Stripped(buffer), Order(ticked))
    ensures StableSort.Filter(Stripped(buffer), StableSort.Tied(key, Order(ticked))) ==
            StableSort.Filter(Stripped(Fresh(logs)), StableSort.Tied(key, Order(ticked)))
  {
    hide Fresh, StableSort.Sort, Merged, UniqueIds, StableSort.Filter;
    OrderIsTotal(ticked);
    StableSort.SortSorts(Stripped(Fresh(logs)), Order(ticked));
    StableSort.SortStable(Stripped(Fresh(logs)), Order(ticked), key);
  }

  // --- Exactly the runs that are sorted ------------------------------------------------------------

  /** Logs that both stay in the buffer: not two reports of one log. */
  predicate Coexist(a: Log, b: Log) {
    a.contents.Structured? ==> !IsLog(b, a.contents.logId)
  }

  /** The comparison is transitive among logs of the run that stay together. */
  ghost predicate Compatible(logs: seq<Log>) {
    forall a, b, c | a in logs && b in logs && c in logs :: !Breaks(a, b, c)
  }

  /** Each of the three is not after the next, yet the first is after the last. */
  predicate Breaks(a: Log, b: Log, c: Log) {
    && Coexist(a, b) && Coexist(b, c) && Coexist(a, c)
    && NotAfter(a, b) && NotAfter(b, c) && !NotAfter(a, c)
  }

  ghost predicate InOrder(buffer: seq<Log>) {
    forall i, j | 0 <= i < j < |buffer| :: NotAfter(buffer[i], buffer[j])
  }

  /** Every entry of the buffer is a log of the run, apart from its adapters. */
  ghost predicate FromRun(buffer: seq<Log>, logs: seq<Log>) {
    forall i | 0 <= i < |buffer| :: exists l :: l in logs && Strip(l) == Strip(buffer[i])
  }

  lemma {:induction false} BufferFromRun(logs: seq<Log>)
    ensures FromRun(BufferOf(logs), logs) && UniqueIds(BufferOf(logs))
  {
    if logs != [] {
      var front, last := logs[..|logs| - 1], logs[|logs| - 1];
      BufferFromRun(front);
      AfterFromRun(BufferOf(front), front, last);
      assert logs == front + [last];
    }
  }

  lemma {:induction false} AfterFromRun(before: seq<Log>, logs: seq<Log>, log: Log)
    requires FromRun(before, logs) && UniqueIds(before)
    ensures FromRun(After(before, log), logs + [log]) && UniqueIds(After(before, log))
  {
    hide Bisect, Merge;
    var after, all := After(before, log), logs + [log];
    assert forall l | l in logs :: l in all;
    assert log in all;
    if log.contents.Structured? && HasId(before, log.contents.logId) {
      var k := LastWith(before, log.contents.logId);
      forall i | 0 <= i < |after| ensures exists l :: l in all && Strip(l) == Strip(after[i]) {
        var l :| l in logs && Strip(l) == Strip(before[i]);
        assert l in all && Strip(l) == Strip(after[i]);
      }
    } else {
      var at := Bisect(before, log, 0, |before|);
      InsertUnique(before, log, at);
      forall i | 0 <= i < |after| ensures exists l :: l in all && Strip(l) == Strip(after[i]) {
        if i != at {
          var j := if i < at then i else i - 1;
          assert after[i] == before[j];
          var l :| l in logs && Strip(l) == Strip(before[j]);
          assert l in all && Strip(l) == Strip(after[i]);
        }
      }
    }
  }

  lemma BreaksStripped(a: Log, b: Log, c: Log, x: Log, y: Log, z: Log)
    requires Strip(a) == Strip(x) && Strip(b) == Strip(y) && Strip(c) == Strip(z)
    ensures Breaks(a, b, c) <==> Breaks(x, y, z)
  {
    assert a.tick == Strip(a).tick && b.tick == Strip(b).tick && c.tick == Strip(c).tick;
    assert a.receivedAt == Strip(a).receivedAt && b.receivedAt == Strip(b).receivedAt;
    assert c.receivedAt == Strip(c).receivedAt;
    assert a.contents == Strip(a).contents && b.contents == Strip(b).contents && c.contents == Strip(c).contents;
    assert x.tick == Strip(x).tick && y.tick == Strip(y).tick && z.tick == Strip(z).tick;
    assert x.receivedAt == Strip(x).receivedAt && y.receivedAt == Strip(y).receivedAt;
    assert z.receivedAt == Strip(z).receivedAt;
    assert x.contents == Strip(x).contents && y.contents == Strip(y).contents && z.contents == Strip(z).contents;
  }

  lemma {:induction false} CompatiblePartitions(before: seq<Log>, logs: seq<Log>, log: Log)
    requires FromRun(before, logs) && UniqueIds(before) && InOrder(before) && Compatible(logs + [log])
    requires log.contents.Structured? ==> !HasId(before, log.contents.logId)
    ensures Partitioned(before, log)
  {
    hide NotAfter, Strip;
    var all := logs + [log];
    forall i, j | 0 <= i < j < |before| && NotAfter(before[j], log) ensures NotAfter(before[i], log) {
      var x :| x in logs && Strip(x) == Strip(before[i]);
      var y :| y in logs && Strip(y) == Strip(before[j]);
      assert x in all && y in all && log in all;
      assert !Breaks(x, y, log);
      BreaksStripped(x, y, log, before[i], before[j], log);
      assert log.contents.Structured? ==> !IsLog(before[i], log.contents.logId);
      assert log.contents.Structured? ==> !IsLog(before[j], log.contents.logId);
    }
  }

  lemma {:induction false} InsertInOrder(before: seq<Log>, log: Log, at: nat)
    requires InOrder(before) && IsPoint(before, log, at)
    ensures InOrder(before[..at] + [log] + before[at..])
  {
    var after := before[..at] + [log] + before[at..];
    forall i, j | 0 <= i < j < |after| ensures NotAfter(after[i], after[j]) {
      assert after[i] == if i < at then before[i] else if i == at then log else before[i - 1];
      assert after[j] == if j < at then before[j] else if j == at then log else before[j - 1];
    }
  }

  lemma {:induction false} CompatibleFront(logs: seq<Log>, log: Log)
    requires Compatible(logs + [log])
    ensures Compatible(logs)
  {
    assert forall l | l in logs :: l in logs + [log];
  }

  /** A run with a transitive comparison leaves the buffer in order. */
  lemma {:induction false} CompatibleSorts(logs: seq<Log>)
    requires Compatible(logs)
    ensures InOrder(BufferOf(logs))
  {
    hide NotAfter, Bisect, Merge, Compatible;
    if logs != [] {
      var front, last := logs[..|logs| - 1], logs[|logs| - 1];
      assert logs == front + [last];
      CompatibleFront(front, last);
      CompatibleSorts(front);
      BufferFromRun(front);
      AfterInOrder(BufferOf(front), front, last);
    }
  }

  lemma {:induction false} AfterInOrder(before: seq<Log>, logs: seq<Log>, log: Log)
    requires FromRun(before, logs) && UniqueIds(before) && InOrder(before) && Compatible(logs + [log])
    ensures InOrder(After(before, log))
  {
    hide Bisect, Merge, FromRun, UniqueIds, Compatible, Partitioned, IsPoint;
    if !(log.contents.Structured? && HasId(before, log.contents.logId)) {
      CompatiblePartitions(before, logs, log);
      BisectFinds(before, log, 0, |before|) by { hide NotAfter; }
      InsertInOrder(before, log, Bisect(before, log, 0, |before|));
    }
  }

  lemma CompatibleIsOfSet(a: seq<Log>, b: seq<Log>)
    requires multiset(a) == multiset(b) && Compatible(b)
    ensures Compatible(a)
  {
    hide Breaks;
    forall l | l in a ensures l in b { assert l in multiset(a); }
  }

  /** What is out of order once stays so. */
  lemma {:induction false} StaysUnsorted(before: seq<Log>, log: Log)
    requires !InOrder(before)
    ensures !InOrder(After(before, log))
  {
    hide Bisect, Merge;
    var after := After(before, log);
    var i, j :| 0 <= i < j < |before| && !NotAfter(before[i], before[j]);
    if log.contents.Structured? && HasId(before, log.contents.logId) {
      assert !NotAfter(after[i], after[j]);
    } else {
      var at := Bisect(before, log, 0, |before|);
      var k, l := if i < at then i else i + 1, if j < at then j else j + 1;
      assert after[k] == before[i] && after[l] == before[j];
    }
  }

  lemma {:induction false} RunStaysUnsorted(logs: seq<Log>, rest: seq<Log>)
    requires !InOrder(BufferOf(logs))
    ensures !InOrder(BufferOf(logs + rest))
    decreases |rest|
  {
    hide After, InOrder;
    if rest == [] {
      assert logs + rest == logs;
    } else {
      var n := |rest| - 1;
      RunStaysUnsorted(logs, rest[..n]);
      assert (logs + rest)[..|logs + rest| - 1] == logs + rest[..n];
      StaysUnsorted(BufferOf(logs + rest[..n]), rest[n]);
    }
  }

  /** Three logs that break the order, pushed one after the other, are left as they came. */
  lemma {:induction false} BreakIsLeft(a: Log, b: Log, c: Log)
    requires Breaks(a, b, c)
    ensures BufferOf([a, b, c]) == [a, b, c] && !InOrder([a, b, c])
  {
    hide NotAfter;
    assert [a][..0] == [] && [a, b][..1] == [a] && [a, b, c][..2] == [a, b];
    assert BufferOf([]) == [] && BufferOf([a]) == [a];
    assert Bisect([a], b, 0, 1) == 1 by { assert Bisect([a], b, 1, 1) == 1; }
    assert BufferOf([a, b]) == [a, b];
    assert Bisect([a, b], c, 0, 2) == 2 by { assert Bisect([a, b], c, 2, 2) == 2; }
    assert BufferOf([a, b, c]) == [a, b, c];
    assert !NotAfter([a, b, c][0], [a, b, c][2]);
  }

  lemma Without(logs: seq<Log>, x: Log) returns (rest: seq<Log>)
    requires x in logs
    ensures multiset(logs) == multiset(rest) + multiset{x}
  {
    var i :| 0 <= i < |logs| && logs[i] == x;
    rest := logs[..i] + logs[i + 1..];
    assert logs == logs[..i] + [x] + logs[i + 1..];
  }

  /** Every arrival order of the logs leaves the buffer in order. */
  ghost predicate AlwaysInOrder(logs: seq<Log>) {
    forall arrival | multiset(arrival) == multiset(logs) :: InOrder(BufferOf(arrival))
  }

  /** The buffer is in order after every arrival order exactly when the comparison is transitive on the logs. */
  lemma {:induction false} SortedIffCompatible(logs: seq<Log>)
    ensures AlwaysInOrder(logs) <==> Compatible(logs)
  {
    hide NotAfter, BufferOf, InOrder, Breaks;
    if Compatible(logs) {
      forall arrival | multiset(arrival) == multiset(logs) ensures InOrder(BufferOf(arrival)) {
        CompatibleIsOfSet(arrival, logs);
        CompatibleSorts(arrival);
      }
    } else {
      var a, b, c :| a in logs && b in logs && c in logs && Breaks(a, b, c);
      DistinctBreak(a, b, c);
      var r1 := Without(logs, a);
      assert b in multiset(r1) by { assert b in multiset(logs); }
      var r2 := Without(r1, b);
      assert c in multiset(r2) by { assert c in multiset(logs); }
      var rest := Without(r2, c);
      BreakIsLeft(a, b, c);
      RunStaysUnsorted([a, b, c], rest);
      assert multiset([a, b, c] + rest) == multiset(logs);
    }
  }

  lemma DistinctBreak(a: Log, b: Log, c: Log)
    requires Breaks(a, b, c)
    ensures a != b && b != c && a != c
  {
  }

  /** With all ticks or none, the comparison is transitive. */
  lemma UniformIsCompatible(logs: seq<Log>, ticked: bool)
    requires Uniform(logs, ticked)
    ensures Compatible(logs)
  {
  }

  /** It can be transitive on a mixed run, too. */
  lemma MixedCanBeCompatible(early: nat, late: nat, now: nat)
    requires early < late
    ensures var logs := [Log(Text([]), [], Some(early), now), Log(Text([]), [], None, now + 1),
                         Log(Text([]), [], Some(late), now + 2)];
            Compatible(logs) && !Uniform(logs, true) && !Uniform(logs, false)
  {
    var logs := [Log(Text([]), [], Some(early), now), Log(Text([]), [], None, now + 1),
                 Log(Text([]), [], Some(late), now + 2)];
    assert logs[0].tick.Some? && logs[1].tick.None?;
    forall a, b, c | a in logs && b in logs && c in logs ensures !Breaks(a, b, c) {
      assert a == logs[0] || a == logs[1] || a == logs[2];
      assert b == logs[0] || b == logs[1] || b == logs[2];
      assert c == logs[0] || c == logs[1] || c == logs[2];
    }
  }

  /**
   Some mixed runs cannot be sorted at all: a ticked log, a later untimed one, and a still later one with
   an earlier tick are each not after the next, in a circle.
   */
  lemma MixedRunHasNoOrder(early: nat, late: nat, now: nat, s: seq<Log>)
    requires early < late && |s| == 3
    requires Log(Text([]), [], Some(late), now) in s && Log(Text([]), [], None, now + 1) in s
             && Log(Text([]), [], Some(early), now + 2) in s
    ensures !InOrder(s) && !AlwaysInOrder(s)
  {
    var a, b := Log(Text([]), [], Some(late), now), Log(Text([]), [], None, now + 1);
    var c := Log(Text([]), [], Some(early), now + 2);
    assert !NotAfter(b, a) && !NotAfter(c, b) && !NotAfter(a, c);
    var i :| 0 <= i < 3 && s[i] == a;
    var j :| 0 <= j < 3 && s[j] == b;
    var k :| 0 <= k < 3 && s[k] == c;
    assert i != j && j != k && i != k;
    assert j < i ==> !NotAfter(s[j], s[i]);
    assert k < j ==> !NotAfter(s[k], s[j]);
    assert i < k ==> !NotAfter(s[i], s[k]);
    assert Breaks(a, b, c);
    SortedIffCompatible(s);
  }
}
