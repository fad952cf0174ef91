/**
 Task collection, memoised dependency depth, and the canonical task order that
 slot indices, generated task indices and kernel priorities share.
 */
module TaskOrder {
  import opened Wrappers
  import StableSort

  datatype Task = Task(name: string, priority: nat, dependsOn: seq<Task>)

  type TaskMap = map<string, Task>

  // --- Collection -----------------------------------------------------------------

  /** `t` is `root` or occurs somewhere below it. */
  predicate Occurs(t: Task, root: Task) {
    t == root || exists i :: 0 <= i < |root.dependsOn| && Occurs(t, root.dependsOn[i])
  }

  /** The recorded task has its own name, and all its dependencies are recorded. */
  predicate Complete(n: string, out: TaskMap)
    requires n in out
  {
    out[n].name == n && forall i | 0 <= i < |out[n].dependsOn| :: out[n].dependsOn[i].name in out
  }

  predicate Keeps(before: TaskMap, after: TaskMap) {
    forall n | n in before :: n in after && after[n] == before[n]
  }

  /** `task` and everything it needs, unless its name is known already. */
  function Walked(task: Task, before: TaskMap): TaskMap
    decreases task, |task.dependsOn| + 1
  {
    if task.name in before then before else WalkedDeps(task, |task.dependsOn|, before[task.name := task])
  }

  function WalkedDeps(task: Task, d: nat, before: TaskMap): TaskMap
    requires d <= |task.dependsOn|
    decreases task, d
  {
    if d == 0 then before else Walked(task.dependsOn[d - 1], WalkedDeps(task, d - 1, before))
  }

  /** Records `task` and everything it needs, unless its name is known already. */
  method Walk(task: Task, before: TaskMap) returns (out: TaskMap)
    ensures out == Walked(task, before)
    ensures Keeps(before, out) && task.name in out
    ensures forall n | n in out && n !in before :: Complete(n, out) && Occurs(out[n], task)
    decreases task
  {
    hide Occurs, Walked, WalkedDeps;
    WalkedUnfolds(task, before);
    if task.name in before { return before; }
    out := before[task.name := task];
    for d := 0 to |task.dependsOn|
      invariant out == WalkedDeps(task, d, before[task.name := task])
      invariant Keeps(before, out) && task.name in out && out[task.name] == task
      invariant forall n | n in out && n !in before && n != task.name :: Complete(n, out) && Occurs(out[n], task)
      invariant forall i | 0 <= i < d :: task.dependsOn[i].name in out
    {
      ghost var mid := out;
      out := Walk(task.dependsOn[d], out);
      WalkedOne(task, d, before[task.name := task]);
      forall n | n in out && n !in before && n != task.name ensures Complete(n, out) && Occurs(out[n], task) {
        if n in mid { assert Complete(n, mid); } else { OccursIn(out[n], task, d); }
      }
    }
    OccursIn(task, task, 0);
  }

  lemma {:induction false} WalkedUnfolds(task: Task, before: TaskMap)
    ensures task.name in before ==> Walked(task, before) == before
    ensures task.name !in before ==>
              && Walked(task, before) == WalkedDeps(task, |task.dependsOn|, before[task.name := task])
              && WalkedDeps(task, 0, before[task.name := task]) == before[task.name := task]
  {
  }

  lemma WalkedOne(task: Task, d: nat, before: TaskMap)
    requires d < |task.dependsOn|
    ensures WalkedDeps(task, d + 1, before) == Walked(task.dependsOn[d], WalkedDeps(task, d, before))
  {
  }

  lemma {:induction false} OccursIn(t: Task, root: Task, i: nat)
    ensures t == root ==> Occurs(t, root)
    ensures i < |root.dependsOn| && Occurs(t, root.dependsOn[i]) ==> Occurs(t, root)
  {
  }

  /** The tasks of the first `n` entries. */
  function TasksOf(entries: seq<Task>, n: nat): TaskMap
    requires n <= |entries|
  {
    if n == 0 then map[] else Walked(entries[n - 1], TasksOf(entries, n - 1))
  }

  predicate Closed(tasks: TaskMap) {
    forall n | n in tasks :: Complete(n, tasks)
  }

  /** The collected tasks are closed under dependencies, hold every entry, and nothing unrelated. */
  method CollectTasks(entries: seq<Task>) returns (tasks: TaskMap)
    ensures tasks == TasksOf(entries, |entries|) && Closed(tasks)
    ensures forall i | 0 <= i < |entries| :: entries[i].name in tasks
    ensures forall n | n in tasks :: Needed(tasks[n], entries, |entries|)
    ensures OneTaskPerName(entries) ==> Acyclic(tasks, HeightRank(tasks))
  {
    hide Occurs, Acyclic, OneTaskPerName, Walked, HeightRank, Needed, Closed;
    tasks := map[];
    assert Closed(tasks) by { NothingOpen(); }
    for e := 0 to |entries|
      invariant tasks == TasksOf(entries, e) && Closed(tasks)
      invariant forall i | 0 <= i < e :: entries[i].name in tasks
      invariant forall n | n in tasks :: Needed(tasks[n], entries, e)
    {
      ghost var mid := tasks;
      tasks := Walk(entries[e], tasks);
      CollectStep(mid, tasks, entries, e);
    }
    if OneTaskPerName(entries) { CollectedAcyclic(tasks, entries); }
  }

  lemma NothingOpen()
    ensures Closed(map[])
  {
  }

  lemma {:induction false} CollectStep(before: TaskMap, out: TaskMap, entries: seq<Task>, e: nat)
    requires e < |entries| && Closed(before) && Keeps(before, out)
    requires forall n | n in before :: Needed(before[n], entries, e)
    requires forall n | n in out && n !in before :: Complete(n, out) && Occurs(out[n], entries[e])
    ensures Closed(out) && forall n | n in out :: Needed(out[n], entries, e + 1)
  {
    hide Occurs;
    forall n | n in out ensures Complete(n, out) { if n in before { assert Complete(n, before); } }
    forall n | n in out ensures Needed(out[n], entries, e + 1) {
      if n in before { assert Needed(before[n], entries, e); } else { assert Occurs(out[n], entries[e]); }
    }
  }

  /** Some of the first `e` entries is the task or needs it. */
  predicate Needed(t: Task, entries: seq<Task>, e: nat)
    requires e <= |entries|
  {
    exists i :: 0 <= i < e && Occurs(t, entries[i])
  }

  // --- Dependency depth -------------------------------------------------------------

  /** A rank that falls along every dependency: the graph has no cycle. */
  ghost predicate Acyclic(all: TaskMap, rank: map<string, nat>) {
    forall n, i | n in all && 0 <= i < |all[n].dependsOn| ::
      n in rank && var dep := all[n].dependsOn[i].name; (dep in all ==> dep in rank && rank[dep] < rank[n])
  }

  /** Tasks are finite trees: the height of one. */
  function Height(t: Task): nat {
    1 + Highest(t.dependsOn)
  }

  function Highest(tasks: seq<Task>): nat {
    if tasks == [] then 0
    else
      var rest, first := Highest(tasks[1..]), Height(tasks[0]);
      if first > rest then first else rest
  }

  lemma {:induction false} HighestBounds(tasks: seq<Task>, i: nat)
    requires i < |tasks|
    ensures Height(tasks[i]) <= Highest(tasks)
  {
    if i > 0 { HighestBounds(tasks[1..], i - 1); }
  }

  ghost function HeightRank(all: TaskMap): map<string, nat> {
    map n | n in all :: Height(all[n])
  }

  /** Tasks of one name that occur among the entries are the same task. */
  ghost predicate OneTaskPerName(entries: seq<Task>) {
    forall t, u | Needed(t, entries, |entries|) && Needed(u, entries, |entries|) && t.name == u.name :: t == u
  }

  lemma {:induction false} OccursBelow(t: Task, i: nat, root: Task)
    requires i < |t.dependsOn| && Occurs(t, root)
    ensures Occurs(t.dependsOn[i], root)
    decreases root
  {
    if t == root {
      assert Occurs(t.dependsOn[i], root.dependsOn[i]);
    } else {
      var j :| 0 <= j < |root.dependsOn| && Occurs(t, root.dependsOn[j]);
      OccursBelow(t, i, root.dependsOn[j]);
    }
  }

  /** What has been collected has no dependency cycle, provided that a name always means the same task. */
  lemma CollectedAcyclic(all: TaskMap, entries: seq<Task>)
    requires Closed(all) && OneTaskPerName(entries) && forall n | n in all :: Needed(all[n], entries, |entries|)
    ensures Acyclic(all, HeightRank(all))
  {
    hide Occurs, Height;
    forall n, i | n in all && 0 <= i < |all[n].dependsOn|
      ensures all[n].dependsOn[i].name in all && Height(all[all[n].dependsOn[i].name]) < Height(all[n])
    {
      var t := all[n];
      var dep := t.dependsOn[i];
      var e :| 0 <= e < |entries| && Occurs(t, entries[e]);
      OccursBelow(t, i, entries[e]);
      assert Needed(dep, entries, |entries|);
      assert Complete(n, all) && Complete(dep.name, all);
      assert Needed(all[dep.name], entries, |entries|);
      assert all[dep.name] == dep;
      HeightOfDependency(t, i);
    }
  }

  lemma {:induction false} HeightOfDependency(t: Task, i: nat)
    requires i < |t.dependsOn|
    ensures Height(t.dependsOn[i]) < Height(t)
  {
    HighestBounds(t.dependsOn, i);
  }

  ghost function RankOf(n: string, all: TaskMap, rank: map<string, nat>): nat {
    if n in all && n in rank then 1 + rank[n] else 0
  }

  /** Depth of the dependency graph below `n`: 0 outside the map, otherwise one more than the deepest dependency. */
  ghost function Depth(n: string, all: TaskMap, rank: map<string, nat>): nat
    requires Acyclic(all, rank)
    decreases RankOf(n, all, rank), 1, 0
  {
    if n !in all then 0 else 1 + DeepestOf(n, |all[n].dependsOn|, all, rank)
  }

  ghost function DeepestOf(n: string, m: nat, all: TaskMap, rank: map<string, nat>): nat
    requires Acyclic(all, rank) && n in all && m <= |all[n].dependsOn|
    decreases RankOf(n, all, rank), 0, m
  {
    if m == 0 then 0
    else
      var rest := DeepestOf(n, m - 1, all, rank);
      var last := Depth(all[n].dependsOn[m - 1].name, all, rank);
      if last > rest then last else rest
  }

  lemma {:induction false} DeepestBounds(n: string, m: nat, i: nat, all: TaskMap, rank: map<string, nat>)
    requires Acyclic(all, rank) && n in all && i < m <= |all[n].dependsOn|
    ensures Depth(all[n].dependsOn[i].name, all, rank) <= DeepestOf(n, m, all, rank)
    decreases m
  {
    if i < m - 1 { DeepestBounds(n, m - 1, i, all, rank); }
  }

  lemma {:induction false} DeepestAttained(n: string, m: nat, all: TaskMap, rank: map<string, nat>) returns (i: nat)
    requires Acyclic(all, rank) && n in all && m <= |all[n].dependsOn| && DeepestOf(n, m, all, rank) > 0
    ensures i < m && Depth(all[n].dependsOn[i].name, all, rank) == DeepestOf(n, m, all, rank)
    decreases m
  {
    if DeepestOf(n, m, all, rank) == Depth(all[n].dependsOn[m - 1].name, all, rank) {
      i := m - 1;
    } else {
      i := DeepestAttained(n, m - 1, all, rank);
    }
  }

  /** A dependency chain that starts at `n`. */
  ghost predicate Chain(c: seq<string>, n: string, all: TaskMap) {
    && |c| > 0 && c[0] == n
    && (forall i | 0 <= i < |c| :: c[i] in all)
    && forall i | 0 <= i < |c| - 1 :: DependsOn(c[i], c[i + 1], all)
  }

  predicate DependsOn(n: string, dep: string, all: TaskMap) {
    n in all && exists i :: 0 <= i < |all[n].dependsOn| && all[n].dependsOn[i].name == dep
  }

  lemma {:induction false} DeeperThan(n: string, dep: string, all: TaskMap, rank: map<string, nat>)
    requires Acyclic(all, rank) && DependsOn(n, dep, all)
    ensures Depth(dep, all, rank) < Depth(n, all, rank)
  {
    var i :| 0 <= i < |all[n].dependsOn| && all[n].dependsOn[i].name == dep;
    DeepestBounds(n, |all[n].dependsOn|, i, all, rank);
  }

  /** No chain is longer than the depth... */
  lemma {:induction false} ChainBound(c: seq<string>, n: string, all: TaskMap, rank: map<string, nat>)
    requires Acyclic(all, rank) && Chain(c, n, all)
    ensures |c| <= Depth(n, all, rank)
    decreases |c|
  {
    if |c| > 1 {
      ChainBound(c[1..], c[1], all, rank);
      assert DependsOn(c[0], c[0 + 1], all);
      DeeperThan(n, c[1], all, rank);
    }
  }

  /** ... and some chain is as long: depth is the length of the longest dependency path. */
  lemma {:induction false} LongestChain(n: string, all: TaskMap, rank: map<string, nat>) returns (c: seq<string>)
    requires Acyclic(all, rank) && n in all
    ensures Chain(c, n, all) && |c| == Depth(n, all, rank)
    decreases Depth(n, all, rank)
  {
    var m := |all[n].dependsOn|;
    var d := DeepestOf(n, m, all, rank);
    if d == 0 {
      c := [n];
    } else {
      var i := DeepestAttained(n, m, all, rank);
      var dep := all[n].dependsOn[i].name;
      var rest := LongestChain(dep, all, rank);
      c := [n] + rest;
      assert DependsOn(n, dep, all);
      forall j | 0 <= j < |c| - 1 ensures DependsOn(c[j], c[j + 1], all) {
        if j > 0 { assert DependsOn(rest[j - 1], rest[j - 1 + 1], all); }
      }
    }
  }

  // --- When the depth recursion ends -----------------------------------------------------------

  /** No dependency chain from `n` is longer than `b`. */
  ghost predicate Bounded(n: string, all: TaskMap, b: nat) {
    forall c | Chain(c, n, all) :: |c| <= b
  }

  ghost predicate ChainsEnd(n: string, all: TaskMap) {
    exists b :: Bounded(n, all, b)
  }

  /** A chain from a dependency makes a longer one from its client. */
  lemma {:induction false} LongerChain(c: seq<string>, n: string, dep: string, all: TaskMap)
    requires n in all && DependsOn(n, dep, all) && Chain(c, dep, all)
    ensures Chain([n] + c, n, all)
  {
    var d := [n] + c;
    forall i | 0 <= i < |d| - 1 ensures DependsOn(d[i], d[i + 1], all) {
      if i > 0 { assert DependsOn(c[i - 1], c[i - 1 + 1], all); }
    }
  }

  lemma {:induction false} ShorterChain(c: seq<string>, n: string, all: TaskMap)
    requires Chain(c, n, all) && |c| > 1
    ensures DependsOn(n, c[1], all) && Chain(c[1..], c[1], all)
  {
    assert DependsOn(c[0], c[0 + 1], all);
    var d := c[1..];
    forall i | 0 <= i < |d| - 1 ensures DependsOn(d[i], d[i + 1], all) {
      assert DependsOn(c[i + 1], c[i + 1 + 1], all);
    }
  }

  lemma {:induction false} BoundedBelow(n: string, i: nat, all: TaskMap, b: nat)
    requires n in all && i < |all[n].dependsOn| && Bounded(n, all, b)
    ensures b > 0 && Bounded(all[n].dependsOn[i].name, all, b - 1)
  {
    var dep := all[n].dependsOn[i].name;
    assert Chain([n], n, all);
    assert DependsOn(n, dep, all);
    forall c | Chain(c, dep, all) ensures |c| <= b - 1 { LongerChain(c, n, dep, all); }
  }

  lemma {:induction false} BoundedAbove(n: string, all: TaskMap, b: nat)
    requires n in all && forall i | 0 <= i < |all[n].dependsOn| :: Bounded(all[n].dependsOn[i].name, all, b)
    ensures Bounded(n, all, b + 1)
  {
    forall c | Chain(c, n, all) ensures |c| <= b + 1 {
      if |c| > 1 { ShorterChain(c, n, all); }
    }
  }

  /** The memoised recursion with a limit on its nesting; `None` when the limit is reached. */
  function Recur(name: string, all: TaskMap, cache: map<string, nat>, fuel: nat): Option<map<string, nat>>
    decreases fuel, 1, 0
  {
    if name in cache then Some(cache)
    else if name !in all then Some(cache[name := 0])
    else if fuel == 0 then None
    else
      match RecurDeps(all[name].dependsOn, |all[name].dependsOn|, all, cache, fuel)
      case None => None
      case Some(r) => Some(r.1[name := if r.0 < MAX_DEPTH then r.0 + 1 else MAX_DEPTH])
  }

  /** The deepest of the first `m` dependencies, and the cache after them. */
  function RecurDeps(deps: seq<Task>, m: nat, all: TaskMap, cache: map<string, nat>, fuel: nat)
    : Option<(nat, map<string, nat>)>
    requires m <= |deps| && fuel > 0
    decreases fuel, 0, m
  {
    if m == 0 then Some((0, cache))
    else
      match RecurDeps(deps, m - 1, all, cache, fuel)
      case None => None
      case Some(r) =>
        match Recur(deps[m - 1].name, all, r.1, fuel - 1)
        case None => None
        case Some(c) =>
          var d := if deps[m - 1].name in c then c[deps[m - 1].name] else 0;
          Some((if d > r.0 then d else r.0, c))
  }

  /** A higher limit changes nothing once the recursion returns. */
  lemma {:induction false} MoreFuel(name: string, all: TaskMap, cache: map<string, nat>, fuel: nat, more: nat)
    requires Recur(name, all, cache, fuel).Some? && fuel <= more
    ensures Recur(name, all, cache, more) == Recur(name, all, cache, fuel)
    decreases fuel, 1, 0
  {
    if name !in cache && name in all {
      MoreFuelDeps(all[name].dependsOn, |all[name].dependsOn|, all, cache, fuel, more);
    }
  }

  lemma {:induction false} MoreFuelDeps(deps: seq<Task>, m: nat, all: TaskMap, cache: map<string, nat>, fuel: nat,
                                        more: nat)
    requires m <= |deps| && 0 < fuel <= more && RecurDeps(deps, m, all, cache, fuel).Some?
    ensures RecurDeps(deps, m, all, cache, more) == RecurDeps(deps, m, all, cache, fuel)
    decreases fuel, 0, m
  {
    if m > 0 {
      MoreFuelDeps(deps, m - 1, all, cache, fuel, more);
      MoreFuel(deps[m - 1].name, all, RecurDeps(deps, m - 1, all, cache, fuel).value.1, fuel - 1, more - 1);
    }
  }

  /** The recursion returns, however deep it may have to go. */
  ghost predicate Ends(name: string, all: TaskMap) {
    exists fuel :: Recur(name, all, map[], fuel).Some?
  }

  lemma {:induction false} BoundedEnds(name: string, all: TaskMap, cache: map<string, nat>, b: nat)
    requires Bounded(name, all, b)
    ensures Recur(name, all, cache, b).Some?
    decreases b, 1, 0
  {
    if name !in cache && name in all {
      assert Chain([name], name, all);
      BoundedDepsEnd(name, |all[name].dependsOn|, all, cache, b);
    }
  }

  lemma {:induction false} BoundedDepsEnd(name: string, m: nat, all: TaskMap, cache: map<string, nat>, b: nat)
    requires Bounded(name, all, b) && name in all && m <= |all[name].dependsOn| && b > 0
    ensures RecurDeps(all[name].dependsOn, m, all, cache, b).Some?
    decreases b, 0, m
  {
    hide Bounded;
    if m > 0 {
      BoundedDepsEnd(name, m - 1, all, cache, b);
      BoundedBelow(name, m - 1, all, b);
      var r := RecurDeps(all[name].dependsOn, m - 1, all, cache, b).value;
      BoundedEnds(all[name].dependsOn[m - 1].name, all, r.1, b - 1);
    }
  }

  /** Everything in the cache has bounded chains. */
  ghost predicate CacheEnds(cache: map<string, nat>, all: TaskMap) {
    forall n | n in cache :: ChainsEnd(n, all)
  }

  lemma {:induction false} EndsBounded(name: string, all: TaskMap, cache: map<string, nat>, fuel: nat)
    requires Recur(name, all, cache, fuel).Some? && CacheEnds(cache, all)
    ensures ChainsEnd(name, all) && CacheEnds(Recur(name, all, cache, fuel).value, all)
    decreases fuel, 1, 0
  {
    hide Chain;
    if name in cache {
    } else if name !in all {
      assert Bounded(name, all, 0) by { NoChain(name, all); }
    } else {
      var m := |all[name].dependsOn|;
      var b := DepsBounded(name, m, all, cache, fuel);
      BoundedAbove(name, all, b);
    }
  }

  lemma NoChain(name: string, all: TaskMap)
    requires name !in all
    ensures Bounded(name, all, 0)
  {
  }

  lemma {:induction false} DepsBounded(name: string, m: nat, all: TaskMap, cache: map<string, nat>, fuel: nat)
    returns (b: nat)
    requires name in all && m <= |all[name].dependsOn| && fuel > 0 && CacheEnds(cache, all)
    requires RecurDeps(all[name].dependsOn, m, all, cache, fuel).Some?
    ensures forall i | 0 <= i < m :: Bounded(all[name].dependsOn[i].name, all, b)
    ensures CacheEnds(RecurDeps(all[name].dependsOn, m, all, cache, fuel).value.1, all)
    decreases fuel, 0, m
  {
    hide Bounded, Chain;
    if m == 0 {
      b := 0;
    } else {
      var deps := all[name].dependsOn;
      var b0 := DepsBounded(name, m - 1, all, cache, fuel);
      var r := RecurDeps(deps, m - 1, all, cache, fuel).value;
      EndsBounded(deps[m - 1].name, all, r.1, fuel - 1);
      var b1 :| Bounded(deps[m - 1].name, all, b1);
      b := b0 + b1;
      forall i | 0 <= i < m ensures Bounded(deps[i].name, all, b) {
        BoundedMore(deps[i].name, all, if i < m - 1 then b0 else b1, b);
      }
    }
  }

  lemma BoundedMore(n: string, all: TaskMap, b: nat, more: nat)
    requires Bounded(n, all, b) && b <= more
    ensures Bounded(n, all, more)
  {
  }

  /** The depth recursion from a name ends exactly when the dependency chains from it do. */
  lemma {:induction false} EndsIffBounded(name: string, all: TaskMap)
    ensures Ends(name, all) <==> ChainsEnd(name, all)
  {
    hide Bounded, Recur;
    if Ends(name, all) {
      var fuel :| Recur(name, all, map[], fuel).Some?;
      EndsBounded(name, all, map[], fuel);
    }
    if ChainsEnd(name, all) {
      var b :| Bounded(name, all, b);
      BoundedEnds(name, all, map[], b);
    }
  }

  /** The least bound, which some chain attains. */
  ghost function LeastBound(n: string, all: TaskMap, b: nat): (l: nat)
    requires Bounded(n, all, b)
    ensures Bounded(n, all, l) && (l > 0 ==> exists c :: Chain(c, n, all) && |c| == l)
  {
    if b == 0 then 0
    else if Bounded(n, all, b - 1) then LeastBound(n, all, b - 1)
    else
      assert exists c :: Chain(c, n, all) && |c| == b by { var c :| Chain(c, n, all) && !(|c| <= b - 1); }
      b
  }

  ghost function BoundOf(n: string, all: TaskMap): (l: nat)
    requires ChainsEnd(n, all)
    ensures Bounded(n, all, l) && (l > 0 ==> exists c :: Chain(c, n, all) && |c| == l)
  {
    var b :| Bounded(n, all, b);
    LeastBound(n, all, b)
  }

  ghost predicate AllEnd(all: TaskMap) {
    forall n | n in all :: ChainsEnd(n, all)
  }

  ghost function ChainRank(all: TaskMap): map<string, nat>
    requires AllEnd(all)
  {
    map n | n in all :: BoundOf(n, all)
  }

  lemma {:induction false} ChainRankFalls(all: TaskMap)
    requires AllEnd(all)
    ensures Acyclic(all, ChainRank(all))
  {
    hide Chain, Bounded;
    forall n, i | n in all && 0 <= i < |all[n].dependsOn| && all[n].dependsOn[i].name in all
      ensures BoundOf(all[n].dependsOn[i].name, all) < BoundOf(n, all)
    {
      var dep := all[n].dependsOn[i].name;
      BoundedBelow(n, i, all, BoundOf(n, all));
      if BoundOf(dep, all) > 0 {
        var c :| Chain(c, dep, all) && |c| == BoundOf(dep, all);
        AtMost(c, dep, all, BoundOf(n, all) - 1);
      }
    }
  }

  lemma AtMost(c: seq<string>, n: string, all: TaskMap, b: nat)
    requires Chain(c, n, all) && Bounded(n, all, b)
    ensures |c| <= b
  {
  }

  /** There is a rank that falls along every dependency exactly when the recursion ends for every task. */
  lemma {:induction false} AcyclicIffEnds(all: TaskMap)
    ensures (exists rank :: Acyclic(all, rank)) <==> forall n | n in all :: Ends(n, all)
  {
    hide Bounded, Recur, Acyclic, Ends, ChainsEnd;
    forall n ensures Ends(n, all) <==> ChainsEnd(n, all) { EndsIffBounded(n, all); }
    if exists rank :: Acyclic(all, rank) {
      var rank :| Acyclic(all, rank);
      forall n | n in all ensures ChainsEnd(n, all) { RankBounds(n, all, rank); }
    }
    if forall n | n in all :: Ends(n, all) {
      ChainRankFalls(all);
    }
  }

  lemma {:induction false} RankBounds(n: string, all: TaskMap, rank: map<string, nat>)
    requires Acyclic(all, rank)
    ensures ChainsEnd(n, all)
  {
    hide Chain, Acyclic, Depth;
    forall c | Chain(c, n, all) ensures |c| <= Depth(n, all, rank) { ChainBound(c, n, all, rank); }
    assert Bounded(n, all, Depth(n, all, rank));
  }

  // --- A name used for two tasks -----------------------------------------------------------------

  const NAMESAKE := Task("a", 0, [])
  const MIDDLE := Task("b", 0, [NAMESAKE])
  const OUTER := Task("a", 0, [MIDDLE])

  lemma {:induction false} OuterCollected()
    ensures TasksOf([OUTER], 1) == map["a" := OUTER, "b" := MIDDLE]
  {
    assert TasksOf([OUTER], 0) == map[];
    assert "a" != "b";
    var one: TaskMap := map["a" := OUTER];
    var two: TaskMap := map["a" := OUTER, "b" := MIDDLE];
    assert Walked(NAMESAKE, two) == two;
    assert WalkedDeps(MIDDLE, 1, two) == two by { assert WalkedDeps(MIDDLE, 0, two) == two; }
    assert one["b" := MIDDLE] == two;
    assert Walked(MIDDLE, one) == two;
    assert WalkedDeps(OUTER, 1, one) == two by { assert WalkedDeps(OUTER, 0, one) == one; }
    assert Walked(OUTER, map[]) == two;
  }

  /** Back and forth between the two names, as long as one likes. */
  function BackAndForth(n: nat): seq<string> {
    if n == 0 then [] else BackAndForth(n - 1) + [if n % 2 == 1 then "a" else "b"]
  }

  lemma {:induction false} EndlessChain(all: TaskMap, n: nat)
    requires all == map["a" := OUTER, "b" := MIDDLE] && n > 0
    ensures |BackAndForth(n)| == n && Chain(BackAndForth(n), "a", all)
    ensures BackAndForth(n)[n - 1] == if n % 2 == 1 then "a" else "b"
  {
    assert "a" in all && "b" in all;
    if n == 1 {
      assert BackAndForth(0) == [];
    } else {
      EndlessChain(all, n - 1);
      var c, d := BackAndForth(n), BackAndForth(n - 1);
      assert all["a"].dependsOn[0].name == "b" && all["b"].dependsOn[0].name == "a";
      assert DependsOn("a", "b", all) && DependsOn("b", "a", all);
      forall i | 0 <= i < |c| - 1 ensures DependsOn(c[i], c[i + 1], all) {
        if i < |d| - 1 { assert DependsOn(d[i], d[i + 1], all); }
      }
    }
  }

  /**
   A name used for two tasks can close a cycle in what is collected: `a` needs `b`, which needs another
   `a`. The recursion from it does not end, and no rank falls along its dependencies.
   */
  lemma {:induction false} SharedNameCycle()
    ensures var all := TasksOf([OUTER], 1); !Ends("a", all) && forall rank :: !Acyclic(all, rank)
  {
    hide Recur, Bounded, Acyclic, Ends, TasksOf, Chain, ChainsEnd;
    OuterCollected();
    var all := TasksOf([OUTER], 1);
    EndsIffBounded("a", all);
    assert !ChainsEnd("a", all) by { NeverBounded(all); }
    assert "a" in all;
    AcyclicIffEnds(all);
  }

  lemma {:induction false} NeverBounded(all: TaskMap)
    requires all == map["a" := OUTER, "b" := MIDDLE]
    ensures !ChainsEnd("a", all)
  {
    hide Chain, BackAndForth;
    forall b: nat ensures !Bounded("a", all, b) { EndlessChain(all, b + 1); }
  }

  const MAX_DEPTH: nat := 255

  function Saturate(d: nat): nat {
    if d < MAX_DEPTH then d else MAX_DEPTH
  }

  /** Every cached value is the depth, clamped to one byte. */
  ghost predicate CacheOk(cache: map<string, nat>, all: TaskMap, rank: map<string, nat>)
    requires Acyclic(all, rank)
  {
    forall n | n in cache :: cache[n] == Saturate(Depth(n, all, rank))
  }

  lemma {:induction false} DepthUnfolds(n: string, all: TaskMap, rank: map<string, nat>)
    requires Acyclic(all, rank)
    ensures n !in all ==> Depth(n, all, rank) == 0
    ensures n in all ==>
              && Depth(n, all, rank) == 1 + DeepestOf(n, |all[n].dependsOn|, all, rank)
              && DeepestOf(n, 0, all, rank) == 0
  {
  }

  lemma DeepestUnfolds(n: string, i: nat, all: TaskMap, rank: map<string, nat>)
    requires Acyclic(all, rank) && n in all && i < |all[n].dependsOn|
    ensures RankOf(all[n].dependsOn[i].name, all, rank) < RankOf(n, all, rank)
    ensures DeepestOf(n, i + 1, all, rank) ==
            var last := Depth(all[n].dependsOn[i].name, all, rank);
            if last > DeepestOf(n, i, all, rank) then last else DeepestOf(n, i, all, rank)
  {
  }

  method DepDepth(name: string, all: TaskMap, before: map<string, nat>, ghost rank: map<string, nat>)
    returns (d: nat, cache: map<string, nat>)
    requires Acyclic(all, rank) && CacheOk(before, all, rank)
    ensures d == Saturate(Depth(name, all, rank))
    ensures Recur(name, all, before, 1 + RankOf(name, all, rank)) == Some(cache)
    ensures CacheOk(cache, all, rank) && name in cache && before.Keys <= cache.Keys
    decreases RankOf(name, all, rank)
  {
    hide Depth, DeepestOf, Acyclic, RankOf;
    cache := before;
    ghost var fuel := 1 + RankOf(name, all, rank);
    if name in cache { return cache[name], cache; }
    DepthUnfolds(name, all, rank);
    if name !in all {
      return 0, cache[name := 0];
    }
    var deps := all[name].dependsOn;
    var maxDep := 0;
    for i := 0 to |deps|
      invariant CacheOk(cache, all, rank) && before.Keys <= cache.Keys
      invariant maxDep == Saturate(DeepestOf(name, i, all, rank))
      invariant RecurDeps(deps, i, all, before, fuel) == Some((maxDep, cache))
    {
      var dd;
      DeepestUnfolds(name, i, all, rank);
      ghost var mid := cache;
      dd, cache := DepDepth(deps[i].name, all, cache, rank);
      MoreFuel(deps[i].name, all, mid, 1 + RankOf(deps[i].name, all, rank), fuel - 1);
      if dd > maxDep { maxDep := dd; }
    }
    d := if maxDep < MAX_DEPTH then maxDep + 1 else MAX_DEPTH;
    cache := cache[name := d];
  }

  /** The memoised table agrees with the longest-path depth on every task. */
  method DepDepths(all: TaskMap, ghost rank: map<string, nat>) returns (depths: map<string, nat>)
    requires Acyclic(all, rank)
    ensures CacheOk(depths, all, rank) && all.Keys <= depths.Keys
  {
    depths := map[];
    var todo := all.Keys;
    while todo != {}
      invariant CacheOk(depths, all, rank) && todo <= all.Keys && all.Keys - todo <= depths.Keys
    {
      var n :| n in todo;
      var _, cache := DepDepth(n, all, depths, rank);
      depths := cache;
      todo := todo - {n};
    }
  }

  // --- Canonical order ----------------------------------------------------------------

  /** Lexicographic string order. */
  predicate StrLeq(a: string, b: string) {
    a == [] || (b != [] && (a[0] < b[0] || (a[0] == b[0] && StrLeq(a[1..], b[1..]))))
  }

  /** One string begins the other, or the first character in which they differ decides. */
  lemma {:induction false} StrLeqIff(a: string, b: string)
    ensures StrLeq(a, b) <==> a <= b || exists k :: FirstDifference(a, b, k) && a[k] < b[k]
  {
    if a != [] && b != [] && a[0] == b[0] {
      StrLeqIff(a[1..], b[1..]);
      assert a == [a[0]] + a[1..] && b == [b[0]] + b[1..];
      if exists k :: FirstDifference(a[1..], b[1..], k) && a[1..][k] < b[1..][k] {
        var k :| FirstDifference(a[1..], b[1..], k) && a[1..][k] < b[1..][k];
        assert a[..k + 1] == [a[0]] + a[1..][..k] && b[..k + 1] == [b[0]] + b[1..][..k];
        assert FirstDifference(a, b, k + 1) && a[k + 1] < b[k + 1];
      }
      if exists k :: FirstDifference(a, b, k) && a[k] < b[k] {
        var k :| FirstDifference(a, b, k) && a[k] < b[k];
        assert k > 0;
        assert a[1..][..k - 1] == a[..k][1..] && b[1..][..k - 1] == b[..k][1..];
        assert FirstDifference(a[1..], b[1..], k - 1);
      }
    } else if a != [] && b != [] {
      assert a[..0] == b[..0];
      assert FirstDifference(a, b, 0);
      assert forall k | FirstDifference(a, b, k) :: k == 0;
    }
  }

  predicate FirstDifference(a: string, b: string, k: int) {
    0 <= k < |a| && k < |b| && a[..k] == b[..k] && a[k] != b[k]
  }

  lemma {:induction false} StrTotal(a: string, b: string)
    ensures StrLeq(a, b) || StrLeq(b, a)
  {
    if a != [] && b != [] { StrTotal(a[1..], b[1..]); }
  }

  lemma {:induction false} StrAntisymmetric(a: string, b: string)
    requires StrLeq(a, b) && StrLeq(b, a)
    ensures a == b
  {
    if a != [] {
      StrAntisymmetric(a[1..], b[1..]);
      assert a == [a[0]] + a[1..] && b == [b[0]] + b[1..];
    }
  }

  lemma {:induction false} StrTransitive(a: string, b: string, c: string)
    requires StrLeq(a, b) && StrLeq(b, c)
    ensures StrLeq(a, c)
  {
    if a != [] && a[0] == b[0] == c[0] { StrTransitive(a[1..], b[1..], c[1..]); }
  }

  datatype Entry = Entry(name: string, priority: nat, depth: nat)

  /** Workgroup, then depth, then name, all ascending. */
  predicate EntryLeq(a: Entry, b: Entry) {
    || a.priority < b.priority
    || (a.priority == b.priority && (a.depth < b.depth || (a.depth == b.depth && StrLeq(a.name, b.name))))
  }

  lemma EntryOrder()
    ensures StableSort.TotalPreorder(EntryLeq)
  {
    forall a, b ensures EntryLeq(a, b) || EntryLeq(b, a) { StrTotal(a.name, b.name); }
    forall a, b, c | EntryLeq(a, b) && EntryLeq(b, c) ensures EntryLeq(a, c) {
      if StrLeq(a.name, b.name) && StrLeq(b.name, c.name) { StrTransitive(a.name, b.name, c.name); }
    }
  }

  ghost function EntryFor(n: string, all: TaskMap, rank: map<string, nat>): Entry
    requires Acyclic(all, rank) && n in all
  {
    Entry(n, all[n].priority, Saturate(Depth(n, all, rank)))
  }

  /** A permutation of the task names in canonical order. */
  ghost predicate Canonical(names: seq<string>, all: TaskMap, rank: map<string, nat>)
    requires Acyclic(all, rank)
  {
    && (forall i, j | 0 <= i < j < |names| :: names[i] != names[j])
    && (forall n :: n in names <==> n in all)
    && forall i, j | 0 <= i < j < |names| :: ComesFirst(names[i], names[j], all, rank)
  }

  /** A lower workgroup, or the same and a smaller depth, as far as one byte tells, or the same and the name. */
  ghost predicate ComesFirst(n: string, m: string, all: TaskMap, rank: map<string, nat>)
    requires Acyclic(all, rank)
  {
    && n in all && m in all
    && var d, e := Depth(n, all, rank), Depth(m, all, rank);
       || all[n].priority < all[m].priority
       || (all[n].priority == all[m].priority && d < e && d < 255)
       || (all[n].priority == all[m].priority && (d == e || (d >= 255 && e >= 255)) && StrLeq(n, m))
  }

  lemma LeqComesFirst(n: string, m: string, all: TaskMap, rank: map<string, nat>)
    requires Acyclic(all, rank) && n in all && m in all
    ensures EntryLeq(EntryFor(n, all, rank), EntryFor(m, all, rank)) <==> ComesFirst(n, m, all, rank)
  {
    hide Depth, Acyclic, StrLeq;
  }

  /** Every entry is the entry of its task, each task once. */
  ghost predicate EntriesOk(entries: seq<Entry>, keys: set<string>, all: TaskMap, rank: map<string, nat>)
    requires Acyclic(all, rank) && keys <= all.Keys
  {
    && (forall i, j | 0 <= i < j < |entries| :: entries[i] != entries[j])
    && (forall e | e in entries :: e.name in keys && e == EntryFor(e.name, all, rank))
    && (forall n | n in keys :: EntryFor(n, all, rank) in entries)
  }

  method OrderedTaskNames(all: TaskMap, ghost rank: map<string, nat>) returns (names: seq<string>)
    requires Acyclic(all, rank)
    ensures Canonical(names, all, rank)
  {
    hide Depth, Acyclic, EntryLeq, StableSort.Sort;
    var depths := DepDepths(all, rank);
    var entries: seq<Entry> := [];
    var todo := all.Keys;
    ghost var done: set<string> := {};
    while todo != {}
      invariant todo <= all.Keys && done == all.Keys - todo
      invariant EntriesOk(entries, done, all, rank)
    {
      var n :| n in todo;
      var e := Entry(n, all[n].priority, depths[n]);
      assert e !in entries;
      entries := entries + [e];
      todo := todo - {n};
      done := done + {n};
    }
    assert done == all.Keys;
    var sorted := StableSort.Sort(entries, EntryLeq);
    names := seq(|sorted|, i requires 0 <= i < |sorted| => sorted[i].name);
    SortedIsCanonical(entries, sorted, names, all, rank);
  }

  lemma {:induction false} SortedIsCanonical(entries: seq<Entry>, sorted: seq<Entry>, names: seq<string>, all: TaskMap,
                          rank: map<string, nat>)
    requires Acyclic(all, rank) && EntriesOk(entries, all.Keys, all, rank)
    requires sorted == StableSort.Sort(entries, EntryLeq)
    requires |names| == |sorted| && forall i | 0 <= i < |sorted| :: names[i] == sorted[i].name
    ensures Canonical(names, all, rank)
  {
    hide Depth, Acyclic, EntryLeq, StableSort.Sort;
    StableSort.SortMembers(entries, EntryLeq);
    StableSort.SortKeepsDistinct(entries, EntryLeq);
    EntryOrder();
    StableSort.SortSorts(entries, EntryLeq);
    forall i | 0 <= i < |sorted| ensures names[i] in all && sorted[i] == EntryFor(names[i], all, rank) {
      assert sorted[i] in entries;
    }
    forall n ensures n in names <==> n in all {
      if n in all {
        var i :| 0 <= i < |sorted| && sorted[i] == EntryFor(n, all, rank);
        assert names[i] == n;
      }
    }
    forall i, j | 0 <= i < j < |names|
      ensures names[i] != names[j] && ComesFirst(names[i], names[j], all, rank)
    {
      assert sorted[i] != sorted[j] && EntryLeq(sorted[i], sorted[j]);
      LeqComesFirst(names[i], names[j], all, rank);
    }
  }

  /**
   In one workgroup a dependency precedes its client exactly when its depth is still below the
   one-byte ceiling, or its name happens to come first.
   */
  lemma {:induction false} DependencyPrecedesClient(names: seq<string>, c: nat, d: nat, all: TaskMap,
                                                    rank: map<string, nat>)
    requires Acyclic(all, rank) && Canonical(names, all, rank) && c < |names| && d < |names|
    requires DependsOn(names[c], names[d], all) && all[names[c]].priority == all[names[d]].priority
    ensures d < c <==> Depth(names[d], all, rank) < 255 || StrLeq(names[d], names[c])
  {
    hide Acyclic;
    var dep, client := names[d], names[c];
    DeeperThan(client, dep, all, rank);
    if d < c {
      assert ComesFirst(dep, client, all, rank);
    } else {
      assert d != c;
      assert ComesFirst(client, dep, all, rank);
      if StrLeq(dep, client) && StrLeq(client, dep) { StrAntisymmetric(dep, client); }
    }
  }

  /** The canonical order is unique, so every consumer that computes it gets the same one. */
  lemma {:induction false} CanonicalUnique(a: seq<string>, b: seq<string>, all: TaskMap, rank: map<string, nat>)
    requires Acyclic(all, rank) && Canonical(a, all, rank) && Canonical(b, all, rank)
    ensures a == b
  {
    hide Depth, Acyclic;
    SameLength(a, b);
    forall k | 0 <= k < |a| ensures a[k] == b[k] { CanonicalAt(a, b, all, rank, k); }
  }

  lemma {:induction false} CanonicalAt(a: seq<string>, b: seq<string>, all: TaskMap, rank: map<string, nat>, k: nat)
    requires Acyclic(all, rank) && Canonical(a, all, rank) && Canonical(b, all, rank) && |a| == |b| && k < |a|
    ensures a[..k + 1] == b[..k + 1]
  {
    hide Depth, Acyclic, ComesFirst;
    if k > 0 { CanonicalAt(a, b, all, rank, k - 1); }
    assert a[..k] == b[..k];
    assert a[k] in all && b[k] in all;
    var i :| 0 <= i < |a| && a[i] == b[k];
    var j :| 0 <= j < |b| && b[j] == a[k];
    forall m | 0 <= m < k ensures a[m] == b[m] { assert a[..k][m] == b[..k][m]; }
    assert i >= k && j >= k;
    if a[k] != b[k] {
      assert ComesFirst(a[k], a[i], all, rank) && ComesFirst(b[k], b[j], all, rank);
      FirstBothWays(a[k], b[k], all, rank);
    }
  }

  lemma FirstBothWays(n: string, m: string, all: TaskMap, rank: map<string, nat>)
    requires Acyclic(all, rank) && ComesFirst(n, m, all, rank) && ComesFirst(m, n, all, rank)
    ensures n == m
  {
    hide Depth, Acyclic, StrLeq;
    StrAntisymmetric(n, m);
  }

  lemma SameLength(a: seq<string>, b: seq<string>)
    requires forall i, j | 0 <= i < j < |a| :: a[i] != a[j]
    requires forall i, j | 0 <= i < j < |b| :: b[i] != b[j]
    requires forall n :: n in a <==> n in b
    ensures |a| == |b|
  {
    StableSort.CountByDistinct(a);
    StableSort.CountByDistinct(b);
    assert forall n :: multiset(a)[n] == multiset(b)[n] by {
      forall n ensures multiset(a)[n] == multiset(b)[n] {
        if n in a { assert n in b; }
      }
    }
    assert multiset(a) == multiset(b);
    assert |multiset(a)| == |a| && |multiset(b)| == |b|;
  }
}
