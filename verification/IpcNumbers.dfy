/**
 Sequence numbers. They are handed out without a look at who still goes by them; these results say exactly
 when that lets one call cut another off.
 */
module IpcNumbers {
  import opened Wrappers
  import opened IpcProtocol
  import opened IpcRuns
  import opened IpcRunTheorems

  /** No call still holds the number that comes next. */
  ghost predicate SeqFree(s: State) {
    forall c | c in s.calls && s.calls[c].Holding() :: s.calls[c].Seq() != SeqOf(s.issued)
  }

  /** The step hands out no number that is still held. */
  ghost predicate Free(s: State, e: Event) {
    e.Number? && e.encoded.Some? ==> SeqFree(s)
  }

  /** A run that hands out free numbers only. */
  ghost predicate Careful(s: State, events: seq<Event>)
    requires Legal(s, events)
    decreases |events|
  {
    events == [] || (Free(s, events[0]) && Careful(Apply(s, events[0]), events[1..]))
  }

  /** The step of one call, registering or cleaning up, drops the channel of another. */
  predicate CutsOff(s: State, e: Event, d: nat)
    requires Enabled(s, e)
  {
    && (e.Insert? || e.RemoveTimedOut?) && e.c != d
    && d in s.calls && !s.calls[d].sender.Dropped? && d in Apply(s, e).calls && Apply(s, e).calls[d].sender.Dropped?
  }

  /** `c` cuts another call off, or is cut off by another. */
  ghost predicate Harms(s: State, e: Event, c: nat)
    requires Enabled(s, e)
  {
    exists d :: CutsOff(s, e, d) && (d == c || e.c == c)
  }

  ghost predicate HarmIn(s: State, events: seq<Event>, c: nat)
    requires Legal(s, events)
    decreases |events|
  {
    events != [] && (Harms(s, events[0], c) || HarmIn(Apply(s, events[0]), events[1..], c))
  }

  // --- Without a clash there is no harm -------------------------------------------------------------

  /** No other call holds the number of `c` while `c` holds it. */
  ghost predicate Alone(s: State, c: nat) {
    c in s.calls && s.calls[c].Holding() ==>
      forall d | d in s.calls && d != c && s.calls[d].Holding() :: s.calls[d].Seq() != s.calls[c].Seq()
  }

  /** Who holds a number after a step held it before, or has just been given it. */
  lemma HoldingStep(s: State, e: Event, c: nat)
    requires Inv(s) && Enabled(s, e) && c in Apply(s, e).calls && Apply(s, e).calls[c].Holding()
    ensures if e.Number? && e.encoded.Some? && e.c == c then Apply(s, e).calls[c].Seq() == SeqOf(s.issued)
            else c in s.calls && s.calls[c].Holding() && s.calls[c].Seq() == Apply(s, e).calls[c].Seq()
  {
    hide SeqOf, Collected, CallOk;
    if c in s.calls {
      assert CallOk(s.calls[c], s.issued);
      HeldCall(s.calls[c], s.issued);
    }
    if e.Insert? || e.RemoveTimedOut? || e.Resolve? {
      var k := if e.Resolve? then e.s else s.calls[e.c].Seq();
      if k in s.pending { assert EntryOk(s, k); }
    }
  }

  lemma HeldCall(call: Call, issued: nat)
    requires CallOk(call, issued)
    ensures call.phase.Waiting? || call.phase.Registered? ==> !call.sender.Unused?
    ensures call.phase.Checked? ==> call.sender.Unused?
  {
  }

  lemma AloneStep(s: State, e: Event, c: nat)
    requires Inv(s) && Enabled(s, e) && Alone(s, c) && Free(s, e)
    ensures Alone(Apply(s, e), c)
  {
    hide Inv, Enabled, Apply, SeqOf;
    var t := Apply(s, e);
    if c in t.calls && t.calls[c].Holding() {
      HoldingStep(s, e, c);
      forall d | d in t.calls && d != c && t.calls[d].Holding() ensures t.calls[d].Seq() != t.calls[c].Seq() {
        HoldingStep(s, e, d);
      }
    }
  }

  lemma AloneIsHarmless(s: State, e: Event, c: nat)
    requires Inv(s) && Enabled(s, e) && Alone(s, c)
    ensures !Harms(s, e, c)
  {
    hide SeqOf, CallOk, Collected;
    if e.Insert? || e.RemoveTimedOut? {
      var k := s.calls[e.c].Seq();
      if k in s.pending { assert EntryOk(s, k); }
    }
  }

  lemma {:induction false} AloneRun(s: State, events: seq<Event>, c: nat)
    requires Inv(s) && Alone(s, c) && Legal(s, events) && Careful(s, events)
    ensures !HarmIn(s, events, c)
    decreases |events|
  {
    hide Inv, Enabled, Apply, Alone, Free, Harms;
    if events != [] {
      AloneIsHarmless(s, events[0], c);
      Step(s, events[0]);
      AloneStep(s, events[0], c);
      AloneRun(Apply(s, events[0]), events[1..], c);
    }
  }

  // --- With a clash there is -------------------------------------------------------------------------

  /** How the calls `c`, just numbered, and `d`, which holds the same number, come to harm. */
  function Clash(s: State, c: nat, d: nat): seq<Event>
    requires d in s.calls
  {
    var call := s.calls[d];
    if call.sender.InMap? then [Insert(c)]
    else if call.phase.Numbered? then [Insert(c), Insert(d)]
    else if call.phase.TimingOut? then [Insert(c), RemoveTimedOut(d)]
    else if call.phase.Waiting? then [Insert(c), TimerFires(d), RemoveTimedOut(d)]
    else [Insert(c), Send(d, true), TimerFires(d), RemoveTimedOut(d)]
  }

  lemma {:induction false} OneStep(s: State, e: Event, rest: seq<Event>, c: nat)
    requires Enabled(s, e) && Legal(Apply(s, e), rest) && Careful(Apply(s, e), rest) && !e.Number?
    ensures Legal(s, [e] + rest) && Careful(s, [e] + rest)
    ensures Harms(s, e, c) || HarmIn(Apply(s, e), rest, c) ==> HarmIn(s, [e] + rest, c)
  {
    hide Enabled, Apply, Harms;
    assert ([e] + rest)[1..] == rest;
  }

  lemma {:induction false} NoSteps(s: State)
    ensures Legal(s, []) && Careful(s, [])
  {
  }

  /** `d` removes by its number the entry that `c` has put there. */
  lemma CleansUpForeign(s: State, c: nat, d: nat)
    requires Owns(s, c) && s.calls[c].sender.InMap?
    requires In(s, d, TimingOut) && c != d && s.calls[d].Seq() == s.calls[c].Seq()
    ensures Harms(s, RemoveTimedOut(d), c)
  {
    hide SeqOf;
    assert CutsOff(s, RemoveTimedOut(d), c);
  }

  ghost predicate Taken(s: State, c: nat, d: nat) {
    && Owns(s, c) && s.calls[c].sender.InMap? && d in s.calls && c != d && s.calls[d].Seq() == s.calls[c].Seq()
  }

  lemma {:induction false} ClashTimingOut(s: State, c: nat, d: nat)
    requires Taken(s, c, d) && In(s, d, TimingOut)
    ensures Legal(s, [RemoveTimedOut(d)]) && Careful(s, [RemoveTimedOut(d)]) && HarmIn(s, [RemoveTimedOut(d)], c)
  {
    hide SeqOf, Legal, Careful, HarmIn, Apply, Harms;
    CleansUpForeign(s, c, d);
    NoSteps(Apply(s, RemoveTimedOut(d)));
    OneStep(s, RemoveTimedOut(d), [], c);
    assert [RemoveTimedOut(d)] + [] == [RemoveTimedOut(d)];
  }

  lemma {:induction false} ClashWaiting(s: State, c: nat, d: nat)
    requires Taken(s, c, d) && In(s, d, Waiting) && s.calls[d].sender.InExhausted?
    ensures var events := [TimerFires(d), RemoveTimedOut(d)];
            Legal(s, events) && Careful(s, events) && HarmIn(s, events, c)
  {
    hide SeqOf, Legal, Careful, HarmIn, Harms;
    ClashTimingOut(Apply(s, TimerFires(d)), c, d);
    OneStep(s, TimerFires(d), [RemoveTimedOut(d)], c);
    assert [TimerFires(d)] + [RemoveTimedOut(d)] == [TimerFires(d), RemoveTimedOut(d)];
  }

  lemma {:induction false} ClashRegistered(s: State, c: nat, d: nat)
    requires Taken(s, c, d) && In(s, d, Registered) && s.calls[d].sender.InExhausted?
    ensures var events := [Send(d, true), TimerFires(d), RemoveTimedOut(d)];
            Legal(s, events) && Careful(s, events) && HarmIn(s, events, c)
  {
    hide SeqOf, Legal, Careful, HarmIn, Harms;
    ClashWaiting(Apply(s, Send(d, true)), c, d);
    OneStep(s, Send(d, true), [TimerFires(d), RemoveTimedOut(d)], c);
    assert [Send(d, true)] + [TimerFires(d), RemoveTimedOut(d)] == [Send(d, true), TimerFires(d), RemoveTimedOut(d)];
  }

  lemma {:induction false} ClashNumbered(s: State, c: nat, d: nat)
    requires Taken(s, c, d) && In(s, d, Numbered)
    ensures Legal(s, [Insert(d)]) && Careful(s, [Insert(d)]) && HarmIn(s, [Insert(d)], c)
  {
    hide SeqOf, Legal, Careful, HarmIn;
    assert CutsOff(s, Insert(d), c);
    NoSteps(Apply(s, Insert(d)));
    OneStep(s, Insert(d), [], c);
    assert [Insert(d)] + [] == [Insert(d)];
  }

  lemma {:induction false} ClashHarms(s: State, c: nat, d: nat)
    requires Inv(s) && In(s, c, Numbered) && c != d && d in s.calls
    requires s.calls[d].Holding() && s.calls[d].Seq() == s.calls[c].Seq()
    ensures Legal(s, Clash(s, c, d)) && Careful(s, Clash(s, c, d)) && HarmIn(s, Clash(s, c, d), c)
  {
    hide SeqOf, CallOk, Legal, Careful, HarmIn;
    var t := Apply(s, Insert(c));
    var k := s.calls[c].Seq();
    if k in s.pending { assert EntryOk(s, k); }
    assert CallOk(s.calls[c], s.issued);
    HeldNumbered(s.calls[c], s.issued);
    if s.calls[d].sender.InMap? {
      assert Owns(s, d);
      assert CutsOff(s, Insert(c), d);
      NoSteps(t);
      OneStep(s, Insert(c), [], c);
      assert [Insert(c)] + [] == [Insert(c)];
    } else {
      assert t.calls[d] == s.calls[d];
      assert Taken(t, c, d);
      match s.calls[d].phase {
        case Numbered => ClashNumbered(t, c, d);
        case TimingOut => ClashTimingOut(t, c, d);
        case Waiting => ClashWaiting(t, c, d);
        case _ => ClashRegistered(t, c, d);
      }
      assert Clash(s, c, d) == [Insert(c)] + Clash(s, c, d)[1..];
      OneStep(s, Insert(c), Clash(s, c, d)[1..], c);
    }
  }

  lemma HeldNumbered(call: Call, issued: nat)
    requires CallOk(call, issued) && call.phase.Numbered?
    ensures call.sender.Unused?
  {
  }

  /**
   After a request is given its number, some continuation that hands out free numbers only lets it cut
   another call off, or be cut off, exactly when the number is still held.
   */
  lemma {:induction false} NumberHarmsIff(s: State, c: nat, frame: seq<Byte>)
    requires Inv(s) && In(s, c, Checked)
    ensures var t := Apply(s, Number(c, Some(frame)));
            (exists events :: Legal(t, events) && Careful(t, events) && HarmIn(t, events, c)) <==> !SeqFree(s)
  {
    hide SeqOf, CallOk, Legal, Careful, HarmIn;
    var t := Apply(s, Number(c, Some(frame)));
    assert CallOk(s.calls[c], s.issued);
    HeldCall(s.calls[c], s.issued);
    Step(s, Number(c, Some(frame)));
    if SeqFree(s) {
      assert Alone(t, c);
      forall events | Legal(t, events) && Careful(t, events) ensures !HarmIn(t, events, c) { AloneRun(t, events, c); }
    } else {
      var d :| d in s.calls && s.calls[d].Holding() && s.calls[d].Seq() == SeqOf(s.issued);
      ReturnHarms(s, c, d, frame);
    }
  }

  /** In a run that hands out free numbers only, no call ever cuts another off. */
  lemma {:induction false} NobodyCutOff(events: seq<Event>, c: nat)
    requires Legal(INITIAL, events) && Careful(INITIAL, events)
    ensures !HarmIn(INITIAL, events, c)
  {
    hide Legal, Careful, HarmIn;
    InitialOk();
    AloneRun(INITIAL, events, c);
  }

  /** A call may outlive 65535 later requests before its number can come up again. */
  lemma WindowKeepsNumbersFree(s: State)
    requires Inv(s) && forall c | c in s.calls && s.calls[c].Holding() :: s.issued - s.calls[c].ordinal < 0x1_0000
    ensures SeqFree(s)
  {
    hide MapOk, EarlyOk, SeqOf;
    forall c | c in s.calls && s.calls[c].Holding() ensures s.calls[c].Seq() != SeqOf(s.issued) {
      assert CallOk(s.calls[c], s.issued);
      NumbersDiffer(s.calls[c].ordinal, s.issued);
    }
  }

  lemma NumbersDiffer(a: nat, b: nat)
    requires a < b < a + SEQ_LIMIT
    ensures SeqOf(a) != SeqOf(b)
  {
  }

  // --- Numbers run out -----------------------------------------------------------------------------

  /** `n` calls whose arguments fail to encode, and one more that has passed the check. */
  function Wasted(first: nat, n: nat): seq<Event>
    decreases n
  {
    if n == 0 then [Check(first)] else [Check(first), Number(first, None)] + Wasted(first + 1, n - 1)
  }

  ghost predicate NewFrom(s: State, first: nat) {
    !s.poisoned && forall d | d >= first :: d !in s.calls
  }

  /** They use up numbers and leave every earlier call and entry as it was. */
  lemma {:induction false} WastedRun(s: State, first: nat, n: nat)
    requires NewFrom(s, first)
    ensures Legal(s, Wasted(first, n))
    ensures var t := Run(s, Wasted(first, n));
            && t.issued == s.issued + n && t.pending == s.pending && In(t, first + n, Checked)
            && forall d | d in s.calls :: d in t.calls && t.calls[d] == s.calls[d]
    decreases n
  {
    if n == 0 {
      assert Wasted(first, 0)[1..] == [];
    } else {
      var rest := Wasted(first + 1, n - 1);
      var a := Apply(s, Check(first));
      var b := Apply(a, Number(first, None));
      WastedRun(b, first + 1, n - 1);
      hide Enabled, Apply, Legal, Run;
      WastedFront(s, first, rest);
      assert Wasted(first, n) == [Check(first), Number(first, None)] + rest;
    }
  }

  lemma {:induction false} WastedFront(s: State, first: nat, rest: seq<Event>)
    requires NewFrom(s, first)
    requires Legal(Apply(Apply(s, Check(first)), Number(first, None)), rest)
    ensures var events := [Check(first), Number(first, None)] + rest;
            Legal(s, events) && Run(s, events) == Run(Apply(Apply(s, Check(first)), Number(first, None)), rest)
  {
    var events := [Check(first), Number(first, None)] + rest;
    assert events[1..] == [Number(first, None)] + rest;
    assert events[1..][1..] == rest;
    assert Legal(Apply(s, Check(first)), events[1..]);
  }

  /** The number of call 0, the first ever given out, comes up again after 65535 requests that fail to encode. */
  lemma {:induction false} NumberReturns(start: seq<Event>)
    requires Legal(INITIAL, start)
    requires var s := Run(INITIAL, start);
             s.issued == 1 && NewFrom(s, 1) && 0 in s.calls && s.calls[0].ordinal == 0 && s.calls[0].Holding()
    ensures var events := start + Wasted(1, SEQ_LIMIT - 1);
            && Legal(INITIAL, events)
            && var s, t := Run(INITIAL, start), Run(INITIAL, events);
            && In(t, SEQ_LIMIT, Checked) && t.pending == s.pending && t.calls.Keys >= {0} && t.calls[0] == s.calls[0]
            && SeqOf(t.issued) == t.calls[0].Seq() && !SeqFree(t)
  {
    hide Legal, Run, Wasted;
    WastedRun(Run(INITIAL, start), 1, SEQ_LIMIT - 1);
    Joined(INITIAL, start, Wasted(1, SEQ_LIMIT - 1));
    assert SeqOf(SEQ_LIMIT) == SeqOf(0);
  }

  /** A first call that is registered, only numbered, or timing out with its entry already answered. */
  datatype Start = AtMap | AtNumber | AtCleanUp(response: Response)

  function StartEvents(start: Start, frame: seq<Byte>): seq<Event> {
    match start
    case AtNumber => [Check(0), Number(0, Some(frame))]
    case AtMap => [Check(0), Number(0, Some(frame)), Insert(0)]
    case AtCleanUp(response) =>
      [Check(0), Number(0, Some(frame)), Insert(0), Send(0, true), TimerFires(0), Resolve(SeqOf(0), response)]
  }

  lemma {:induction false} Snoc(events: seq<Event>, e: Event, more: seq<Event>)
    requires Legal(INITIAL, events) && Enabled(Run(INITIAL, events), e) && more == events + [e]
    ensures Legal(INITIAL, more) && Run(INITIAL, more) == Apply(Run(INITIAL, events), e)
  {
    hide Legal, Run, Enabled, Apply;
    OneMore(INITIAL, events, e);
  }

  lemma {:induction false} StartRun(start: Start, frame: seq<Byte>)
    ensures Legal(INITIAL, StartEvents(start, frame))
    ensures var s := Run(INITIAL, StartEvents(start, frame));
            && s.issued == 1 && !s.poisoned && s.calls.Keys == {0} && s.calls[0].ordinal == 0
            && match start
               case AtNumber => s.calls[0].phase == Numbered && s.pending == map[]
               case AtMap => s.calls[0].sender == InMap && s.pending == map[SeqOf(0) := Entry(0, frame, 0)]
               case AtCleanUp(_) => s.calls[0].phase == TimingOut && !s.calls[0].sender.InMap? && s.pending == map[]
  {
    hide Legal, Run, SeqOf;
    assert Legal(INITIAL, []) && Run(INITIAL, []) == INITIAL by { StartHere(); }
    Snoc([], Check(0), [Check(0)]);
    Snoc([Check(0)], Number(0, Some(frame)), StartEvents(AtNumber, frame));
    if !start.AtNumber? {
      var a := StartEvents(AtMap, frame);
      Snoc(StartEvents(AtNumber, frame), Insert(0), a);
      if start.AtCleanUp? {
        var b, c := a + [Send(0, true)], a + [Send(0, true), TimerFires(0)];
        Snoc(a, Send(0, true), b);
        Snoc(b, TimerFires(0), c);
        Snoc(c, Resolve(SeqOf(0), start.response), StartEvents(start, frame));
      }
    }
  }

  lemma StartHere()
    ensures Legal(INITIAL, []) && Run(INITIAL, []) == INITIAL
  {
  }

  /** The run that brings the number of the first call up again. */
  function RunningOut(start: Start, frame: seq<Byte>): seq<Event> {
    StartEvents(start, frame) + Wasted(1, SEQ_LIMIT - 1)
  }

  /** What then happens to the request that is given the number. */
  function Aftermath(start: Start, c: nat): seq<Event> {
    match start
    case AtMap => [Insert(c)]
    case AtNumber => [Insert(c), Insert(0)]
    case AtCleanUp(_) => [Insert(c), RemoveTimedOut(0)]
  }

  /**
   The number of a live call does come up again: 65535 requests that fail to encode use up all the
   others. The next request then cuts the first call off if that is registered; if that has only its
   number, or is about to clean up after a timeout, the next request finds no entry and is cut off itself.
   */
  lemma {:induction false} NumbersRunOut(start: Start, frame: seq<Byte>, other: seq<Byte>)
    ensures Legal(INITIAL, RunningOut(start, frame))
    ensures var s := Run(INITIAL, RunningOut(start, frame));
            && In(s, SEQ_LIMIT, Checked)
            && (SeqOf(s.issued) in s.pending <==> start.AtMap?)
            && var t, events := Apply(s, Number(SEQ_LIMIT, Some(other))), Aftermath(start, SEQ_LIMIT);
               Legal(t, events) && Careful(t, events) && HarmIn(t, events, SEQ_LIMIT)
  {
    hide Legal, Run, Careful, HarmIn, StartEvents, Wasted, SeqFree;
    StartRun(start, frame);
    NumberReturns(StartEvents(start, frame));
    var s := Run(INITIAL, RunningOut(start, frame));
    InitialOk();
    RunKeeps(INITIAL, RunningOut(start, frame));
    ReturnHarms(s, SEQ_LIMIT, 0, other);
  }

  lemma {:induction false} ReturnHarms(s: State, c: nat, d: nat, frame: seq<Byte>)
    requires Inv(s) && In(s, c, Checked) && d in s.calls && s.calls[d].Holding() && s.calls[d].Seq() == SeqOf(s.issued)
    ensures var t := Apply(s, Number(c, Some(frame)));
            && d in t.calls && t.calls[d] == s.calls[d]
            && Legal(t, Clash(t, c, d)) && Careful(t, Clash(t, c, d)) && HarmIn(t, Clash(t, c, d), c)
  {
    hide SeqOf, CallOk, Legal, Careful, HarmIn;
    assert CallOk(s.calls[c], s.issued);
    HeldCall(s.calls[c], s.issued);
    assert d != c;
    Step(s, Number(c, Some(frame)));
    ClashHarms(Apply(s, Number(c, Some(frame))), c, d);
  }
}
