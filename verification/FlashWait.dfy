/**
 Flash requests, their bounded attempts, and the waiters that expect the stub's USB device. The runs
 interleave critical sections freely; the class holds the shared maps, and each of its methods is one of
 those sections.
 */
module FlashWait {
  import opened Wrappers

  const MAX_FLASH_ATTEMPTS: nat := 3

  /** A flash request for one device, and how often the device came up for it. */
  datatype PendingFlash = PendingFlash(request: nat, attempts: nat)

  datatype Attempt = NoRequest | WriteStub(request: nat) | RetryLimit(request: nat)

  /** What one appearance of a device does to its pending request. */
  function AttemptOf(pending: map<nat, PendingFlash>, device: nat): Attempt {
    if device !in pending then NoRequest
    else if pending[device].attempts + 1 > MAX_FLASH_ATTEMPTS then RetryLimit(pending[device].request)
    else WriteStub(pending[device].request)
  }

  function AfterAttempt(pending: map<nat, PendingFlash>, device: nat): map<nat, PendingFlash> {
    match AttemptOf(pending, device)
    case NoRequest => pending
    case RetryLimit(_) => pending - {device}
    case WriteStub(_) => pending[device := pending[device].(attempts := pending[device].attempts + 1)]
  }

  /** The entry under `uid` is the one `generation` put there. */
  predicate Current(waiting: map<nat, nat>, uid: nat, generation: nat) {
    uid in waiting && waiting[uid] == generation
  }

  // --- Runs --------------------------------------------------------------------------------------

  datatype Report = StubBooted | NeverAppeared | Silent

  /**
   `Numbered` has a generation but no entry yet; `GivingUp` has not reached the lock; `Condemned` has
   removed its entry.
   */
  datatype Phase = Numbered | Waiting | GivingUp | Condemned | Done(report: Report)

  datatype Channel = Unused | Held | Fired | Dropped

  datatype Waiter = Waiter(uid: nat, phase: Phase, channel: Channel)

  /** `stubs` counts the stub writes each request has started. */
  datatype State = State(
    pending: map<nat, PendingFlash>,
    waiting: map<nat, nat>,
    generation: nat,
    waiters: map<nat, Waiter>,
    requests: nat,
    stubs: map<nat, nat>)

  datatype Event =
    | Flash(device: nat)
    | Finish(device: nat)
    | Appear(device: nat)
    | Number(uid: nat)
    | Insert(g: nat)
    | UsbAttach(uid: nat)
    | SeeFired(g: nat)
    | SeeDropped(g: nat)
    | TimerFires(g: nat)
    | Clean(g: nat)
    | ReportFailure(g: nat)

  const INITIAL: State := State(map[], map[], 0, map[], 0, map[])

  predicate In(s: State, g: nat, phase: Phase) {
    g in s.waiters && s.waiters[g].phase == phase
  }

  predicate Enabled(s: State, e: Event) {
    match e
    case Insert(g) => In(s, g, Numbered)
    case SeeFired(g) => In(s, g, Waiting) && s.waiters[g].channel.Fired?
    case SeeDropped(g) => In(s, g, Waiting) && s.waiters[g].channel.Dropped?
    case TimerFires(g) => In(s, g, Waiting) && s.waiters[g].channel.Held? // the receiver is polled first
    case Clean(g) => In(s, g, GivingUp)
    case ReportFailure(g) => In(s, g, Condemned)
    case _ => true
  }

  /** The sender under `uid`, if any, leaves the map for `channel`. */
  function Release(s: State, uid: nat, channel: Channel): map<nat, Waiter> {
    if uid in s.waiting && s.waiting[uid] in s.waiters then
      s.waiters[s.waiting[uid] := s.waiters[s.waiting[uid]].(channel := channel)]
    else s.waiters
  }

  function Apply(s: State, e: Event): State
    requires Enabled(s, e)
  {
    match e
    case Flash(device) =>
      s.(pending := s.pending[device := PendingFlash(s.requests, 0)], requests := s.requests + 1,
         stubs := s.stubs[s.requests := 0])
    case Finish(device) => s.(pending := s.pending - {device})
    case Appear(device) =>
      var a := AttemptOf(s.pending, device);
      var started := a.WriteStub? && a.request in s.stubs;
      s.(pending := AfterAttempt(s.pending, device),
         stubs := if started then s.stubs[a.request := s.stubs[a.request] + 1] else s.stubs)
    case Number(uid) => s.(generation := s.generation + 1,
                           waiters := s.waiters[s.generation := Waiter(uid, Numbered, Unused)])
    case Insert(g) =>
      var uid := s.waiters[g].uid;
      s.(waiting := s.waiting[uid := g], waiters := Release(s, uid, Dropped)[g := Waiter(uid, Waiting, Held)])
    case UsbAttach(uid) => s.(waiting := s.waiting - {uid}, waiters := Release(s, uid, Fired))
    case SeeFired(g) => s.(waiters := s.waiters[g := s.waiters[g].(phase := Done(StubBooted))])
    case SeeDropped(g) => s.(waiters := s.waiters[g := s.waiters[g].(phase := GivingUp)])
    case TimerFires(g) => s.(waiters := s.waiters[g := s.waiters[g].(phase := GivingUp)])
    case Clean(g) =>
      var uid := s.waiters[g].uid;
      if Current(s.waiting, uid, g) then
        s.(waiting := s.waiting - {uid}, waiters := s.waiters[g := Waiter(uid, Condemned, Dropped)])
      else s.(waiters := s.waiters[g := s.waiters[g].(phase := Done(Silent))])
    case ReportFailure(g) => s.(waiters := s.waiters[g := s.waiters[g].(phase := Done(NeverAppeared))])
  }

  /** Senders and entries match; a waiter's channel tells how far it got. */
  ghost predicate Inv(s: State) {
    && (forall g | g in s.waiters :: g < s.generation && WaiterOk(s, g))
    && (forall uid | uid in s.waiting ::
        s.waiting[uid] in s.waiters && s.waiters[s.waiting[uid]].uid == uid && s.waiters[s.waiting[uid]].channel.Held?)
    && StubsOk(s)
  }

  ghost predicate WaiterOk(s: State, g: nat)
    requires g in s.waiters
  {
    var w := s.waiters[g];
    && (w.channel.Unused? <==> w.phase.Numbered?)
    && (w.channel.Held? ==> Current(s.waiting, w.uid, g))
    && (w.phase.Condemned? || w.phase == Done(NeverAppeared) ==> w.channel.Dropped?)
    && (w.phase == Done(StubBooted) ==> w.channel.Fired?)
    && (w.phase == Done(Silent) ==> w.channel.Fired? || w.channel.Dropped?)
  }

  /** A request's stub writes are its attempts while it is pending, and never more than three. */
  ghost predicate StubsOk(s: State) {
    && (forall r | r in s.stubs :: r < s.requests && s.stubs[r] <= MAX_FLASH_ATTEMPTS)
    && (forall d | d in s.pending ::
        s.pending[d].request in s.stubs && s.stubs[s.pending[d].request] == s.pending[d].attempts)
    && (forall d, e | d in s.pending && e in s.pending && d != e :: s.pending[d].request != s.pending[e].request)
  }

  lemma StubStep(s: State, e: Event)
    requires StubsOk(s) && Enabled(s, e)
    ensures StubsOk(Apply(s, e))
  {
    hide Release, Current;
  }

  lemma WaiterStep(s: State, e: Event)
    requires Inv(s) && Enabled(s, e)
    ensures Inv(Apply(s, e))
  {
    hide StubsOk;
    StubStep(s, e);
    assert forall g | g in s.waiters :: g < s.generation && WaiterOk(s, g);
    match e
    case Insert(g) => InsertStep(s, g);
    case UsbAttach(uid) => AttachStep(s, uid);
    case _ => hide Release, AttemptOf, AfterAttempt;
  }

  lemma InsertStep(s: State, g: nat)
    requires Inv(s) && In(s, g, Numbered)
    ensures var t := Apply(s, Insert(g)); StubsOk(t) ==> Inv(t)
  {
    hide StubsOk;
    var t := Apply(s, Insert(g));
    forall h | h in t.waiters ensures h < t.generation && WaiterOk(t, h) {
      assert h in s.waiters && WaiterOk(s, h);
    }
  }

  lemma AttachStep(s: State, uid: nat)
    requires Inv(s)
    ensures var t := Apply(s, UsbAttach(uid)); StubsOk(t) ==> Inv(t)
  {
    hide StubsOk;
    var t := Apply(s, UsbAttach(uid));
    forall h | h in t.waiters ensures h < t.generation && WaiterOk(t, h) {
      assert h in s.waiters && WaiterOk(s, h);
    }
  }

  ghost predicate Legal(s: State, events: seq<Event>)
    decreases |events|
  {
    events == [] || (Enabled(s, events[0]) && Legal(Apply(s, events[0]), events[1..]))
  }

  ghost function Run(s: State, events: seq<Event>): State
    requires Legal(s, events)
    decreases |events|
  {
    if events == [] then s else Run(Apply(s, events[0]), events[1..])
  }

  lemma {:induction false} RunKeeps(s: State, events: seq<Event>)
    requires Inv(s) && Legal(s, events)
    ensures Inv(Run(s, events))
    decreases |events|
  {
    hide Inv, Enabled, Apply;
    if events != [] {
      WaiterStep(s, events[0]);
      RunKeeps(Apply(s, events[0]), events[1..]);
    }
  }

  lemma {:induction false} NowOk(events: seq<Event>)
    requires Legal(INITIAL, events)
    ensures Inv(Run(INITIAL, events))
  {
    RunKeeps(INITIAL, events);
  }

  lemma {:induction false} OneMore(s: State, events: seq<Event>, e: Event)
    requires Legal(s, events) && Enabled(Run(s, events), e)
    ensures Legal(s, events + [e]) && Run(s, events + [e]) == Apply(Run(s, events), e)
    decreases |events|
  {
    hide Enabled, Apply;
    if events != [] {
      OneMore(Apply(s, events[0]), events[1..], e);
      assert (events + [e])[1..] == events[1..] + [e];
    } else {
      assert events + [e] == [e] && [e][1..] == [];
    }
  }

  // --- Attempts ----------------------------------------------------------------------------------

  /** Stub writes the run starts for a request. */
  ghost function StubWrites(s: State, events: seq<Event>, request: nat): nat
    requires Legal(s, events)
    decreases |events|
  {
    if events == [] then 0
    else (if events[0].Appear? && AttemptOf(s.pending, events[0].device) == WriteStub(request) then 1 else 0)
         + StubWrites(Apply(s, events[0]), events[1..], request)
  }

  function StubsOf(s: State, request: nat): nat {
    if request in s.stubs then s.stubs[request] else 0
  }

  lemma StubCountStep(s: State, e: Event, request: nat)
    requires StubsOk(s) && Enabled(s, e)
    ensures StubsOf(Apply(s, e), request) ==
            StubsOf(s, request) + if e.Appear? && AttemptOf(s.pending, e.device) == WriteStub(request) then 1 else 0
  {
    hide Release, Current;
  }

  lemma {:induction false} StubsCounted(s: State, events: seq<Event>, request: nat)
    requires StubsOk(s) && Legal(s, events)
    ensures StubsOf(Run(s, events), request) == StubsOf(s, request) + StubWrites(s, events, request)
    ensures StubsOk(Run(s, events))
    decreases |events|
  {
    hide StubsOk, Enabled, Apply, StubsOf, AttemptOf;
    if events != [] {
      StubStep(s, events[0]);
      StubCountStep(s, events[0], request);
      StubsCounted(Apply(s, events[0]), events[1..], request);
    }
  }

  /** In every run, no flash request starts more than three stub writes. */
  lemma {:induction false} AttemptsBounded(events: seq<Event>, request: nat)
    requires Legal(INITIAL, events)
    ensures StubWrites(INITIAL, events, request) <= 3
  {
    hide Run, Legal, StubWrites;
    StubsCounted(INITIAL, events, request);
  }

  // --- Reports -----------------------------------------------------------------------------------

  /** Reports generation `g` makes in the run. */
  function Reports(events: seq<Event>, g: nat): nat {
    if events == [] then 0
    else
      var reports := (events[0].SeeFired? || events[0].ReportFailure?) && events[0].g == g;
      (if reports then 1 else 0) + Reports(events[1..], g)
  }

  predicate Reported(s: State, g: nat) {
    g in s.waiters && (s.waiters[g].phase == Done(StubBooted) || s.waiters[g].phase == Done(NeverAppeared))
  }

  lemma ReportStep(s: State, e: Event, g: nat)
    requires Inv(s) && Enabled(s, e)
    ensures var reports := (e.SeeFired? || e.ReportFailure?) && e.g == g;
            (if Reported(Apply(s, e), g) then 1 else 0) == (if Reported(s, g) then 1 else 0) + if reports then 1 else 0
  {
    hide StubsOk, AttemptOf, AfterAttempt;
  }

  lemma {:induction false} ReportsCounted(s: State, events: seq<Event>, g: nat)
    requires Inv(s) && Legal(s, events)
    ensures (if Reported(Run(s, events), g) then 1 else 0) == (if Reported(s, g) then 1 else 0) + Reports(events, g)
    decreases |events|
  {
    hide Inv, Enabled, Apply, Reported;
    if events != [] {
      WaiterStep(s, events[0]);
      ReportStep(s, events[0], g);
      ReportsCounted(Apply(s, events[0]), events[1..], g);
    }
  }

  /** In every run each waiter reports at most once. */
  lemma {:induction false} AtMostOneReport(events: seq<Event>, g: nat)
    requires Legal(INITIAL, events)
    ensures Reports(events, g) <= 1
  {
    hide Run, Legal, Reports;
    ReportsCounted(INITIAL, events, g);
  }

  /** No step of one waiter removes another generation's entry, or changes what another waiter will report. */
  lemma OthersUntouched(s: State, e: Event, other: nat)
    requires Inv(s) && Enabled(s, e) && (e.SeeFired? || e.SeeDropped? || e.TimerFires? || e.Clean? || e.ReportFailure?)
             && other != e.g
    ensures var t := Apply(s, e);
            && (forall uid :: Current(s.waiting, uid, other) <==> Current(t.waiting, uid, other))
            && (other in s.waiters ==> other in t.waiters && t.waiters[other] == s.waiters[other])
  {
  }

  /** A waiter fails only while its own entry stands: no attach took it and no later flash replaced it. */
  lemma FailsIffStillCurrent(s: State, g: nat)
    requires Inv(s) && In(s, g, GivingUp)
    ensures var t := Apply(s, Clean(g));
            && (In(t, g, Condemned) <==> s.waiters[g].channel.Held?)
            && (In(t, g, Done(Silent)) <==> s.waiters[g].channel.Fired? || s.waiters[g].channel.Dropped?)
            && !Current(t.waiting, s.waiters[g].uid, g)
  {
    assert WaiterOk(s, g);
  }

  /** A waiting generation still has its entry or can move on at once. */
  lemma {:induction false} NoLostWakeup(events: seq<Event>, g: nat)
    requires Legal(INITIAL, events) && In(Run(INITIAL, events), g, Waiting)
    ensures var t := Run(INITIAL, events);
            Current(t.waiting, t.waiters[g].uid, g) || Enabled(t, SeeFired(g)) || Enabled(t, SeeDropped(g))
  {
    hide Run, Legal;
    RunKeeps(INITIAL, events);
    assert WaiterOk(Run(INITIAL, events), g);
  }

  /** What becomes of a waiter that an attach fires: it will report, or it was too late to. */
  predicate FiredIn(w: Waiter, inTime: bool) {
    && w.channel.Fired?
    && if inTime then w.phase.Waiting? || w.phase == Done(StubBooted)
       else w.phase.GivingUp? || w.phase == Done(Silent)
  }

  lemma FiredStep(s: State, e: Event, g: nat, inTime: bool)
    requires Inv(s) && Enabled(s, e) && g in s.waiters && FiredIn(s.waiters[g], inTime)
    ensures g in Apply(s, e).waiters && FiredIn(Apply(s, e).waiters[g], inTime)
  {
    hide StubsOk, AttemptOf, AfterAttempt;
    assert WaiterOk(s, g) && g < s.generation;
  }

  lemma {:induction false} FiredRun(s: State, events: seq<Event>, g: nat, inTime: bool)
    requires Inv(s) && Legal(s, events) && g in s.waiters && FiredIn(s.waiters[g], inTime)
    ensures g in Run(s, events).waiters && FiredIn(Run(s, events).waiters[g], inTime)
    decreases |events|
  {
    hide Inv, Enabled, Apply, FiredIn;
    if events != [] {
      WaiterStep(s, events[0]);
      FiredStep(s, events[0], g, inTime);
      FiredRun(Apply(s, events[0]), events[1..], g, inTime);
    }
  }

  /**
   An attach is reported exactly when the waiter it fires was still waiting. One that had given up but not
   yet reached the lock stays silent, so nobody reports that the device came up.
   */
  lemma {:induction false} AttachReportedIff(s: State, uid: nat, events: seq<Event>)
    requires Inv(s) && uid in s.waiting && Legal(Apply(s, UsbAttach(uid)), events)
    ensures var g := s.waiting[uid];
            var t := Run(Apply(s, UsbAttach(uid)), events);
            && (In(s, g, Waiting) || In(s, g, GivingUp))
            && g in t.waiters
            && (t.waiters[g].phase.Done? ==>
                  && (t.waiters[g].phase.report == StubBooted <==> In(s, g, Waiting))
                  && (t.waiters[g].phase.report == Silent <==> In(s, g, GivingUp)))
            && (In(s, g, Waiting) && !t.waiters[g].phase.Done? ==> Enabled(t, SeeFired(g)))
  {
    hide Run, Legal, StubsOk;
    var g := s.waiting[uid];
    assert WaiterOk(s, g) && s.waiters[g].channel.Held?;
    match s.waiters[g].phase {
      case Done(report) => match report { case StubBooted => case NeverAppeared => case Silent => }
      case _ =>
    }
    assert In(s, g, Waiting) || In(s, g, GivingUp);
    WaiterStep(s, UsbAttach(uid));
    FiredRun(Apply(s, UsbAttach(uid)), events, g, In(s, g, Waiting));
  }

  /** A run in which that happens. */
  lemma AttachDuringTimeoutIsSilent(uid: nat)
    ensures var events := [Number(uid), Insert(0), TimerFires(0), UsbAttach(uid), Clean(0)];
            && Legal(INITIAL, events)
            && In(Run(INITIAL, events), 0, Done(Silent)) && Run(INITIAL, events).waiters[0].channel.Fired?
  {
    var a := Apply(INITIAL, Number(uid));
    var b := Apply(a, Insert(0));
    var c := Apply(b, TimerFires(0));
    var d := Apply(c, UsbAttach(uid));
    var e := Apply(d, Clean(0));
    var events := [Number(uid), Insert(0), TimerFires(0), UsbAttach(uid), Clean(0)];
    assert events[1..] == [Insert(0), TimerFires(0), UsbAttach(uid), Clean(0)];
    assert events[1..][1..] == [TimerFires(0), UsbAttach(uid), Clean(0)];
    assert events[1..][1..][1..] == [UsbAttach(uid), Clean(0)];
    assert events[1..][1..][1..][1..] == [Clean(0)];
    assert Legal(e, []) && Run(e, []) == e;
    assert Legal(d, [Clean(0)]) && Run(d, [Clean(0)]) == e;
    assert Legal(c, [UsbAttach(uid), Clean(0)]) && Run(c, [UsbAttach(uid), Clean(0)]) == e;
    assert Legal(b, [TimerFires(0), UsbAttach(uid), Clean(0)])
        && Run(b, [TimerFires(0), UsbAttach(uid), Clean(0)]) == e;
  }

  // --- Where reports come from -------------------------------------------------------------------

  /** The event ends the waiter in this way. */
  predicate Ends(s: State, e: Event, g: nat, report: Report) {
    match report
    case StubBooted => e == SeeFired(g)
    case NeverAppeared => e == ReportFailure(g)
    case Silent => e == Clean(g) && g in s.waiters && !Current(s.waiting, s.waiters[g].uid, g)
  }

  lemma EndsAtOnce(s: State, e: Event, g: nat, report: Report)
    requires Enabled(s, e) && Ends(s, e, g, report)
    ensures In(Apply(s, e), g, Done(report))
  {
  }

  /** What has to have happened in a run for a waiter to end in a certain way. */
  datatype Cause = Ending(report: Report) | Attached | Superseded | Timer {
    predicate Is(s: State, e: Event, g: nat) {
      g in s.waiters
      && var uid := s.waiters[g].uid;
         match this
         case Ending(report) => Ends(s, e, g, report)
         case Attached => e == UsbAttach(uid) && Current(s.waiting, uid, g)
         case Superseded => e.Insert? && e.g in s.waiters && s.waiters[e.g].uid == uid && Current(s.waiting, uid, g)
         case Timer => e == TimerFires(g)
    }

    /** What it leaves behind. */
    predicate Left(s: State, g: nat) {
      g in s.waiters
      && var w := s.waiters[g];
         match this
         case Ending(report) => w.phase == Done(report)
         case Attached => w.channel.Fired?
         case Superseded => w.channel.Dropped? && !w.phase.Condemned? && w.phase != Done(NeverAppeared)
         case Timer => (w.phase.GivingUp? && w.channel.Held?) || w.phase.Condemned? || w.phase == Done(NeverAppeared)
    }
  }

  ghost predicate Happened(s: State, events: seq<Event>, g: nat, cause: Cause)
    requires Legal(s, events)
    decreases |events|
  {
    events != [] && (cause.Is(s, events[0], g) || Happened(Apply(s, events[0]), events[1..], g, cause))
  }

  lemma CauseStep(s: State, e: Event, g: nat, cause: Cause)
    requires Inv(s) && Enabled(s, e) && cause.Left(Apply(s, e), g)
    ensures cause.Left(s, g) || cause.Is(s, e, g)
  {
    hide StubsOk, AttemptOf, AfterAttempt;
    if g in s.waiters { assert WaiterOk(s, g) && g < s.generation; }
  }

  lemma {:induction false} HasCause(s: State, events: seq<Event>, g: nat, cause: Cause)
    requires Inv(s) && Legal(s, events) && cause.Left(Run(s, events), g)
    ensures cause.Left(s, g) || Happened(s, events, g, cause)
    decreases |events|
  {
    hide Inv, Enabled, Apply;
    if events != [] {
      WaiterStep(s, events[0]);
      HasCause(Apply(s, events[0]), events[1..], g, cause);
      if cause.Left(Apply(s, events[0]), g) { CauseStep(s, events[0], g, cause); }
    }
  }

  /**
   In every run each report has its own cause. That the stub booted follows an attach that found the waiter's
   entry; that it never appeared follows the timer; and a waiter is silent only if an attach found its entry
   after all or a later waiter for the chip took it over.
   */
  lemma {:induction false} ReportHasCause(events: seq<Event>, g: nat, report: Report)
    requires Legal(INITIAL, events) && In(Run(INITIAL, events), g, Done(report))
    ensures Happened(INITIAL, events, g, Ending(report))
    ensures report.StubBooted? ==> Happened(INITIAL, events, g, Attached)
    ensures report.NeverAppeared? ==> Happened(INITIAL, events, g, Timer)
    ensures report.Silent? ==> Happened(INITIAL, events, g, Attached) || Happened(INITIAL, events, g, Superseded)
  {
    hide Run, Legal, Happened;
    RunKeeps(INITIAL, events);
    var t := Run(INITIAL, events);
    assert WaiterOk(t, g);
    HasCause(INITIAL, events, g, Ending(report));
    if t.waiters[g].channel.Fired? { HasCause(INITIAL, events, g, Attached); }
    if report.Silent? && t.waiters[g].channel.Dropped? { HasCause(INITIAL, events, g, Superseded); }
    if report.NeverAppeared? { HasCause(INITIAL, events, g, Timer); }
  }

  /** From any state a new waiter for a chip reports the boot if the chip attaches, and the failure if it does not. */
  lemma {:induction false} WaiterEnds(s: State, uid: nat)
    ensures var g := s.generation;
            var events := [Number(uid), Insert(g), UsbAttach(uid), SeeFired(g)];
            Legal(s, events) && In(Run(s, events), g, Done(StubBooted))
    ensures var g := s.generation;
            var events := [Number(uid), Insert(g), TimerFires(g), Clean(g), ReportFailure(g)];
            Legal(s, events) && In(Run(s, events), g, Done(NeverAppeared))
  {
    hide Enabled, Apply, Legal, Run;
    var g := s.generation;
    WaiterSteps(s, uid);
    var b := Apply(Apply(s, Number(uid)), Insert(g));
    var boots := [Number(uid), Insert(g), UsbAttach(uid), SeeFired(g)];
    OneStepRun(Apply(b, UsbAttach(uid)), SeeFired(g));
    assert boots[3..] == [SeeFired(g)];
    MoreSteps(b, UsbAttach(uid), boots[3..], boots[2..]);
    MoreSteps(Apply(s, Number(uid)), Insert(g), boots[2..], boots[1..]);
    MoreSteps(s, Number(uid), boots[1..], boots);
    var fails := [Number(uid), Insert(g), TimerFires(g), Clean(g), ReportFailure(g)];
    var c := Apply(b, TimerFires(g));
    OneStepRun(Apply(c, Clean(g)), ReportFailure(g));
    assert fails[4..] == [ReportFailure(g)];
    MoreSteps(c, Clean(g), fails[4..], fails[3..]);
    MoreSteps(b, TimerFires(g), fails[3..], fails[2..]);
    MoreSteps(Apply(s, Number(uid)), Insert(g), fails[2..], fails[1..]);
    MoreSteps(s, Number(uid), fails[1..], fails);
  }

  lemma WaiterSteps(s: State, uid: nat)
    ensures var g := s.generation;
            && Enabled(s, Number(uid)) && Enabled(Apply(s, Number(uid)), Insert(g))
            && var b := Apply(Apply(s, Number(uid)), Insert(g));
            && Enabled(b, UsbAttach(uid)) && Enabled(Apply(b, UsbAttach(uid)), SeeFired(g))
            && In(Apply(Apply(b, UsbAttach(uid)), SeeFired(g)), g, Done(StubBooted))
            && Enabled(b, TimerFires(g)) && Enabled(Apply(b, TimerFires(g)), Clean(g))
            && var d := Apply(Apply(b, TimerFires(g)), Clean(g));
            && Enabled(d, ReportFailure(g)) && In(Apply(d, ReportFailure(g)), g, Done(NeverAppeared))
  {
  }

  lemma {:induction false} MoreSteps(s: State, e: Event, rest: seq<Event>, all: seq<Event>)
    requires Enabled(s, e) && Legal(Apply(s, e), rest) && all == [e] + rest
    ensures Legal(s, all) && Run(s, all) == Run(Apply(s, e), rest)
  {
    hide Enabled, Apply;
    assert all[1..] == rest;
  }

  lemma {:induction false} OneStepRun(s: State, e: Event)
    requires Enabled(s, e)
    ensures Legal(s, [e]) && Run(s, [e]) == Apply(s, e)
  {
    hide Enabled, Apply;
    assert [e][1..] == [];
  }

  // --- The shared object -------------------------------------------------------------------------

  class FlashState {
    var pending: map<nat, PendingFlash>
    /** Chip to the generation whose sender waits for it. */
    var waiting: map<nat, nat>
    var generation: nat
    /** Everything that has happened to this object. */
    ghost var events: seq<Event>

    constructor ()
      ensures Valid() && events == []
    {
      pending, waiting, generation, events := map[], map[], 0, [];
    }

    /** The fields are those of the state the events lead to. */
    ghost predicate Valid()
      reads this
    {
      && Legal(INITIAL, events)
      && var s := Run(INITIAL, events);
         pending == s.pending && waiting == s.waiting && generation == s.generation
    }

    ghost function Now(): State
      reads this
      requires Valid()
    {
      Run(INITIAL, events)
    }

    /** A new request replaces what was pending for the device; its attempts start over. */
    method RequestFlash(device: nat, request: nat)
      requires Valid() && request == Now().requests
      modifies `pending, `events
      ensures Valid() && events == old(events) + [Flash(device)]
      ensures AttemptOf(pending, device) == WriteStub(request)
    {
      hide Run, Legal;
      OneMore(INITIAL, events, Flash(device));
      pending := pending[device := PendingFlash(request, 0)];
      events := events + [Flash(device)];
    }

    method FinishFlash(device: nat)
      requires Valid()
      modifies `pending, `events
      ensures Valid() && events == old(events) + [Finish(device)]
      ensures AttemptOf(pending, device) == NoRequest
    {
      hide Run, Legal;
      OneMore(INITIAL, events, Finish(device));
      pending := pending - {device};
      events := events + [Finish(device)];
    }

    /** One appearance of the device: another stub write, unless the request has had its three. */
    method TakeAttempt(device: nat) returns (a: Attempt)
      requires Valid()
      modifies `pending, `events
      ensures Valid() && events == old(events) + [Appear(device)]
      ensures a == AttemptOf(old(pending), device)
      ensures a.RetryLimit? ==>
              StubsOf(Now(), a.request) == MAX_FLASH_ATTEMPTS && AttemptOf(pending, device) == NoRequest
    {
      hide Run, Legal, Release;
      NowOk(events);
      OneMore(INITIAL, events, Appear(device));
      events := events + [Appear(device)];
      if device !in pending { return NoRequest; }
      var pf := pending[device];
      pf := pf.(attempts := pf.attempts + 1);
      if pf.attempts > MAX_FLASH_ATTEMPTS {
        pending := pending - {device};
        a := RetryLimit(pf.request);
      } else {
        pending := pending[device := pf];
        a := WriteStub(pf.request);
      }
    }

    /** A generation nobody has had before. */
    method NextGeneration(uid: nat) returns (g: nat)
      requires Valid()
      modifies `generation, `events
      ensures Valid() && events == old(events) + [Number(uid)]
      ensures g !in old(Now()).waiters && In(Now(), g, Numbered) && Now().waiters[g].uid == uid
    {
      hide Run, Legal;
      NowOk(events);
      OneMore(INITIAL, events, Number(uid));
      g := generation;
      generation := generation + 1;
      events := events + [Number(uid)];
    }

    /** Replaces, and so drops, whatever sender waited under this chip. */
    method Await(uid: nat, g: nat)
      requires Valid() && In(Now(), g, Numbered) && uid == Now().waiters[g].uid
      modifies `waiting, `events
      ensures Valid() && events == old(events) + [Insert(g)]
      ensures Current(waiting, uid, g)
      ensures uid in old(waiting) ==>
              var h := old(waiting)[uid]; h in Now().waiters && Now().waiters[h].channel.Dropped?
    {
      hide Run, Legal, StubsOk;
      NowOk(events);
      assert WaiterOk(Now(), g);
      OneMore(INITIAL, events, Insert(g));
      waiting := waiting[uid := g];
      events := events + [Insert(g)];
    }

    /** A USB device appeared: whoever waits for the chip is taken out and fired. */
    method Attach(uid: nat) returns (fired: Option<nat>)
      requires Valid()
      modifies `waiting, `events
      ensures Valid() && events == old(events) + [UsbAttach(uid)]
      ensures fired.Some? <==> uid in old(waiting)
      ensures fired.Some? ==> Current(old(waiting), uid, fired.value)
      ensures fired.Some? ==> fired.value in Now().waiters && Now().waiters[fired.value].channel.Fired?
    {
      hide Run, Legal, StubsOk;
      NowOk(events);
      OneMore(INITIAL, events, UsbAttach(uid));
      events := events + [UsbAttach(uid)];
      if uid in waiting {
        fired := Some(waiting[uid]);
        waiting := waiting - {uid};
      } else {
        fired := None;
        assert waiting == waiting - {uid};
      }
    }

    /** A waiter that ran out of time, or lost its sender, removes its own entry and no other. */
    method CleanUp(uid: nat, g: nat) returns (superseded: bool)
      requires Valid() && In(Now(), g, GivingUp) && uid == Now().waiters[g].uid
      modifies `waiting, `events
      ensures Valid() && events == old(events) + [Clean(g)]
      ensures superseded <==> !old(Now()).waiters[g].channel.Held?
      ensures superseded <==> In(Now(), g, Done(Silent))
      ensures forall u, h | h != g :: Current(waiting, u, h) <==> Current(old(waiting), u, h)
    {
      hide Run, Legal, StubsOk;
      NowOk(events);
      assert WaiterOk(Now(), g);
      OneMore(INITIAL, events, Clean(g));
      superseded := !(uid in waiting && waiting[uid] == g);
      events := events + [Clean(g)];
      if !superseded {
        waiting := waiting - {uid};
      }
    }

    /** What waiters do outside the locks. */
    ghost method Note(e: Event)
      requires Valid() && Enabled(Now(), e) && (e.SeeFired? || e.SeeDropped? || e.TimerFires? || e.ReportFailure?)
      modifies `events
      ensures Valid() && events == old(events) + [e]
    {
      hide Run, Legal;
      OneMore(INITIAL, events, e);
      events := events + [e];
    }

    /**
     Whatever has happened to the object, each request wrote at most three stubs and each waiter reported
     at most once.
     */
    lemma {:induction false} Safe(request: nat, g: nat)
      requires Valid()
      ensures StubWrites(INITIAL, events, request) <= 3 && Reports(events, g) <= 1
    {
      AttemptsBounded(events, request);
      AtMostOneReport(events, g);
    }
  }
}
