/** Safety of whole runs of the request/reply protocol. */
module IpcRunTheorems {
  import opened Wrappers
  import opened IpcProtocol
  import opened IpcRuns

  ghost predicate Legal(s: State, events: seq<Event>)
    decreases |events|
  {
    events == [] || (Enabled(s, events[0]) && Legal(Apply(s, events[0]), events[1..]))
  }

  ghost function Run(s: State, events: seq<Event>): State
    requires Legal(s, events)
    decreases |events|
  {
    if events == [] then s else Run(Apply(s, events[0]), events[1..])
  }

  lemma {:induction false} RunKeeps(s: State, events: seq<Event>)
    requires Inv(s) && Legal(s, events)
    ensures Inv(Run(s, events))
    decreases |events|
  {
    hide Inv, Enabled, Apply;
    if events != [] {
      Step(s, events[0]);
      RunKeeps(Apply(s, events[0]), events[1..]);
    }
  }

  lemma {:induction false} OneMore(s: State, events: seq<Event>, e: Event)
    requires Legal(s, events) && Enabled(Run(s, events), e)
    ensures Legal(s, events + [e]) && Run(s, events + [e]) == Apply(Run(s, events), e)
    decreases |events|
  {
    hide Enabled, Apply;
    if events != [] {
      OneMore(Apply(s, events[0]), events[1..], e);
      assert (events + [e])[1..] == events[1..] + [e];
    } else {
      assert events + [e] == [e] && [e][1..] == [];
    }
  }

  lemma InitialOk()
    ensures Inv(INITIAL)
  {
  }

  // --- Sends -----------------------------------------------------------------------------------

  /** Events of the run that put the frame of `c` on the wire. */
  function FramesOnWire(events: seq<Event>, c: nat): nat {
    if events == [] then 0
    else (if (events[0].Send? || events[0].Resend?) && events[0].c == c then 1 else 0) + FramesOnWire(events[1..], c)
  }

  function SendsOf(s: State, c: nat): nat {
    if c in s.calls then s.calls[c].sends else 0
  }

  lemma SendsStep(s: State, e: Event, c: nat)
    requires Enabled(s, e)
    ensures SendsOf(Apply(s, e), c) == SendsOf(s, c) + if (e.Send? || e.Resend?) && e.c == c then 1 else 0
  {
    hide SeqOf, Collected;
  }

  lemma {:induction false} SendsCounted(s: State, events: seq<Event>, c: nat)
    requires Legal(s, events)
    ensures SendsOf(Run(s, events), c) == SendsOf(s, c) + FramesOnWire(events, c)
    decreases |events|
  {
    hide Enabled, Apply, SendsOf;
    if events != [] {
      SendsStep(s, events[0], c);
      SendsCounted(Apply(s, events[0]), events[1..], c);
    }
  }

  /** In every run, no frame is sent more than once plus three retransmissions. */
  lemma {:induction false} FramesBounded(events: seq<Event>, c: nat)
    requires Legal(INITIAL, events)
    ensures FramesOnWire(events, c) <= 4
  {
    hide Run, Legal, FramesOnWire, SeqOf;
    InitialOk();
    RunKeeps(INITIAL, events);
    SendsCounted(INITIAL, events, c);
    var t := Run(INITIAL, events);
    if c in t.calls { assert CallOk(t.calls[c], t.issued); }
  }

  // --- Answers ---------------------------------------------------------------------------------

  /** The event puts a response into the channel of `c`. */
  predicate Delivers(s: State, e: Event, c: nat) {
    || (e.GiveUp? && e.c == c)
    || (e.Resolve? && e.s in s.pending && s.pending[e.s].owner == c)
  }

  predicate Answered(s: State, c: nat) {
    c in s.calls && s.calls[c].sender.Fulfilled?
  }

  lemma AnswerStep(s: State, e: Event, c: nat)
    requires Inv(s) && Enabled(s, e)
    ensures Delivers(s, e, c) ==> !Answered(s, c) && Answered(Apply(s, e), c)
    ensures !Delivers(s, e, c) ==> (Answered(s, c) <==> Answered(Apply(s, e), c))
    ensures Answered(s, c) ==> Apply(s, e).calls[c].sender == s.calls[c].sender
  {
    hide SeqOf, CallOk, Collected;
    assert forall k | k in s.pending :: EntryOk(s, k);
    if e.Insert? && In(s, e.c, Numbered) { InsertStep(s, e.c); }
    if In(s, c, Numbered) { InsertedCallOk(s.calls[c], s.issued); }
  }

  ghost function Answers(s: State, events: seq<Event>, c: nat): nat
    requires Legal(s, events)
    decreases |events|
  {
    if events == [] then 0
    else (if Delivers(s, events[0], c) then 1 else 0) + Answers(Apply(s, events[0]), events[1..], c)
  }

  lemma {:induction false} AnswersCounted(s: State, events: seq<Event>, c: nat)
    requires Inv(s) && Legal(s, events)
    ensures Answers(s, events, c) + (if Answered(s, c) then 1 else 0) == if Answered(Run(s, events), c) then 1 else 0
    ensures Answered(s, c) ==> Run(s, events).calls[c].sender == s.calls[c].sender
    decreases |events|
  {
    hide Inv, Enabled, Apply, Delivers;
    if events != [] {
      Step(s, events[0]);
      AnswerStep(s, events[0], c);
      AnswersCounted(Apply(s, events[0]), events[1..], c);
    }
  }

  /**
   In every run each call is answered at most once, by a frame with its own number or by the round that
   gave up on it.
   */
  lemma {:induction false} AtMostOneAnswer(events: seq<Event>, c: nat)
    requires Legal(INITIAL, events)
    ensures Answers(INITIAL, events, c) <= 1
    ensures var t := Run(INITIAL, events);
            Answered(t, c) ==>
              var call := t.calls[c];
              call.sender.source == FrameNumber(call.Seq())
                  || (call.sender.source.GaveUp? && call.picks == 3)
  {
    hide Run, Legal, Answers, SeqOf;
    InitialOk();
    RunKeeps(INITIAL, events);
    AnswersCounted(INITIAL, events, c);
    var t := Run(INITIAL, events);
    if c in t.calls { assert CallOk(t.calls[c], t.issued); }
  }

  lemma FinalStep(s: State, e: Event, c: nat)
    requires Enabled(s, e) && c in s.calls && s.calls[c].phase.Done?
    ensures c in Apply(s, e).calls && Apply(s, e).calls[c].phase == s.calls[c].phase
  {
    hide SeqOf, Collected;
  }

  /** An outcome is never revised. */
  lemma {:induction false} OutcomeIsFinal(s: State, events: seq<Event>, c: nat)
    requires Legal(s, events) && c in s.calls && s.calls[c].phase.Done?
    ensures c in Run(s, events).calls && Run(s, events).calls[c].phase == s.calls[c].phase
    decreases |events|
  {
    hide Enabled, Apply;
    if events != [] {
      FinalStep(s, events[0], c);
      OutcomeIsFinal(Apply(s, events[0]), events[1..], c);
    }
  }

  /** A waiting call is still reachable, or can return at once: no wake-up is lost. */
  lemma {:induction false} NoLostWakeup(events: seq<Event>, c: nat)
    requires Legal(INITIAL, events) && In(Run(INITIAL, events), c, Waiting)
    ensures var t := Run(INITIAL, events);
            Owns(t, c) || t.calls[c].sender.InExhausted? || Enabled(t, Receive(c)) || Enabled(t, SeeDropped(c))
  {
    hide Run, Legal, SeqOf;
    InitialOk();
    RunKeeps(INITIAL, events);
    var t := Run(INITIAL, events);
    assert CallOk(t.calls[c], t.issued);
  }

  // --- Where outcomes come from ----------------------------------------------------------------

  /** The event ends call `c` in this way. */
  predicate Ends(s: State, e: Event, c: nat, o: Outcome) {
    match o
    case Closed => e == Check(c) && s.poisoned
    case EncodeFailed => e.Number? && e.c == c && e.encoded.None?
    case TransportFailed => e == Send(c, false)
    case Answered(_) => e == Receive(c)
    case Disconnected => e == SeeDropped(c)
    case TimedOut => e == RemoveTimedOut(c)
  }

  /** The event hands `x` to `c`: a reply to the number under which `c` is pending, or the round that gives up on it. */
  predicate Hands(s: State, e: Event, c: nat, x: Response) {
    || (e == GiveUp(c) && x == Corrupted)
    || (e.Resolve? && e.response == x && Owns(s, c) && e.s == s.calls[c].Seq())
  }

  /** The event takes the entry of `c` away: a shutdown, or another call with its number. */
  predicate CutsChannel(s: State, e: Event, c: nat) {
    Owns(s, c) && (e.ClearMap? || ((e.Insert? || e.RemoveTimedOut?) && e.c != c && e.c in s.calls
                                   && s.calls[e.c].Seq() == s.calls[c].Seq()))
  }

  /** An event that ends a call does so at once, with the answer that is in its channel. */
  lemma EndsAtOnce(s: State, e: Event, c: nat, o: Outcome)
    requires Enabled(s, e) && Ends(s, e, c, o)
    requires o.Answered? ==> o.response == s.calls[c].sender.response
    ensures In(Apply(s, e), c, Done(o))
  {
    hide SeqOf, Collected;
  }

  /** What has to have happened in a run for a call to end in a certain way. */
  datatype Cause = Ending(o: Outcome) | Handing(x: Response) | Cutting | Timer {
    predicate Is(s: State, e: Event, c: nat) {
      match this
      case Ending(o) => Ends(s, e, c, o)
      case Handing(x) => Hands(s, e, c, x)
      case Cutting => CutsChannel(s, e, c)
      case Timer => e == TimerFires(c)
    }

    /** What it leaves behind. */
    predicate Left(s: State, c: nat) {
      c in s.calls
      && var call := s.calls[c];
         match this
         case Ending(o) => call.phase == Done(o)
         case Handing(x) => call.sender.Fulfilled? && call.sender.response == x
         case Cutting => call.sender.Dropped? && call.phase != Done(TimedOut)
         case Timer => call.phase == TimingOut || call.phase == Done(TimedOut)
    }
  }

  ghost predicate Happened(s: State, events: seq<Event>, c: nat, cause: Cause)
    requires Legal(s, events)
    decreases |events|
  {
    events != [] && (cause.Is(s, events[0], c) || Happened(Apply(s, events[0]), events[1..], c, cause))
  }

  /** Traces of a cause are not made by anything else. */
  lemma CauseStep(s: State, e: Event, c: nat, cause: Cause)
    requires Inv(s) && Enabled(s, e) && cause.Left(Apply(s, e), c)
    ensures cause.Left(s, c) || cause.Is(s, e, c)
  {
    hide SeqOf, CallOk, Collected;
    assert forall k | k in s.pending :: EntryOk(s, k);
  }

  lemma {:induction false} HasCause(s: State, events: seq<Event>, c: nat, cause: Cause)
    requires Inv(s) && Legal(s, events) && cause.Left(Run(s, events), c)
    ensures cause.Left(s, c) || Happened(s, events, c, cause)
    decreases |events|
  {
    hide Inv, Enabled, Apply;
    if events != [] {
      Step(s, events[0]);
      HasCause(Apply(s, events[0]), events[1..], c, cause);
      if cause.Left(Apply(s, events[0]), c) { CauseStep(s, events[0], c, cause); }
    }
  }

  /** A call that has returned an answer, or seen its channel dropped, still has that in its channel. */
  predicate ChannelMatches(s: State, c: nat) {
    c in s.calls ==>
      && (s.calls[c].phase.Done? && s.calls[c].phase.outcome.Answered? ==>
            s.calls[c].sender.Fulfilled? && s.calls[c].sender.response == s.calls[c].phase.outcome.response)
      && (s.calls[c].phase == Done(Disconnected) ==> s.calls[c].sender.Dropped?)
  }

  lemma ChannelStep(s: State, e: Event, c: nat)
    requires Inv(s) && Enabled(s, e) && ChannelMatches(s, c)
    ensures ChannelMatches(Apply(s, e), c)
  {
    hide SeqOf, CallOk, Collected;
    assert forall k | k in s.pending :: EntryOk(s, k);
  }

  lemma {:induction false} ChannelRun(s: State, events: seq<Event>, c: nat)
    requires Inv(s) && Legal(s, events) && ChannelMatches(s, c)
    ensures ChannelMatches(Run(s, events), c)
    decreases |events|
  {
    hide Inv, Enabled, Apply, ChannelMatches;
    if events != [] {
      Step(s, events[0]);
      ChannelStep(s, events[0], c);
      ChannelRun(Apply(s, events[0]), events[1..], c);
    }
  }

  /**
   In every run, each outcome has its own cause. An answer is the one that was handed to the call, by a reply to
   its own number or by the round that gave up on it; a dropped channel was cut by a shutdown or by another call
   with the same number; a timeout follows the timer.
   */
  lemma {:induction false} OutcomeHasCause(events: seq<Event>, c: nat, o: Outcome)
    requires Legal(INITIAL, events) && In(Run(INITIAL, events), c, Done(o))
    ensures Happened(INITIAL, events, c, Ending(o))
    ensures o.Answered? ==> Happened(INITIAL, events, c, Handing(o.response))
    ensures o.Disconnected? ==> Happened(INITIAL, events, c, Cutting)
    ensures o.TimedOut? ==> Happened(INITIAL, events, c, Timer)
  {
    hide Run, Legal, Happened, Inv;
    InitialOk();
    ChannelRun(INITIAL, events, c);
    HasCause(INITIAL, events, c, Ending(o));
    if o.Answered? { HasCause(INITIAL, events, c, Handing(o.response)); }
    if o.Disconnected? { HasCause(INITIAL, events, c, Cutting); }
    if o.TimedOut? { HasCause(INITIAL, events, c, Timer); }
  }

  // --- Shutdown --------------------------------------------------------------------------------

  /** `c` may still register: it passed the flag check and has not yet inserted its entry. */
  predicate Preparing(s: State, c: nat) {
    In(s, c, Checked) || In(s, c, Numbered)
  }

  predicate Registers(s: State, c: nat) {
    c in s.calls && s.calls[c].sender.InMap?
  }

  lemma ShutdownStep(s: State, e: Event, c: nat)
    requires Inv(s) && Enabled(s, e) && s.poisoned
    ensures var t := Apply(s, e);
            && t.poisoned && t.early == s.early
            && (Registers(t, c) ==> Registers(s, c) || Preparing(s, c))
            && (Preparing(t, c) ==> Preparing(s, c))
  {
    hide SeqOf, CallOk, Collected;
    if e.Insert? && In(s, e.c, Numbered) { InsertStep(s, e.c); }
  }

  lemma {:induction false} ShutdownRun(s: State, events: seq<Event>, c: nat)
    requires Inv(s) && Legal(s, events) && s.poisoned
    ensures var t := Run(s, events);
            && t.poisoned && t.early == s.early
            && (Registers(t, c) ==> Registers(s, c) || Preparing(s, c))
    decreases |events|
  {
    hide Inv, Enabled, Apply, Registers, Preparing;
    if events != [] {
      Step(s, events[0]);
      ShutdownStep(s, events[0], c);
      ShutdownRun(Apply(s, events[0]), events[1..], c);
    }
  }

  /** Whatever is pending after a shutdown cleared the map belongs to a call that had passed the flag check before. */
  lemma {:induction false} AfterClear(s: State, events: seq<Event>, k: nat)
    requires Inv(s) && s.poisoned && Legal(Apply(s, ClearMap), events)
    requires k in Run(Apply(s, ClearMap), events).pending
    ensures var c := Run(Apply(s, ClearMap), events).pending[k].owner; Preparing(s, c) && c in s.early
  {
    hide Run, Legal, SeqOf, CallOk;
    var cleared := Apply(s, ClearMap);
    Step(s, ClearMap);
    RunKeeps(cleared, events);
    var t := Run(cleared, events);
    assert EntryOk(t, k);
    var c := t.pending[k].owner;
    ShutdownRun(cleared, events, c);
    assert forall d | Registers(s, d) :: Owns(s, d);
    assert !Registers(cleared, c);
  }

  // --- Retransmission rounds -------------------------------------------------------------------

  /** A round strictly shrinks the budget of what is pending; only a new request lets it grow. */
  lemma RoundsConverge(s: State, e: Event)
    requires Inv(s) && Enabled(s, e)
    ensures e.CollectRound? && s.pending != map[] ==> Budget(Apply(s, e).pending) < Budget(s.pending)
    ensures !e.Insert? ==> Budget(Apply(s, e).pending) <= Budget(s.pending)
  {
    hide SeqOf;
    forall k | k in s.pending ensures s.pending[k].retransmits <= MAX_RETRANSMITS {
      assert EntryOk(s, k) && CallOk(s.calls[s.pending[k].owner], s.issued);
    }
    if e.CollectRound? && s.pending != map[] { CollectShrinksBudget(s.pending); }
  }

  // --- What a call comes to -------------------------------------------------------------------------

  /** How a call can go that is numbered, registered and sent. */
  datatype Course = Replied(x: Response) | Retried(x: Response) | GivenUp | LeftAlone {
    function Events(c: nat, number: nat): seq<Event> {
      match this
      case Replied(x) => [Resolve(number, x), Receive(c)]
      case Retried(x) => [CollectRound, Resend(c), Resolve(number, x), Receive(c)]
      case GivenUp => [CollectRound, CollectRound, CollectRound, CollectRound, GiveUp(c), Receive(c)]
      case LeftAlone => [TimerFires(c), RemoveTimedOut(c)]
    }

    function Result(): Outcome {
      match this
      case Replied(x) => Outcome.Answered(x)
      case Retried(x) => Outcome.Answered(x)
      case GivenUp => Outcome.Answered(Corrupted)
      case LeftAlone => TimedOut
    }
  }

  function Opening(c: nat, frame: seq<Byte>): seq<Event> {
    [Check(c), Number(c, Some(frame)), Insert(c), Send(c, true)]
  }

  /** The call waits, with its entry in the map and nothing sent but its frame. */
  predicate Sent(s: State, c: nat, frame: seq<Byte>, number: nat, rounds: nat) {
    && In(s, c, Waiting) && Owns(s, c) && s.calls[c].sender.InMap? && s.calls[c].Seq() == number
    && s.calls[c].frame == frame && s.pending[number] == Entry(c, frame, rounds)
  }

  lemma {:induction false} Opens(s: State, c: nat, frame: seq<Byte>)
    requires !s.poisoned && c !in s.calls
    ensures Legal(s, Opening(c, frame)) && Sent(Run(s, Opening(c, frame)), c, frame, SeqOf(s.issued), 0)
  {
    hide SeqOf, Collected;
    var events := Opening(c, frame);
    assert events[1..] == [Number(c, Some(frame)), Insert(c), Send(c, true)];
    assert events[1..][1..] == [Insert(c), Send(c, true)] && events[1..][1..][1..] == [Send(c, true)];
    var a := Apply(s, Check(c));
    var b := Apply(a, Number(c, Some(frame)));
    var d := Apply(b, Insert(c));
    var e := Apply(d, Send(c, true));
    OneStepRun(d, Send(c, true));
    assert Legal(b, [Insert(c), Send(c, true)]) && Run(b, [Insert(c), Send(c, true)]) == e;
    assert Legal(a, events[1..]) && Run(a, events[1..]) == e;
  }

  lemma {:induction false} OneStepRun(s: State, e: Event)
    requires Enabled(s, e)
    ensures Legal(s, [e]) && Run(s, [e]) == Apply(s, e)
  {
    hide Enabled, Apply;
    assert [e][1..] == [];
  }

  lemma RoundMoves(s: State, c: nat, frame: seq<Byte>, number: nat, rounds: nat)
    requires Sent(s, c, frame, number, rounds) && rounds < 3
    ensures Sent(Apply(s, CollectRound), c, frame, number, rounds + 1) && Apply(s, CollectRound).calls[c].queued > 0
  {
    hide SeqOf;
  }

  lemma LastRound(s: State, c: nat, frame: seq<Byte>, number: nat)
    requires Sent(s, c, frame, number, 3)
    ensures var t := Apply(s, CollectRound); In(t, c, Waiting) && t.calls[c].sender.InExhausted?
  {
    hide SeqOf;
  }

  /**
   From any open endpoint, whatever else is pending: a call that is numbered, registered and sent gets the reply
   to its number, at once or after a retransmission, the corruption after three rounds of retransmission and a
   fourth, or the timeout.
   */
  lemma {:induction false} CallEnds(s: State, c: nat, frame: seq<Byte>, course: Course)
    requires !s.poisoned && c !in s.calls
    ensures var events := Opening(c, frame) + course.Events(c, SeqOf(s.issued));
            Legal(s, events) && In(Run(s, events), c, Done(course.Result()))
  {
    hide SeqOf, Sent, Legal, Run, Opening;
    var number := SeqOf(s.issued);
    Opens(s, c, frame);
    var t := Run(s, Opening(c, frame));
    CourseEnds(t, c, frame, number, course);
    Joined(s, Opening(c, frame), course.Events(c, number));
  }

  lemma {:induction false} CourseEnds(s: State, c: nat, frame: seq<Byte>, number: nat, course: Course)
    requires Sent(s, c, frame, number, 0)
    ensures var events := course.Events(c, number);
            Legal(s, events) && In(Run(s, events), c, Done(course.Result()))
  {
    hide SeqOf, Collected;
    var events := course.Events(c, number);
    match course
    case Replied(x) =>
      var a := Apply(s, Resolve(number, x));
      OneStepRun(a, Receive(c));
      assert events[1..] == [Receive(c)];
    case Retried(x) =>
      RoundMoves(s, c, frame, number, 0);
      var a := Apply(s, CollectRound);
      var b := Apply(a, Resend(c));
      var d := Apply(b, Resolve(number, x));
      OneStepRun(d, Receive(c));
      assert events[1..] == [Resend(c), Resolve(number, x), Receive(c)];
      assert events[1..][1..] == [Resolve(number, x), Receive(c)] && events[1..][1..][1..] == [Receive(c)];
      assert Legal(b, events[1..][1..]) && Run(b, events[1..][1..]) == Apply(d, Receive(c));
    case LeftAlone =>
      var a := Apply(s, TimerFires(c));
      OneStepRun(a, RemoveTimedOut(c));
      assert events[1..] == [RemoveTimedOut(c)];
    case GivenUp => GivingUp(s, c, frame, number);
  }

  lemma {:induction false} GivingUp(s: State, c: nat, frame: seq<Byte>, number: nat)
    requires Sent(s, c, frame, number, 0)
    ensures var events := GivenUp.Events(c, number);
            Legal(s, events) && In(Run(s, events), c, Done(Outcome.Answered(Corrupted)))
  {
    hide SeqOf, Sent, Legal, Run, Apply, Enabled;
    var r: Event := CollectRound;
    var events := [r, r, r, r, GiveUp(c), Receive(c)];
    AnyRound(s, c, frame, number, 0);
    var s1 := Apply(s, r);
    AnyRound(s1, c, frame, number, 1);
    var s2 := Apply(s1, r);
    AnyRound(s2, c, frame, number, 2);
    var s3 := Apply(s2, r);
    FinalRound(s3, c, frame, number);
    var s4 := Apply(s3, r);
    OneStepRun(Apply(s4, GiveUp(c)), Receive(c));
    assert events[5..] == [Receive(c)];
    MoreSteps(s4, GiveUp(c), events[5..], events[4..]);
    MoreSteps(s3, r, events[4..], events[3..]);
    MoreSteps(s2, r, events[3..], events[2..]);
    MoreSteps(s1, r, events[2..], events[1..]);
    MoreSteps(s, r, events[1..], events);
  }

  lemma AnyRound(s: State, c: nat, frame: seq<Byte>, number: nat, rounds: nat)
    requires Sent(s, c, frame, number, rounds) && rounds < 3
    ensures Enabled(s, CollectRound) && Sent(Apply(s, CollectRound), c, frame, number, rounds + 1)
  {
    hide Sent, Apply;
    RoundMoves(s, c, frame, number, rounds);
  }

  lemma FinalRound(s: State, c: nat, frame: seq<Byte>, number: nat)
    requires Sent(s, c, frame, number, 3)
    ensures Enabled(s, CollectRound)
            && var t := Apply(s, CollectRound);
            && Enabled(t, GiveUp(c)) && Enabled(Apply(t, GiveUp(c)), Receive(c))
            && In(Apply(Apply(t, GiveUp(c)), Receive(c)), c, Done(Outcome.Answered(Corrupted)))
  {
    hide Sent, AfterRound, Collected;
    LastRound(s, c, frame, number);
  }

  lemma {:induction false} MoreSteps(s: State, e: Event, rest: seq<Event>, all: seq<Event>)
    requires Enabled(s, e) && Legal(Apply(s, e), rest) && all == [e] + rest
    ensures Legal(s, all) && Run(s, all) == Run(Apply(s, e), rest)
  {
    hide Enabled, Apply;
    assert all[1..] == rest;
  }

  lemma {:induction false} Joined(s: State, a: seq<Event>, b: seq<Event>)
    requires Legal(s, a) && Legal(Run(s, a), b)
    ensures Legal(s, a + b) && Run(s, a + b) == Run(Run(s, a), b)
    decreases |a|
  {
    hide Enabled, Apply;
    if a == [] {
      assert a + b == b;
    } else {
      Joined(Apply(s, a[0]), a[1..], b);
      assert (a + b)[1..] == a[1..] + b;
    }
  }
}
