/**
 Every interleaving of callers, the reader, retransmission rounds and shutdown over one `Protocol`.
 Each event is one critical section or one action outside the locks.
 */
module IpcRuns {
  import opened Wrappers
  import opened IpcProtocol

  datatype Response =
    | Reply(rc: nat, value: seq<Byte>, writeback: seq<Byte>)
    | Corrupted
    | TunnelError(code: nat)
    | UnexpectedFrame

  datatype Outcome = Closed | EncodeFailed | TransportFailed | Answered(response: Response) | Disconnected | TimedOut

  datatype Phase = Checked | Numbered | Registered | Waiting | TimingOut | Done(outcome: Outcome)

  /** Who answered a call: a reply frame with this sequence number, or a retransmission round that gave up. */
  datatype Source = FrameNumber(s: nat) | GaveUp

  /** Where the sending half of a call's reply channel is. */
  datatype Sender = Unused | InMap | InExhausted | Fulfilled(response: Response, source: Source) | Dropped

  function SeqOf(ordinal: nat): nat {
    ordinal % SEQ_LIMIT
  }

  /** `ordinal` counts requests numbered before this one; `queued` resends are collected but not yet sent. */
  datatype Call = Call(
    phase: Phase,
    ordinal: nat,
    frame: seq<Byte>,
    sender: Sender,
    sends: nat,
    queued: nat,
    picks: nat)
  {
    function Seq(): nat {
      SeqOf(ordinal)
    }

    /** The call has an entry under its number, or will still insert or remove one by that number. */
    predicate Holding() {
      || phase.Numbered? || phase.TimingOut? || sender.InMap?
      || ((phase.Registered? || phase.Waiting?) && sender.InExhausted?)
    }
  }

  /** `early` are the calls that began before the poisoned flag was set. */
  datatype State = State(poisoned: bool, issued: nat, pending: Pending, calls: map<nat, Call>, early: set<nat>)

  datatype Event =
    | Check(c: nat)
    | Number(c: nat, encoded: Option<seq<Byte>>)
    | Insert(c: nat)
    | Send(c: nat, ok: bool)
    | Receive(c: nat)
    | SeeDropped(c: nat)
    | TimerFires(c: nat)
    | RemoveTimedOut(c: nat)
    | Resolve(s: nat, response: Response)
    | CollectRound
    | GiveUp(c: nat)
    | Resend(c: nat)
    | SetFlag
    | ClearMap

  const INITIAL: State := State(false, 0, map[], map[], {})

  predicate In(s: State, c: nat, phase: Phase) {
    c in s.calls && s.calls[c].phase == phase
  }

  predicate Enabled(s: State, e: Event) {
    match e
    case Check(c) => c !in s.calls
    case Number(c, _) => In(s, c, Checked)
    case Insert(c) => In(s, c, Numbered)
    case Send(c, _) => In(s, c, Registered)
    case Receive(c) => In(s, c, Waiting) && s.calls[c].sender.Fulfilled?
    case SeeDropped(c) => In(s, c, Waiting) && s.calls[c].sender.Dropped?
    case TimerFires(c) => // the receiver is polled first
      In(s, c, Waiting) && !s.calls[c].sender.Fulfilled? && !s.calls[c].sender.Dropped?
    case RemoveTimedOut(c) => In(s, c, TimingOut)
    case GiveUp(c) => c in s.calls && s.calls[c].sender.InExhausted?
    case Resend(c) => c in s.calls && s.calls[c].queued > 0
    case ClearMap => s.poisoned
    case _ => true
  }

  /** Changes the reply channel of whoever owns the entry at `k`, if any. */
  function Hand(s: State, k: nat, sender: Sender): map<nat, Call> {
    if k in s.pending && s.pending[k].owner in s.calls then
      s.calls[s.pending[k].owner := s.calls[s.pending[k].owner].(sender := sender)]
    else s.calls
  }

  predicate Owns(s: State, c: nat) {
    c in s.calls && s.calls[c].Seq() in s.pending && s.pending[s.calls[c].Seq()].owner == c
  }

  function AfterRound(s: State, c: nat): Call
    requires c in s.calls
  {
    var call := s.calls[c];
    if !Owns(s, c) then call
    else if s.pending[call.Seq()].retransmits >= MAX_RETRANSMITS then call.(sender := InExhausted)
    else call.(queued := call.queued + 1, picks := call.picks + 1)
  }

  function Apply(s: State, e: Event): State
    requires Enabled(s, e)
  {
    match e
    case Check(c) =>
      var phase := if s.poisoned then Done(Closed) else Checked;
      s.(calls := s.calls[c := Call(phase, 0, [], Unused, 0, 0, 0)])
    case Number(c, encoded) =>
      s.(issued := s.issued + 1,
         calls := s.calls[c := if encoded.None? then s.calls[c].(phase := Done(EncodeFailed))
                               else s.calls[c].(phase := Numbered, ordinal := s.issued, frame := encoded.value)])
    case Insert(c) =>
      var k := s.calls[c].Seq();
      s.(pending := s.pending[k := Entry(c, s.calls[c].frame, 0)],
         calls := Hand(s, k, Dropped)[c := s.calls[c].(phase := Registered, sender := InMap)])
    case Send(c, ok) =>
      var phase := if ok then Waiting else Done(TransportFailed);
      s.(calls := s.calls[c := s.calls[c].(phase := phase, sends := s.calls[c].sends + 1)])
    case Receive(c) => s.(calls := s.calls[c := s.calls[c].(phase := Done(Answered(s.calls[c].sender.response)))])
    case SeeDropped(c) => s.(calls := s.calls[c := s.calls[c].(phase := Done(Disconnected))])
    case TimerFires(c) => s.(calls := s.calls[c := s.calls[c].(phase := TimingOut)])
    case RemoveTimedOut(c) =>
      var k := s.calls[c].Seq();
      var t := s.(pending := s.pending - {k}, calls := Hand(s, k, Dropped));
      t.(calls := t.calls[c := t.calls[c].(phase := Done(TimedOut))])
    case Resolve(k, response) =>
      s.(pending := s.pending - {k}, calls := Hand(s, k, Fulfilled(response, FrameNumber(k))))
    case CollectRound => s.(pending := Collected(s.pending), calls := map c | c in s.calls :: AfterRound(s, c))
    case GiveUp(c) => s.(calls := s.calls[c := s.calls[c].(sender := Fulfilled(Corrupted, GaveUp))])
    case Resend(c) =>
      var call := s.calls[c];
      s.(calls := s.calls[c := call.(queued := call.queued - 1, sends := call.sends + 1)])
    case SetFlag => s.(poisoned := true, early := if s.poisoned then s.early else s.calls.Keys)
    case ClearMap =>
      s.(pending := map[],
         calls := map c | c in s.calls :: if Owns(s, c) then s.calls[c].(sender := Dropped) else s.calls[c])
  }

  // --- The invariant ---------------------------------------------------------------------------

  /** What holds of one call on its own: how often its frame was sent, and who may have answered it. */
  predicate CallOk(call: Call, issued: nat) {
    && call.picks <= MAX_RETRANSMITS
    && (call.phase.Checked? || call.phase.Numbered? || call.phase == Done(Closed)
        || call.phase == Done(EncodeFailed) ==>
          call.sender.Unused? && call.sends == call.queued == call.picks == 0)
    && (call.phase.Registered? ==> call.sends + call.queued == call.picks)
    && (call.phase.Registered? || call.phase.Waiting? || call.phase.TimingOut? ==> !call.sender.Unused?)
    && (call.phase.Waiting? || call.phase.TimingOut? ==> call.sends + call.queued == call.picks + 1)
    && call.sends + call.queued <= call.picks + 1
    && (call.sender.InExhausted? ==> call.picks == MAX_RETRANSMITS)
    && (call.sender.Fulfilled? ==>
        call.sender.source == FrameNumber(call.Seq()) || (call.sender.source.GaveUp? && call.picks == MAX_RETRANSMITS))
    && (call.phase.Numbered? || !call.sender.Unused? ==> call.ordinal < issued)
  }

  ghost predicate EntryOk(s: State, k: nat)
    requires k in s.pending
  {
    var e := s.pending[k];
    && e.owner in s.calls && s.calls[e.owner].Seq() == k && s.calls[e.owner].sender.InMap?
    && e.retransmits == s.calls[e.owner].picks && e.frame == s.calls[e.owner].frame
  }

  ghost predicate CallsOk(s: State) {
    forall c | c in s.calls :: CallOk(s.calls[c], s.issued)
  }

  /** Channels in the map and entries of the map are the same thing. */
  ghost predicate MapOk(s: State) {
    && (forall c | c in s.calls && s.calls[c].sender.InMap? :: Owns(s, c))
    && (forall k | k in s.pending :: EntryOk(s, k))
  }

  ghost predicate EarlyOk(s: State) {
    s.poisoned ==> forall c | c in s.calls :: c in s.early || s.calls[c].phase == Done(Closed)
  }

  ghost predicate Inv(s: State) {
    CallsOk(s) && MapOk(s) && EarlyOk(s)
  }

  lemma CallOkLater(call: Call, issued: nat, later: nat)
    requires CallOk(call, issued) && issued <= later
    ensures CallOk(call, later)
  {
  }

  predicate SameEntry(s: State, c: nat, call: Call) {
    && (call.sender.InMap? <==> c in s.calls && s.calls[c].sender.InMap?)
    && (c in s.calls && s.calls[c].sender.InMap? ==>
          call.ordinal == s.calls[c].ordinal && call.picks == s.calls[c].picks && call.frame == s.calls[c].frame)
  }

  lemma RecordMap(s: State, c: nat, call: Call, issued: nat)
    requires MapOk(s) && SameEntry(s, c, call)
    ensures MapOk(s.(calls := s.calls[c := call], issued := issued))
  {
    hide SeqOf;
    var t := s.(calls := s.calls[c := call], issued := issued);
    forall k | k in t.pending ensures EntryOk(t, k) { assert EntryOk(s, k); }
    forall d | d in t.calls && t.calls[d].sender.InMap? ensures Owns(t, d) { assert Owns(s, d); }
  }

  /** Replacing one call's record, with the map untouched. */
  lemma RecordKeeps(s: State, c: nat, call: Call, issued: nat)
    requires Inv(s) && s.issued <= issued && CallOk(call, issued) && SameEntry(s, c, call)
    requires s.poisoned ==> c in s.early || call.phase == Done(Closed)
    ensures Inv(s.(calls := s.calls[c := call], issued := issued))
  {
    hide SeqOf, CallOk, MapOk, SameEntry;
    RecordMap(s, c, call, issued);
    forall d | d in s.calls ensures CallOk(s.calls[d], issued) { CallOkLater(s.calls[d], s.issued, issued); }
  }

  lemma RecordStep(s: State, e: Event)
    requires Inv(s) && Enabled(s, e)
    requires e.Check? || e.Number? || e.Send? || e.Receive? || e.SeeDropped? || e.TimerFires? || e.GiveUp? || e.Resend?
    ensures Inv(Apply(s, e))
  {
    hide SeqOf;
    var t := Apply(s, e);
    RecordKeeps(s, e.c, t.calls[e.c], t.issued);
  }

  /** Moving some channels out of the map, together with their entries. */
  ghost predicate Moves(s: State, t: State, gone: set<nat>) {
    && t.issued == s.issued && t.poisoned == s.poisoned && t.early == s.early && t.calls.Keys == s.calls.Keys
    && t.pending == s.pending - gone
    && (forall c | c in s.calls ::
          if Owns(s, c) && s.calls[c].Seq() in gone then
            var sender := t.calls[c].sender;
            && t.calls[c] == s.calls[c].(sender := sender)
            && (sender.Dropped? || (sender.Fulfilled? && sender.source == FrameNumber(s.calls[c].Seq())))
          else t.calls[c] == s.calls[c])
  }

  lemma MovedCallOk(call: Call, issued: nat, sender: Sender)
    requires CallOk(call, issued) && call.sender.InMap?
    requires sender.Dropped? || (sender.Fulfilled? && sender.source == FrameNumber(call.Seq()))
    ensures CallOk(call.(sender := sender), issued)
  {
  }

  lemma MovesKeep(s: State, t: State, gone: set<nat>)
    requires Inv(s) && Moves(s, t, gone)
    ensures Inv(t)
  {
    hide SeqOf, CallOk;
    forall c | c in t.calls ensures CallOk(t.calls[c], t.issued) {
      if Owns(s, c) && s.calls[c].Seq() in gone {
        assert EntryOk(s, s.calls[c].Seq());
        MovedCallOk(s.calls[c], s.issued, t.calls[c].sender);
      }
    }
    forall k | k in t.pending ensures EntryOk(t, k) { assert EntryOk(s, k); }
    forall c | c in t.calls && t.calls[c].sender.InMap? ensures Owns(t, c) { assert Owns(s, c); }
  }

  lemma LeaveMoves(s: State, k: nat, sender: Sender)
    requires Inv(s)
    requires sender.Dropped? || (sender.Fulfilled? && sender.source == FrameNumber(k))
    ensures Inv(s.(pending := s.pending - {k}, calls := Hand(s, k, sender)))
  {
    hide SeqOf, CallOk, CallsOk, EarlyOk;
    var t := s.(pending := s.pending - {k}, calls := Hand(s, k, sender));
    if k in s.pending { assert EntryOk(s, k); }
    MovesKeep(s, t, {k});
  }

  lemma TimeoutStep(s: State, c: nat)
    requires Inv(s) && In(s, c, TimingOut)
    ensures Inv(Apply(s, RemoveTimedOut(c)))
  {
    hide SeqOf, CallOk;
    var k := s.calls[c].Seq();
    LeaveMoves(s, k, Dropped);
    var t := s.(pending := s.pending - {k}, calls := Hand(s, k, Dropped));
    assert t.calls[c].phase == TimingOut;
    TimeoutRecord(t.calls[c], t.issued);
    RecordKeeps(t, c, t.calls[c].(phase := Done(TimedOut)), t.issued);
  }

  lemma TimeoutRecord(call: Call, issued: nat)
    requires CallOk(call, issued) && call.phase == TimingOut
    ensures CallOk(call.(phase := Done(TimedOut)), issued)
  {
  }

  lemma InsertedCallOk(call: Call, issued: nat)
    requires CallOk(call, issued) && call.phase == Numbered
    ensures CallOk(call.(phase := Registered, sender := InMap), issued) && call.picks == 0 && call.sender.Unused?
  {
  }

  /** Whoever had the number loses its channel; then the slot is free. */
  lemma InsertStep(s: State, c: nat)
    requires Inv(s) && In(s, c, Numbered)
    ensures Inv(Apply(s, Insert(c)))
  {
    hide SeqOf, CallOk, MapOk;
    var k := s.calls[c].Seq();
    LeaveMoves(s, k, Dropped);
    InsertedCallOk(s.calls[c], s.issued);
    NotOwner(s, c, k);
    var t := s.(pending := s.pending - {k}, calls := Hand(s, k, Dropped));
    assert t.calls[c] == s.calls[c];
    InsertMap(t, c);
    assert Apply(t, Insert(c)) == Apply(s, Insert(c)) by {
      assert t.pending[k := Entry(c, s.calls[c].frame, 0)] == s.pending[k := Entry(c, s.calls[c].frame, 0)];
    }
  }

  lemma NotOwner(s: State, c: nat, k: nat)
    requires MapOk(s) && c in s.calls && s.calls[c].sender.Unused?
    ensures k in s.pending ==> s.pending[k].owner != c
  {
    if k in s.pending { assert EntryOk(s, k); }
  }

  lemma InsertMap(s: State, c: nat)
    requires MapOk(s) && In(s, c, Numbered) && s.calls[c].Seq() !in s.pending && s.calls[c].picks == 0
    ensures MapOk(Apply(s, Insert(c)))
  {
    hide SeqOf, CallOk;
    var k := s.calls[c].Seq();
    var t := Apply(s, Insert(c));
    assert t.calls == s.calls[c := s.calls[c].(phase := Registered, sender := InMap)];
    assert t.pending == s.pending[k := Entry(c, s.calls[c].frame, 0)];
    forall j | j in t.pending ensures EntryOk(t, j) { if j != k { assert EntryOk(s, j); } }
    forall d | d in t.calls && t.calls[d].sender.InMap? ensures Owns(t, d) { if d != c { assert Owns(s, d); } }
  }

  lemma PickedCallOk(call: Call, issued: nat)
    requires CallOk(call, issued) && call.sender.InMap?
    ensures call.picks >= MAX_RETRANSMITS ==> CallOk(call.(sender := InExhausted), issued)
    ensures call.picks < MAX_RETRANSMITS ==> CallOk(call.(queued := call.queued + 1, picks := call.picks + 1), issued)
  {
  }

  lemma RoundStep(s: State)
    requires Inv(s)
    ensures Inv(Apply(s, CollectRound))
  {
    hide SeqOf, CallOk, Collected;
    var t := Apply(s, CollectRound);
    forall c | c in t.calls ensures CallOk(t.calls[c], t.issued) {
      if Owns(s, c) {
        assert EntryOk(s, s.calls[c].Seq());
        PickedCallOk(s.calls[c], s.issued);
      }
    }
    RoundMap(s);
  }

  lemma RoundMap(s: State)
    requires MapOk(s)
    ensures MapOk(Apply(s, CollectRound))
  {
    hide SeqOf;
    var t := Apply(s, CollectRound);
    forall k | k in t.pending ensures EntryOk(t, k) { assert EntryOk(s, k) && Owns(s, s.pending[k].owner); }
    forall c | c in t.calls && t.calls[c].sender.InMap? ensures Owns(t, c) { assert Owns(s, c); }
  }

  lemma ClearStep(s: State)
    requires Inv(s) && s.poisoned
    ensures Inv(Apply(s, ClearMap))
  {
    hide SeqOf, CallOk, CallsOk, MapOk, EarlyOk;
    MovesKeep(s, Apply(s, ClearMap), s.pending.Keys);
  }

  lemma Step(s: State, e: Event)
    requires Inv(s) && Enabled(s, e)
    ensures Inv(Apply(s, e))
  {
    hide Inv, CallOk, SeqOf;
    match e
    case Insert(c) => InsertStep(s, c);
    case RemoveTimedOut(c) => TimeoutStep(s, c);
    case Resolve(k, response) => LeaveMoves(s, k, Fulfilled(response, FrameNumber(k)));
    case CollectRound => RoundStep(s);
    case ClearMap => ClearStep(s);
    case SetFlag => FlagStep(s);
    case _ => RecordStep(s, e);
  }

  lemma FlagStep(s: State)
    requires Inv(s)
    ensures Inv(Apply(s, SetFlag))
  {
    hide SeqOf, CallOk;
    assert forall k | k in s.pending :: EntryOk(s, k);
    assert forall c | c in s.calls && s.calls[c].sender.InMap? :: Owns(s, c);
  }
}
