/**
 The shared object behind the runs. Each method is one critical section; what it does to the fields is
 what its event does to the state, so whatever holds of all runs holds of every object.
 */
module IpcEndpoint {
  import opened Wrappers
  import opened Listing
  import opened IpcProtocol
  import opened IpcRuns
  import opened IpcRunTheorems

  /** Events that happen outside the locks. */
  predicate Local(e: Event) {
    e.Send? || e.Receive? || e.SeeDropped? || e.TimerFires? || e.GiveUp? || e.Resend?
  }

  /** A retransmission round has taken the call out of the map. */
  predicate Left(s: State, c: nat) {
    c in s.calls && s.calls[c].sender.InExhausted?
  }

  lemma NextNumber(issued: nat)
    ensures SeqOf(issued + 1) == (SeqOf(issued) + 1) % SEQ_LIMIT
  {
  }

  class Protocol {
    var nextSeq: nat
    var pending: Pending
    var poisoned: bool
    /** Everything that has happened to this object. */
    ghost var events: seq<Event>

    constructor ()
      ensures Valid() && events == []
    {
      nextSeq, pending, poisoned, events := 0, map[], false, [];
    }

    /** The fields are those of the state the events lead to. */
    ghost predicate Valid()
      reads this
    {
      && Legal(INITIAL, events)
      && var s := Run(INITIAL, events);
         nextSeq == SeqOf(s.issued) && pending == s.pending && poisoned == s.poisoned
    }

    ghost function Now(): State
      reads this
      requires Valid()
    {
      Run(INITIAL, events)
    }

    /** Passes a call on unless the transport is shut down. */
    method CheckFlag(c: nat) returns (closed: bool)
      requires Valid() && c !in Now().calls
      modifies `events
      ensures Valid() && events == old(events) + [Check(c)]
      ensures closed <==> In(Now(), c, Done(Closed))
      ensures !closed <==> In(Now(), c, Checked)
    {
      hide Run, Legal;
      OneMore(INITIAL, events, Check(c));
      closed := poisoned;
      events := events + [Check(c)];
    }

    /** Hands out the call's sequence number, and advances also when encoding failed. */
    method NextSeq(c: nat, encoded: Option<seq<Byte>>) returns (s: nat)
      requires Valid() && In(Now(), c, Checked)
      modifies `nextSeq, `events
      ensures Valid() && events == old(events) + [Number(c, encoded)]
      ensures encoded.Some? ==> In(Now(), c, Numbered) && s == Now().calls[c].Seq()
      ensures encoded.None? ==> In(Now(), c, Done(EncodeFailed))
    {
      hide Run, Legal, SeqOf;
      OneMore(INITIAL, events, Number(c, encoded));
      NextNumber(Now().issued);
      s := nextSeq;
      nextSeq := (nextSeq + 1) % SEQ_LIMIT;
      events := events + [Number(c, encoded)];
    }

    /** Registers a numbered call, in place of whoever still had an entry under its number. */
    method Register(c: nat, s: nat, frame: seq<Byte>)
      requires Valid() && In(Now(), c, Numbered) && s == Now().calls[c].Seq() && frame == Now().calls[c].frame
      modifies `pending, `events
      ensures Valid() && events == old(events) + [Insert(c)]
      ensures Owns(Now(), c)
      ensures forall d | Owns(old(Now()), d) :: Owns(Now(), d) <==> old(Now()).calls[d].Seq() != s
    {
      hide Run, Legal, SeqOf;
      InitialOk();
      RunKeeps(INITIAL, events);
      TakesOver(Now(), c);
      OneMore(INITIAL, events, Insert(c));
      pending := pending[s := Entry(c, frame, 0)];
      events := events + [Insert(c)];
    }

    /** Matches a reply frame to its call, if there is one. */
    method Resolve(s: nat, response: Response) returns (found: bool)
      requires Valid()
      modifies `pending, `events
      ensures Valid() && events == old(events) + [Event.Resolve(s, response)]
      ensures found <==> exists c :: Delivers(old(Now()), Event.Resolve(s, response), c)
      ensures found ==> exists c :: c in Now().calls && Now().calls[c].Seq() == s
                                    && Now().calls[c].sender == Fulfilled(response, FrameNumber(s))
    {
      hide Run, Legal, SeqOf;
      InitialOk();
      RunKeeps(INITIAL, events);
      ghost var before := Now();
      OneMore(INITIAL, events, Event.Resolve(s, response));
      found := s in pending;
      events := events + [Event.Resolve(s, response)];
      if found {
        assert EntryOk(before, s);
        ghost var c := before.pending[s].owner;
        assert Delivers(before, Event.Resolve(s, response), c);
        pending := pending - {s};
        assert Now().calls[c].Seq() == s && Now().calls[c].sender == Fulfilled(response, FrameNumber(s));
      } else {
        assert pending == pending - {s};
      }
    }

    /** A call that ran out of time takes out the entry under its number, whoever has put it there. */
    method RemoveTimedOut(c: nat, s: nat)
      requires Valid() && In(Now(), c, TimingOut) && s == Now().calls[c].Seq()
      modifies `pending, `events
      ensures Valid() && events == old(events) + [Event.RemoveTimedOut(c)]
      ensures In(Now(), c, Done(TimedOut))
      ensures forall d | Owns(old(Now()), d) :: Owns(Now(), d) <==> old(Now()).calls[d].Seq() != s
    {
      hide Run, Legal, SeqOf;
      InitialOk();
      RunKeeps(INITIAL, events);
      TakesOut(Now(), c);
      OneMore(INITIAL, events, Event.RemoveTimedOut(c));
      pending := pending - {s};
      events := events + [Event.RemoveTimedOut(c)];
    }

    /** One retransmission round: the frames to resend and the calls to give up on. */
    method Collect() returns (resend: seq<seq<Byte>>, exhausted: seq<nat>)
      requires Valid()
      modifies `pending, `events
      ensures Valid() && events == old(events) + [CollectRound]
      ensures forall c :: c in exhausted <==> Owns(old(Now()), c) && Left(Now(), c)
      ensures forall c | Owns(old(Now()), c) && c !in exhausted :: Owns(Now(), c) && old(Now()).calls[c].frame in resend
      ensures |resend| + |exhausted| == |old(pending)|
    {
      hide Run, Legal, SeqOf, Lists, FramesOf, OwnersOf, Collected;
      InitialOk();
      RunKeeps(INITIAL, events);
      ghost var before := Now();
      OneMore(INITIAL, events, CollectRound);
      ghost var kept, gone;
      pending, resend, exhausted, kept, gone := CollectEntries(pending);
      events := events + [CollectRound];
      RoundLists(before, resend, exhausted, kept, gone);
    }

    /** Shutdown, first half: no call passes the check any more. */
    method SetPoisoned()
      requires Valid()
      modifies `poisoned, `events
      ensures Valid() && events == old(events) + [SetFlag] && Now().poisoned
    {
      hide Run, Legal;
      OneMore(INITIAL, events, SetFlag);
      poisoned := true;
      events := events + [SetFlag];
    }

    /** Shutdown, second half: every pending call is cut off. */
    method Clear()
      requires Valid() && poisoned
      modifies `pending, `events
      ensures Valid() && events == old(events) + [ClearMap]
      ensures forall c | Owns(old(Now()), c) :: c in Now().calls && Now().calls[c].sender.Dropped?
    {
      hide Run, Legal, SeqOf;
      OneMore(INITIAL, events, ClearMap);
      pending := map[];
      events := events + [ClearMap];
    }

    /** What callers and the sender do outside the locks. */
    ghost method Note(e: Event)
      requires Valid() && Local(e) && Enabled(Now(), e)
      modifies `events
      ensures Valid() && events == old(events) + [e]
    {
      hide Run, Legal, SeqOf;
      OneMore(INITIAL, events, e);
      events := events + [e];
    }

    /** Whatever has happened to the object, each call was answered at most once and sent at most four times. */
    lemma {:induction false} Safe(c: nat)
      requires Valid()
      ensures Answers(INITIAL, events, c) <= 1 && FramesOnWire(events, c) <= 4
    {
      AtMostOneAnswer(events, c);
      FramesBounded(events, c);
    }
  }

  lemma TakesOver(s: State, c: nat)
    requires Inv(s) && In(s, c, Numbered)
    ensures var t := Apply(s, Insert(c));
            Owns(t, c) && forall d | Owns(s, d) :: Owns(t, d) <==> s.calls[d].Seq() != s.calls[c].Seq()
  {
    hide SeqOf;
    assert CallOk(s.calls[c], s.issued);
    NotOwner(s, c, s.calls[c].Seq());
  }

  lemma TakesOut(s: State, c: nat)
    requires In(s, c, TimingOut)
    ensures var t := Apply(s, Event.RemoveTimedOut(c));
            forall d | Owns(s, d) :: Owns(t, d) <==> s.calls[d].Seq() != s.calls[c].Seq()
  {
    hide SeqOf;
  }

  lemma RoundLists(s: State, resend: seq<seq<Byte>>, exhausted: seq<nat>, kept: seq<nat>, gone: seq<nat>)
    requires Inv(s) && Lists(kept, Kept(s.pending)) && FramesOf(resend, kept, s.pending)
    requires Lists(gone, s.pending.Keys - Kept(s.pending)) && OwnersOf(exhausted, gone, s.pending)
    ensures var t := Apply(s, CollectRound);
            && (forall c :: c in exhausted <==> Owns(s, c) && Left(t, c))
            && (forall c | Owns(s, c) && c !in exhausted :: Owns(t, c) && s.calls[c].frame in resend)
            && |resend| + |exhausted| == |s.pending|
  {
    hide SeqOf, Apply, Collected, Lists;
    forall c ensures c in exhausted <==> Owns(s, c) && Left(Apply(s, CollectRound), c) {
      RoundGone(s, exhausted, gone, c);
    }
    forall c | Owns(s, c) && c !in exhausted
      ensures Owns(Apply(s, CollectRound), c) && s.calls[c].frame in resend
    {
      RoundGone(s, exhausted, gone, c);
      RoundKept(s, resend, kept, c);
    }
    ListLength(kept, Kept(s.pending));
    ListLength(gone, s.pending.Keys - Kept(s.pending));
    assert s.pending.Keys == Kept(s.pending) + (s.pending.Keys - Kept(s.pending));
    assert |s.pending| == |s.pending.Keys|;
  }

  lemma RoundGone(s: State, exhausted: seq<nat>, gone: seq<nat>, c: nat)
    requires MapOk(s) && Lists(gone, s.pending.Keys - Kept(s.pending)) && OwnersOf(exhausted, gone, s.pending)
    ensures c in exhausted <==> Owns(s, c) && Left(Apply(s, CollectRound), c)
  {
    hide SeqOf, Collected;
    if c in exhausted {
      var i :| 0 <= i < |exhausted| && exhausted[i] == c;
      assert gone[i] in gone;
      assert EntryOk(s, gone[i]);
    }
    if Owns(s, c) && Left(Apply(s, CollectRound), c) {
      var k := s.calls[c].Seq();
      assert EntryOk(s, k);
      assert k in gone;
      var i :| 0 <= i < |gone| && gone[i] == k;
      assert exhausted[i] == c;
    }
  }

  lemma RoundKept(s: State, resend: seq<seq<Byte>>, kept: seq<nat>, c: nat)
    requires MapOk(s) && Lists(kept, Kept(s.pending)) && FramesOf(resend, kept, s.pending)
    requires Owns(s, c) && !Left(Apply(s, CollectRound), c)
    ensures Owns(Apply(s, CollectRound), c) && s.calls[c].frame in resend
  {
    hide SeqOf;
    var k := s.calls[c].Seq();
    assert EntryOk(s, k);
    assert k in Kept(s.pending) && k in kept;
    var i :| 0 <= i < |kept| && kept[i] == k;
    assert resend[i] == s.calls[c].frame;
  }
}
