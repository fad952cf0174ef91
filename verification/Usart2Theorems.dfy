/** Framing, independence of interleaved streams, and conservation of streams. */
module Usart2Theorems {
  import opened Wrappers
  import opened LittleEndian
  import opened Listing
  import opened Usart2

  // --- Framing ---------------------------------------------------------------------------------

  function BytesOf(ticks: seq<Tick>): (b: seq<Byte>)
    ensures |b| == |ticks|
  {
    seq(|ticks|, i requires 0 <= i < |ticks| => ticks[i].byte)
  }

  predicate ZeroFree(ticks: seq<Tick>) {
    forall i | 0 <= i < |ticks| :: ticks[i].byte != 0
  }

  lemma {:induction false} Accumulates<D, V>(w: Wire<D, V>, p: Port<D, V>, ticks: seq<Tick>, n: nat)
    requires ZeroFree(ticks) && p.cobsBuf == [] && n <= |ticks| && n <= COBS_LIMIT
    ensures Feed(w, p, ticks[..n]) ==
            Port(BytesOf(ticks[..n]), if n == 0 then p.chunkStart else Some(ticks[0].now), p.re)
  {
    if n > 0 {
      Accumulates(w, p, ticks, n - 1);
      assert ticks[..n] == ticks[..n - 1] + [ticks[n - 1]];
      FeedSplit(w, p, ticks[..n - 1], [ticks[n - 1]]);
      FeedOne(w, Feed(w, p, ticks[..n - 1]), ticks[n - 1]);
      assert BytesOf(ticks[..n]) == BytesOf(ticks[..n - 1]) + [ticks[n - 1].byte];
    }
  }

  lemma {:induction false} FeedOne<D, V>(w: Wire<D, V>, p: Port<D, V>, t: Tick)
    ensures Feed(w, p, [t]) == ByteStep(w, p, t)
  {
  }

  /** A frame of at most 300 bytes is delivered whole at its delimiter, stamped with its first byte. */
  lemma {:induction false} FrameDelivered<D, V>(w: Wire<D, V>, p: Port<D, V>, frame: seq<Tick>, end: Tick)
    requires p.cobsBuf == [] && ZeroFree(frame) && 0 < |frame| <= 300 && end.byte == 0
    ensures Feed(w, p, frame + [end]) == Port([], None, DeliverChunk(w, p.re, BytesOf(frame), frame[0].now))
  {
    hide DeliverChunk;
    Accumulates(w, p, frame, |frame|);
    assert frame[..|frame|] == frame;
    FeedSplit(w, p, frame, [end]);
    FeedOne(w, Feed(w, p, frame), end);
  }

  /** A longer frame is cut: its first 301 bytes are reported and the rest is read as a frame of its own. */
  lemma {:induction false} FrameCut<D, V>(w: Wire<D, V>, p: Port<D, V>, frame: seq<Tick>, rest: seq<Tick>)
    requires p.cobsBuf == [] && ZeroFree(frame) && |frame| > 300
    ensures Feed(w, p, frame + rest) ==
            Feed(w, Port([], None, p.re.(events := p.re.events + [CobsOverflow(BytesOf(frame[..301]))])),
                 frame[301..] + rest)
  {
    var n := COBS_LIMIT;
    Accumulates(w, p, frame, n);
    assert frame + rest == frame[..n] + ([frame[n]] + (frame[n + 1..] + rest));
    FeedSplit(w, p, frame[..n], [frame[n]] + (frame[n + 1..] + rest));
    FeedSplit(w, Feed(w, p, frame[..n]), [frame[n]], frame[n + 1..] + rest);
    FeedOne(w, Feed(w, p, frame[..n]), frame[n]);
    assert BytesOf(frame[..n + 1]) == BytesOf(frame[..n]) + [frame[n].byte];
  }

  /** A message as the device sends it: zero-free COBS bytes that decode to it, and the delimiter. */
  datatype Sent = Sent(message: seq<Byte>, frame: seq<Tick>, end: Tick)

  ghost predicate SentOk<D, V>(w: Wire<D, V>, m: Sent) {
    ZeroFree(m.frame) && 0 < |m.frame| <= 300 && m.end.byte == 0 && w.cobs(BytesOf(m.frame)) == Some(m.message)
  }

  function OnWire(messages: seq<Sent>): seq<Tick> {
    if messages == [] then [] else messages[0].frame + [messages[0].end] + OnWire(messages[1..])
  }

  function ChunkSteps<D, V>(w: Wire<D, V>, re: Reassembly<D, V>, chunks: seq<(seq<Byte>, nat)>): Reassembly<D, V>
    decreases |chunks|
  {
    if chunks == [] then re else ChunkSteps(w, ChunkStep(w, re, chunks[0].0, chunks[0].1), chunks[1..])
  }

  function ChunksOf(messages: seq<Sent>): seq<(seq<Byte>, nat)> {
    seq(|messages|, i requires 0 <= i < |messages| =>
      (messages[i].message, if messages[i].frame == [] then 0 else messages[i].frame[0].now))
  }

  /** Messages sent one after the other are processed one after the other, unchanged. */
  lemma {:induction false} MessagesArrive<D, V>(w: Wire<D, V>, p: Port<D, V>, messages: seq<Sent>)
    requires p.cobsBuf == [] && p.chunkStart.None? && forall m | m in messages :: SentOk(w, m)
    ensures Feed(w, p, OnWire(messages)) == Port([], None, ChunkSteps(w, p.re, ChunksOf(messages)))
    decreases |messages|
  {
    hide ChunkStep;
    if messages != [] {
      var m := messages[0];
      assert SentOk(w, m);
      FeedSplit(w, p, m.frame + [m.end], OnWire(messages[1..]));
      FrameDelivered(w, p, m.frame, m.end);
      MessagesArrive(w, Feed(w, p, m.frame + [m.end]), messages[1..]);
      assert ChunksOf(messages)[1..] == ChunksOf(messages[1..]);
    }
  }

  // --- Streams do not disturb each other -------------------------------------------------------

  predicate For<V>(e: Event<V>, id: nat) {
    (e.Entry? || e.MetadataError? || e.StreamTimeout?) && e.id == id
  }

  function EventsFor<V>(events: seq<Event<V>>, id: nat): seq<Event<V>> {
    if events == [] then []
    else EventsFor(events[..|events| - 1], id) + if For(events[|events| - 1], id) then [events[|events| - 1]] else []
  }

  lemma {:induction false} EventsForSplit<V>(a: seq<Event<V>>, b: seq<Event<V>>, id: nat)
    ensures EventsFor(a + b, id) == EventsFor(a, id) + EventsFor(b, id)
    decreases |b|
  {
    if b == [] {
      assert a + b == a;
    } else {
      EventsForSplit(a, b[..|b| - 1], id);
      assert (a + b)[..|a + b| - 1] == a + b[..|b| - 1];
    }
  }

  predicate ChunkFor(c: (seq<Byte>, nat), id: nat) {
    ParseChunk(c.0).Fragment? && ParseChunk(c.0).id == id
  }

  /** The two reassemblies agree on everything about stream `id`. */
  ghost predicate Agree<D(!new), V(!new)>(a: Reassembly<D, V>, b: Reassembly<D, V>, id: nat) {
    && EventsFor(a.events, id) == EventsFor(b.events, id)
    && (id in a.streams <==> id in b.streams)
    && (id in a.streams ==> a.streams[id] == b.streams[id])
  }

  lemma OwnChunk<D(!new), V(!new)>(w: Wire<D, V>, a: Reassembly<D, V>, b: Reassembly<D, V>, c: (seq<Byte>, nat),
                                   id: nat)
    requires Agree(a, b, id) && ChunkFor(c, id)
    ensures Agree(ChunkStep(w, a, c.0, c.1), ChunkStep(w, b, c.0, c.1), id)
  {
    hide ParseChunk, FeedData, EventsFor, Finish;
    var st := if id in a.streams then a.streams[id] else NewStream(w, c.1);
    var data := ParseChunk(c.0).data;
    var fed := FeedData(w, st.(lastActivity := c.1, bytesSeen := st.bytesSeen + |data|), data).0;
    EventsForSplit(a.events, Finish(id, fed), id);
    EventsForSplit(b.events, Finish(id, fed), id);
  }

  lemma {:induction false} OtherFinish<D(!new), V(!new)>(id: nat, other: nat, st: Stream<D, V>)
    requires id != other
    ensures EventsFor(Finish(other, st), id) == []
  {
  }

  lemma {:induction false} OtherReply<V>(id: nat, bytes: seq<Byte>)
    ensures EventsFor<V>([IpcReply(bytes)], id) == []
  {
  }

  lemma OtherChunk<D(!new), V(!new)>(w: Wire<D, V>, a: Reassembly<D, V>, c: (seq<Byte>, nat), id: nat)
    requires !ChunkFor(c, id)
    ensures Agree(ChunkStep(w, a, c.0, c.1), a, id)
  {
    hide ParseChunk, FeedData, Finish, EventsFor;
    match ParseChunk(c.0)
    case Ignored =>
    case Reply(bytes) =>
      EventsForSplit(a.events, [IpcReply(bytes)], id);
      OtherReply<V>(id, bytes);
    case Fragment(other, data) =>
      var st := if other in a.streams then a.streams[other] else NewStream(w, c.1);
      var fed := FeedData(w, st.(lastActivity := c.1, bytesSeen := st.bytesSeen + |data|), data).0;
      EventsForSplit(a.events, Finish(other, fed), id);
      OtherFinish(id, other, fed);
  }

  // --- Runs ------------------------------------------------------------------------------------

  datatype Action = Arrives(chunk: seq<Byte>, now: nat) | Sweeps(now: nat, order: seq<nat>)

  ghost predicate Possible<D(!new), V(!new)>(r: Reassembly<D, V>, act: Action) {
    act.Sweeps? ==> Lists(act.order, Stale(r.streams, act.now))
  }

  ghost function Act<D(!new), V(!new)>(w: Wire<D, V>, r: Reassembly<D, V>, act: Action): Reassembly<D, V>
    requires Possible(r, act)
  {
    match act
    case Arrives(chunk, now) => ChunkStep(w, r, chunk, now)
    case Sweeps(now, order) => Reassembly(r.streams - Stale(r.streams, now),
                                          r.events + AbandonAll(r.streams, now, order))
  }

  ghost predicate Legal<D(!new), V(!new)>(w: Wire<D, V>, r: Reassembly<D, V>, acts: seq<Action>)
    decreases |acts|
  {
    acts == [] || (Possible(r, acts[0]) && Legal(w, Act(w, r, acts[0]), acts[1..]))
  }

  ghost function Run<D(!new), V(!new)>(w: Wire<D, V>, r: Reassembly<D, V>, acts: seq<Action>): Reassembly<D, V>
    requires Legal(w, r, acts)
    decreases |acts|
  {
    if acts == [] then r else Run(w, Act(w, r, acts[0]), acts[1..])
  }

  // --- Independence over whole runs --------------------------------------------------------------

  /** What an action means to stream `id` alone. */
  function OwnPart(act: Action, id: nat): seq<Action> {
    match act
    case Arrives(chunk, now) => if ChunkFor((chunk, now), id) then [act] else []
    case Sweeps(now, order) => [Sweeps(now, if id in order then [id] else [])]
  }

  function OnlyFor(acts: seq<Action>, id: nat): seq<Action> {
    if acts == [] then [] else OwnPart(acts[0], id) + OnlyFor(acts[1..], id)
  }

  lemma {:induction false} OtherAbandoned<D(!new), V(!new)>(id: nat, other: nat, st: Stream<D, V>, now: nat)
    requires id != other
    ensures EventsFor(Abandon(other, st, now), id) == []
  {
    var all := Abandon(other, st, now);
    assert forall i | 0 <= i < |all| :: !For(all[i], id);
    NothingFor(all, id);
  }

  lemma {:induction false} NothingFor<V>(events: seq<Event<V>>, id: nat)
    requires forall i | 0 <= i < |events| :: !For(events[i], id)
    ensures EventsFor(events, id) == []
  {
    if events != [] { NothingFor(events[..|events| - 1], id); }
  }

  /** Of a sweep, a stream's own report is all that concerns it. */
  lemma {:induction false} SweepFor<D(!new), V(!new)>(streams: Streams<D, V>, now: nat, ids: seq<nat>, id: nat)
    requires forall i | i in ids :: i in streams
    requires forall i, j | 0 <= i < j < |ids| :: ids[i] != ids[j]
    ensures EventsFor(AbandonAll(streams, now, ids), id) ==
            if id in ids then EventsFor(Abandon(id, streams[id], now), id) else []
    decreases |ids|
  {
    hide Abandon, EventsFor;
    if ids == [] {
      assert EventsFor<V>([], id) == [] by { NothingFor<V>([], id); }
    } else {
      var n := |ids| - 1;
      SweepFor(streams, now, ids[..n], id);
      EventsForSplit(AbandonAll(streams, now, ids[..n]), Abandon(ids[n], streams[ids[n]], now), id);
      if ids[n] != id { OtherAbandoned(id, ids[n], streams[ids[n]], now); }
      assert ids == ids[..n] + [ids[n]];
    }
  }

  lemma {:induction false} OwnSweep<D(!new), V(!new)>(w: Wire<D, V>, a: Reassembly<D, V>, b: Reassembly<D, V>, now: nat,
                                                      order: seq<nat>, id: nat)
    requires Agree(a, b, id) && b.streams.Keys <= {id} && Possible(a, Sweeps(now, order))
    ensures var own := Sweeps(now, if id in order then [id] else []);
            && Possible(b, own) && Agree(Act(w, a, Sweeps(now, order)), Act(w, b, own), id)
            && Act(w, b, own).streams.Keys <= {id}
  {
    hide EventsFor, Abandon, AbandonAll;
    var mine := if id in order then [id] else [];
    assert id in order <==> id in Stale(a.streams, now);
    assert id in Stale(a.streams, now) <==> id in Stale(b.streams, now);
    assert Stale(b.streams, now) == set i | i in mine;
    SweepFor(a.streams, now, order, id);
    SweepFor(b.streams, now, mine, id);
    EventsForSplit(a.events, AbandonAll(a.streams, now, order), id);
    EventsForSplit(b.events, AbandonAll(b.streams, now, mine), id);
  }

  lemma OwnStays<D(!new), V(!new)>(w: Wire<D, V>, b: Reassembly<D, V>, c: (seq<Byte>, nat), id: nat)
    requires b.streams.Keys <= {id} && ChunkFor(c, id)
    ensures ChunkStep(w, b, c.0, c.1).streams.Keys <= {id}
  {
    hide ParseChunk, FeedData, Finish;
  }

  /**
   However fragments of several streams and sweeps interleave, what one stream reports is what it would
   have reported alone.
   */
  lemma {:induction false} StreamsIndependent<D(!new), V(!new)>(w: Wire<D, V>, a: Reassembly<D, V>,
                                                                b: Reassembly<D, V>, acts: seq<Action>, id: nat)
    requires Agree(a, b, id) && b.streams.Keys <= {id} && Legal(w, a, acts)
    ensures Legal(w, b, OnlyFor(acts, id)) && Agree(Run(w, a, acts), Run(w, b, OnlyFor(acts, id)), id)
    decreases |acts|
  {
    hide ChunkStep, ChunkFor, EventsFor, AbandonAll, Stale, Agree, Possible, Act;
    if acts != [] {
      var rest := OnlyFor(acts[1..], id);
      var a' := Act(w, a, acts[0]);
      OwnActs(w, a, b, acts[0], id);
      if OwnPart(acts[0], id) == [] {
        StreamsIndependent(w, a', b, acts[1..], id);
        assert OnlyFor(acts, id) == rest;
      } else {
        var own := OwnPart(acts[0], id)[0];
        StreamsIndependent(w, a', Act(w, b, own), acts[1..], id);
        assert OnlyFor(acts, id) == [own] + rest && ([own] + rest)[1..] == rest;
      }
    }
  }

  lemma {:induction false} OwnActs<D(!new), V(!new)>(w: Wire<D, V>, a: Reassembly<D, V>, b: Reassembly<D, V>,
                                                     act: Action, id: nat)
    requires Agree(a, b, id) && b.streams.Keys <= {id} && Possible(a, act)
    ensures |OwnPart(act, id)| <= 1
    ensures OwnPart(act, id) == [] ==> Agree(Act(w, a, act), b, id)
    ensures OwnPart(act, id) != [] ==>
              && Possible(b, OwnPart(act, id)[0])
              && Agree(Act(w, a, act), Act(w, b, OwnPart(act, id)[0]), id)
              && Act(w, b, OwnPart(act, id)[0]).streams.Keys <= {id}
  {
    hide ChunkStep, EventsFor, AbandonAll;
    match act
    case Arrives(chunk, now) =>
      if ChunkFor((chunk, now), id) {
        OwnChunk(w, a, b, (chunk, now), id);
        OwnStays(w, b, (chunk, now), id);
      } else {
        OtherChunk(w, a, (chunk, now), id);
      }
    case Sweeps(now, order) => OwnSweep(w, a, b, now, order, id);
  }

  // --- Every stream closes once ------------------------------------------------------------------

  /** The action opens a new stream under `id`. */
  predicate Opens<D(!new), V(!new)>(r: Reassembly<D, V>, act: Action, id: nat) {
    act.Arrives? && ChunkFor((act.chunk, act.now), id) && id !in r.streams
  }

  ghost function Opened<D(!new), V(!new)>(w: Wire<D, V>, r: Reassembly<D, V>, acts: seq<Action>, id: nat): nat
    requires Legal(w, r, acts)
    decreases |acts|
  {
    if acts == [] then 0 else (if Opens(r, acts[0], id) then 1 else 0) + Opened(w, Act(w, r, acts[0]), acts[1..], id)
  }

  /** The event that says stream `id` is over: a complete entry, a bad header, or a timeout. */
  predicate Closes<V>(e: Event<V>, id: nat) {
    For(e, id) && (e.Entry? ==> !e.truncated)
  }

  function Closed<V>(events: seq<Event<V>>, id: nat): nat {
    if events == [] then 0 else Closed(events[..|events| - 1], id) + if Closes(events[|events| - 1], id) then 1 else 0
  }

  lemma {:induction false} ClosedSplit<V>(a: seq<Event<V>>, b: seq<Event<V>>, id: nat)
    ensures Closed(a + b, id) == Closed(a, id) + Closed(b, id)
    decreases |b|
  {
    if b == [] {
      assert a + b == a;
    } else {
      ClosedSplit(a, b[..|b| - 1], id);
      assert (a + b)[..|a + b| - 1] == a + b[..|b| - 1];
    }
  }

  /** The header is either incomplete or was judged, one way or the other. */
  predicate StreamOk<D, V>(st: Stream<D, V>) {
    && |st.metaBuf| <= METADATA_SIZE
    && (|st.metaBuf| < METADATA_SIZE ==> st.metadata.None? && !st.metaFailed)
    && (|st.metaBuf| == METADATA_SIZE ==> (st.metadata.Some? <==> !st.metaFailed))
  }

  ghost predicate AllOk<D(!new), V(!new)>(streams: Streams<D, V>) {
    forall id | id in streams :: StreamOk(streams[id])
  }

  lemma {:induction false} FeedOk<D(!new), V(!new)>(w: Wire<D, V>, st: Stream<D, V>, data: seq<Byte>)
    requires StreamOk(st)
    ensures StreamOk(FeedData(w, st, data).0)
    ensures FeedData(w, st, data).1 ==> |FeedData(w, st, data).0.metaBuf| == METADATA_SIZE
    decreases |data|
  {
    if data != [] && !FeedByte(w, st, data[0]).1 { FeedOk(w, FeedByte(w, st, data[0]).0, data[1..]); }
  }

  lemma {:induction false} FinishCloses<D(!new), V(!new)>(st: Stream<D, V>, id: nat, other: nat)
    requires StreamOk(st) && |st.metaBuf| == METADATA_SIZE
    ensures Closed(Finish(other, st), id) == if id == other then 1 else 0
  {
  }

  lemma {:induction false} AbandonCloses<D(!new), V(!new)>(st: Stream<D, V>, id: nat, other: nat, now: nat)
    ensures Closed(Abandon(other, st, now), id) == if id == other then 1 else 0
  {
    var timeout := Abandon(other, st, now)[..1];
    assert Closed(timeout, id) == if id == other then 1 else 0;
    ClosedSplit(timeout, Abandon(other, st, now)[1..], id);
    assert Abandon(other, st, now) == timeout + Abandon(other, st, now)[1..];
  }

  lemma {:induction false} SweepCloses<D(!new), V(!new)>(streams: Streams<D, V>, now: nat, ids: seq<nat>, id: nat)
    requires forall i | i in ids :: i in streams
    requires forall i, j | 0 <= i < j < |ids| :: ids[i] != ids[j]
    ensures Closed(AbandonAll(streams, now, ids), id) == if id in ids then 1 else 0
    decreases |ids|
  {
    hide Abandon, Closed;
    if ids == [] {
      ClosedNothing<V>(id);
    } else {
      var n := |ids| - 1;
      SweepCloses(streams, now, ids[..n], id);
      ClosedSplit(AbandonAll(streams, now, ids[..n]), Abandon(ids[n], streams[ids[n]], now), id);
      AbandonCloses(streams[ids[n]], id, ids[n], now);
      assert ids == ids[..n] + [ids[n]];
    }
  }

  lemma {:induction false} ClosedNothing<V>(id: nat)
    ensures Closed<V>([], id) == 0
  {
  }

  function Held<D(!new), V(!new)>(r: Reassembly<D, V>, id: nat): nat {
    if id in r.streams then 1 else 0
  }

  lemma {:induction false} ArrivalBalances<D(!new), V(!new)>(
    w: Wire<D, V>, r: Reassembly<D, V>, chunk: seq<Byte>, now: nat, id: nat)
    requires AllOk(r.streams)
    ensures var t := ChunkStep(w, r, chunk, now);
            && AllOk(t.streams)
            && Closed(t.events, id) + Held(t, id) ==
                Closed(r.events, id) + Held(r, id) + if Opens(r, Arrives(chunk, now), id) then 1 else 0
  {
    hide ParseChunk, FeedData, Finish, Closed, StreamOk;
    match ParseChunk(chunk)
    case Ignored =>
    case Reply(bytes) =>
      ClosedSplit(r.events, [IpcReply(bytes)], id);
      ReplyCloses<V>(bytes, id);
    case Fragment(other, data) =>
      var st := if other in r.streams then r.streams[other] else NewStream(w, now);
      var st' := st.(lastActivity := now, bytesSeen := st.bytesSeen + |data|);
      EnteredOk(w, r, other, now, |data|);
      FeedOk(w, st', data);
      if FeedData(w, st', data).1 {
        var fed := FeedData(w, st', data).0;
        ClosedSplit(r.events, Finish(other, fed), id);
        FinishCloses(fed, id, other);
      }
  }

  lemma EnteredOk<D(!new), V(!new)>(w: Wire<D, V>, r: Reassembly<D, V>, id: nat, now: nat, n: nat)
    requires AllOk(r.streams)
    ensures var st := if id in r.streams then r.streams[id] else NewStream(w, now);
            StreamOk(st.(lastActivity := now, bytesSeen := st.bytesSeen + n))
  {
  }

  lemma {:induction false} ReplyCloses<V>(bytes: seq<Byte>, id: nat)
    ensures Closed<V>([IpcReply(bytes)], id) == 0
  {
  }

  lemma {:induction false} ActionBalances<D(!new), V(!new)>(w: Wire<D, V>, r: Reassembly<D, V>, act: Action, id: nat)
    requires AllOk(r.streams) && Possible(r, act)
    ensures var t := Act(w, r, act);
            && AllOk(t.streams)
            && Closed(t.events, id) + Held(t, id) ==
                Closed(r.events, id) + Held(r, id) + if Opens(r, act, id) then 1 else 0
  {
    hide ChunkStep, Closed, AbandonAll;
    match act
    case Arrives(chunk, now) => ArrivalBalances(w, r, chunk, now, id);
    case Sweeps(now, order) =>
      ClosedSplit(r.events, AbandonAll(r.streams, now, order), id);
      SweepCloses(r.streams, now, order, id);
  }

  lemma {:induction false} RunBalances<D(!new), V(!new)>(w: Wire<D, V>, r: Reassembly<D, V>, acts: seq<Action>, id: nat)
    requires AllOk(r.streams) && Legal(w, r, acts)
    ensures var t := Run(w, r, acts);
            Closed(t.events, id) + Held(t, id) == Closed(r.events, id) + Held(r, id) + Opened(w, r, acts, id)
    decreases |acts|
  {
    hide Act, Closed, Held, Opens, Possible, AllOk;
    if acts != [] {
      ActionBalances(w, r, acts[0], id);
      RunBalances(w, Act(w, r, acts[0]), acts[1..], id);
    }
  }

  /** Over any run, every stream ever opened has closed exactly once, or is still open. */
  lemma {:induction false} StreamsConserved<D(!new), V(!new)>(w: Wire<D, V>, acts: seq<Action>, id: nat)
    requires Legal(w, Reassembly(map[], []), acts)
    ensures var t := Run(w, Reassembly(map[], []), acts);
            Closed(t.events, id) + Held(t, id) == Opened(w, Reassembly(map[], []), acts, id)
  {
    RunBalances(w, Reassembly(map[], []), acts, id);
  }
}
