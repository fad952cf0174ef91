/**
 The serial log reader: zero-delimited chunks, and log streams reassembled from fragments that
 arrive interleaved. The COBS and value decoders are parameters.
 */
module Usart2 {
  import opened Wrappers
  import opened LittleEndian
  import opened Listing

  const METADATA_SIZE: nat := 29
  const TYPE_LOG_FRAGMENT: Byte := 1
  const TYPE_IPC_REPLY: Byte := 2
  const COBS_LIMIT: nat := 300
  const STREAM_TIMEOUT_MS: nat := 2000

  datatype FeedResult<V> = Value(value: V) | EndOfStream | Incomplete

  datatype Fed<D, V> = Fed(decoder: D, result: FeedResult<V>)

  /** The foreign decoders. A decoding error inside a stream is treated like an incomplete value. */
  datatype Wire<!D, !V> = Wire(cobs: seq<Byte> -> Option<seq<Byte>>, start: D, feed: (D, Byte) -> Fed<D, V>)

  datatype Metadata = Metadata(level: Byte, timestamp: nat, source: nat, logId: nat, species: nat)

  /** Packed fields behind a level byte, which must be one of the six levels. */
  function ParseMetadata(b: seq<Byte>): Option<Metadata>
    requires |b| == METADATA_SIZE
  {
    if b[0] > 5 then None else Some(Metadata(b[0], Read(b, 1, 8), Read(b, 9, 2), Read(b, 13, 8), Read(b, 21, 8)))
  }

  datatype Stream<D, V> = Stream(
    metaBuf: seq<Byte>,
    metadata: Option<Metadata>,
    metaFailed: bool,
    decoder: D,
    values: seq<V>,
    start: nat,
    lastActivity: nat,
    bytesSeen: nat)

  type Streams<D, V> = map<nat, Stream<D, V>>

  /** Events carry the stream they belong to, if any. */
  datatype Event<V> =
    | Entry(id: nat, metadata: Metadata, values: seq<V>, truncated: bool, start: nat)
    | MetadataError(id: nat)
    | StreamTimeout(id: nat, logId: nat, bytesDecoded: nat, ageMs: nat)
    | IpcReply(bytes: seq<Byte>)
    | CobsError(bytes: seq<Byte>)
    | CobsOverflow(bytes: seq<Byte>)

  // --- One stream ------------------------------------------------------------------------------

  function NewStream<D, V>(w: Wire<D, V>, now: nat): Stream<D, V> {
    Stream([], None, false, w.start, [], now, now, 0)
  }

  /** One byte: header first, then values; `true` at the end of the stream. */
  function FeedByte<D, V>(w: Wire<D, V>, st: Stream<D, V>, b: Byte): (Stream<D, V>, bool) {
    if |st.metaBuf| < METADATA_SIZE then
      var buf := st.metaBuf + [b];
      if |buf| < METADATA_SIZE then (st.(metaBuf := buf), false)
      else
        var m := ParseMetadata(buf);
        (st.(metaBuf := buf, metadata := m, metaFailed := m.None?), false)
    else
      var f := w.feed(st.decoder, b);
      var st' := st.(decoder := f.decoder);
      match f.result
      case Value(v) => (st'.(values := st.values + [v]), false)
      case EndOfStream => (st', true)
      case Incomplete => (st', false)
  }

  /** Bytes behind the end of the stream are ignored. */
  function FeedData<D, V>(w: Wire<D, V>, st: Stream<D, V>, data: seq<Byte>): (Stream<D, V>, bool)
    decreases |data|
  {
    if data == [] then (st, false)
    else
      var (st', done) := FeedByte(w, st, data[0]);
      if done then (st', true) else FeedData(w, st', data[1..])
  }

  /** What a finished stream reports. */
  function Finish<D, V>(id: nat, st: Stream<D, V>): seq<Event<V>> {
    if st.metaFailed then [MetadataError(id)]
    else if st.metadata.Some? then [Entry(id, st.metadata.value, st.values, false, st.start)]
    else []
  }

  /** What an abandoned stream reports: the timeout, and what was decoded so far if the header arrived. */
  function Abandon<D, V>(id: nat, st: Stream<D, V>, now: nat): seq<Event<V>> {
    var logId := if st.metadata.Some? then st.metadata.value.logId else 0;
    [StreamTimeout(id, logId, st.bytesSeen, if now < st.start then 0 else now - st.start)]
    + if st.metadata.Some? then [Entry(id, st.metadata.value, st.values, true, st.start)] else []
  }

  // --- Chunks ----------------------------------------------------------------------------------

  datatype Chunk = Ignored | Reply(bytes: seq<Byte>) | Fragment(id: nat, data: seq<Byte>)

  function ParseChunk(c: seq<Byte>): Chunk {
    if c == [] then Ignored
    else if c[0] == TYPE_IPC_REPLY then Reply(c[1..])
    else if c[0] != TYPE_LOG_FRAGMENT || |c| < 10 then Ignored
    else
      var length := c[9] as nat;
      if length == 0 || |c| < 10 + length then Ignored else Fragment(Read(c, 1, 8), c[10..10 + length])
  }

  datatype Reassembly<D, V> = Reassembly(streams: Streams<D, V>, events: seq<Event<V>>)

  function FragmentStep<D, V>(w: Wire<D, V>, r: Reassembly<D, V>, id: nat, data: seq<Byte>,
                              now: nat): Reassembly<D, V> {
    var st := if id in r.streams then r.streams[id] else NewStream(w, now);
    var (fed, done) := FeedData(w, st.(lastActivity := now, bytesSeen := st.bytesSeen + |data|), data);
    if done then Reassembly(r.streams - {id}, r.events + Finish(id, fed)) else r.(streams := r.streams[id := fed])
  }

  function ChunkStep<D, V>(w: Wire<D, V>, r: Reassembly<D, V>, chunk: seq<Byte>, now: nat): Reassembly<D, V> {
    match ParseChunk(chunk)
    case Ignored => r
    case Reply(bytes) => r.(events := r.events + [IpcReply(bytes)])
    case Fragment(id, data) => FragmentStep(w, r, id, data, now)
  }

  // --- Timeouts --------------------------------------------------------------------------------

  function Stale<D(!new), V(!new)>(streams: Streams<D, V>, now: nat): set<nat> {
    set id | id in streams && now > streams[id].lastActivity + STREAM_TIMEOUT_MS
  }

  function AbandonAll<D, V>(streams: Streams<D, V>, now: nat, ids: seq<nat>): seq<Event<V>>
    requires forall id | id in ids :: id in streams
  {
    if ids == [] then []
    else
      var last := ids[|ids| - 1];
      AbandonAll(streams, now, ids[..|ids| - 1]) + Abandon(last, streams[last], now)
  }

  // --- Bytes -----------------------------------------------------------------------------------

  /** A byte and the time it was handled. */
  datatype Tick = Tick(byte: Byte, now: nat)

  datatype Port<D, V> = Port(cobsBuf: seq<Byte>, chunkStart: Option<nat>, re: Reassembly<D, V>)

  function DeliverChunk<D, V>(w: Wire<D, V>, re: Reassembly<D, V>, encoded: seq<Byte>, now: nat): Reassembly<D, V> {
    match w.cobs(encoded)
    case Some(chunk) => ChunkStep(w, re, chunk, now)
    case None => re.(events := re.events + [CobsError(encoded)])
  }

  function ByteStep<D, V>(w: Wire<D, V>, p: Port<D, V>, t: Tick): Port<D, V> {
    if t.byte == 0 then
      if p.cobsBuf == [] then p.(chunkStart := None)
      else Port([], None, DeliverChunk(w, p.re, p.cobsBuf, p.chunkStart.GetOr(t.now)))
    else
      var buf := p.cobsBuf + [t.byte];
      if |buf| > COBS_LIMIT then Port([], None, p.re.(events := p.re.events + [CobsOverflow(buf)]))
      else Port(buf, if p.cobsBuf == [] then Some(t.now) else p.chunkStart, p.re)
  }

  function Feed<D, V>(w: Wire<D, V>, p: Port<D, V>, ticks: seq<Tick>): Port<D, V>
    decreases |ticks|
  {
    if ticks == [] then p else Feed(w, ByteStep(w, p, ticks[0]), ticks[1..])
  }

  /** How bytes are split across reads does not matter. */
  lemma {:induction false} FeedSplit<D, V>(w: Wire<D, V>, p: Port<D, V>, a: seq<Tick>, b: seq<Tick>)
    ensures Feed(w, p, a + b) == Feed(w, Feed(w, p, a), b)
    decreases |a|
  {
    hide ByteStep;
    if a == [] {
      assert a + b == b;
    } else {
      assert (a + b)[1..] == a[1..] + b;
      FeedSplit(w, ByteStep(w, p, a[0]), a[1..], b);
    }
  }

  // --- The reader ------------------------------------------------------------------------------

  class Reader<D(!new), V(!new)> {
    const wire: Wire<D, V>
    var cobsBuf: seq<Byte>
    var chunkStart: Option<nat>
    var streams: Streams<D, V>
    var events: seq<Event<V>>

    constructor (wire: Wire<D, V>)
      ensures this.wire == wire && Abs() == Port([], None, Reassembly(map[], []))
    {
      this.wire := wire;
      cobsBuf, chunkStart, streams, events := [], None, map[], [];
    }

    function Abs(): Port<D, V>
      reads this
    {
      Port(cobsBuf, chunkStart, Reassembly(streams, events))
    }

    method FeedFragment(id: nat, data: seq<Byte>, now: nat)
      modifies `streams, `events
      ensures Abs().re == FragmentStep(wire, old(Abs().re), id, data, now)
    {
      hide FeedByte, Finish;
      var stream := if id in streams then streams[id] else NewStream(wire, now);
      stream := stream.(lastActivity := now, bytesSeen := stream.bytesSeen + |data|);
      ghost var entered := stream;
      for i := 0 to |data|
        invariant FeedData(wire, entered, data) == FeedData(wire, stream, data[i..])
        invariant streams == old(streams) && events == old(events)
      {
        assert data[i..][1..] == data[i + 1..];
        var (fed, done) := FeedByte(wire, stream, data[i]);
        stream := fed;
        if done {
          streams := streams - {id};
          events := events + Finish(id, stream);
          return;
        }
      }
      streams := streams[id := stream];
    }

    method ProcessChunk(chunk: seq<Byte>, now: nat)
      modifies `streams, `events
      ensures Abs().re == ChunkStep(wire, old(Abs().re), chunk, now)
    {
      hide FragmentStep, Read;
      if |chunk| == 0 { return; }
      if chunk[0] == TYPE_IPC_REPLY {
        events := events + [IpcReply(chunk[1..])];
        return;
      }
      if chunk[0] != TYPE_LOG_FRAGMENT || |chunk| < 10 { return; }
      var length := chunk[9] as nat;
      if length == 0 || |chunk| < 10 + length { return; }
      FeedFragment(Read(chunk, 1, 8), chunk[10..10 + length], now);
    }

    /** Evicts idle streams, in map order. */
    method Sweep(now: nat) returns (ghost order: seq<nat>)
      modifies `streams, `events
      ensures Lists(order, Stale(old(streams), now)) && streams == old(streams) - Stale(old(streams), now)
      ensures (forall id | id in order :: id in old(streams))
              && events == old(events) + AbandonAll(old(streams), now, order)
    {
      hide Abandon;
      var todo := Stale(streams, now);
      ghost var stale := todo;
      order := [];
      while todo != {}
        invariant todo <= stale && streams == old(streams) - (stale - todo)
        invariant Lists(order, stale - todo) && forall id | id in order :: id in old(streams)
        invariant events == old(events) + AbandonAll(old(streams), now, order)
      {
        var id :| id in todo;
        ListsSnoc(order, stale - todo, id);
        assert stale - (todo - {id}) == stale - todo + {id};
        assert (order + [id])[..|order|] == order;
        events := events + Abandon(id, streams[id], now);
        streams := streams - {id};
        todo := todo - {id};
        order := order + [id];
      }
    }

    method ReadBytes(ticks: seq<Tick>)
      modifies this
      ensures Abs() == Feed(wire, old(Abs()), ticks)
    {
      for i := 0 to |ticks|
        invariant Feed(wire, old(Abs()), ticks) == Feed(wire, Abs(), ticks[i..])
      {
        hide ChunkStep, ParseChunk, FragmentStep;
        assert ticks[i..][1..] == ticks[i + 1..];
        var t := ticks[i];
        if t.byte == 0 {
          if cobsBuf != [] {
            var started := chunkStart.GetOr(t.now);
            var decoded := wire.cobs(cobsBuf);
            if decoded.Some? {
              ProcessChunk(decoded.value, started);
            } else {
              events := events + [CobsError(cobsBuf)];
            }
            cobsBuf := [];
          }
          chunkStart := None;
        } else {
          if cobsBuf == [] {
            chunkStart := Some(t.now);
          }
          cobsBuf := cobsBuf + [t.byte];
          if |cobsBuf| > COBS_LIMIT {
            events := events + [CobsOverflow(cobsBuf)];
            cobsBuf := [];
            chunkStart := None;
          }
        }
      }
    }
  }
}
