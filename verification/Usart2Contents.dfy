/** What log entries hold: the header and the values that the fragments of a stream spell, however they are cut. */
module Usart2Contents {
  import opened Wrappers
  import opened LittleEndian
  import opened Usart2
  import opened Usart2Theorems

  // --- The header ------------------------------------------------------------------------------

  /** The packed header of a log: level, ticks, source task and its generation, log and species. */
  function HeaderBytes(m: Metadata, generation: nat): (b: seq<Byte>)
    ensures |b| == METADATA_SIZE
  {
    [m.level] + Encode(m.timestamp, 8) + Encode(m.source, 2) + Encode(generation, 2) + Encode(m.logId, 8)
    + Encode(m.species, 8)
  }

  predicate HeaderFits(m: Metadata) {
    m.timestamp < Limit(8) && m.source < Limit(2) && m.logId < Limit(8) && m.species < Limit(8)
  }

  /** The header is read as it was spelled; levels beyond the six are refused. */
  lemma {:induction false} HeaderSpelled(m: Metadata, generation: nat)
    requires HeaderFits(m)
    ensures ParseMetadata(HeaderBytes(m, generation)) == if m.level <= 5 then Some(m) else None
  {
    hide Limit, Encode, Decode;
    var b := HeaderBytes(m, generation);
    assert b[1..9] == Encode(m.timestamp, 8);
    assert b[9..11] == Encode(m.source, 2);
    assert b[13..21] == Encode(m.logId, 8);
    assert b[21..29] == Encode(m.species, 8);
    RoundTrip(m.timestamp, 8);
    RoundTrip(m.source, 2);
    RoundTrip(m.logId, 8);
    RoundTrip(m.species, 8);
  }

  // --- The body --------------------------------------------------------------------------------

  function DecoderAfter<D, V>(w: Wire<D, V>, d: D, body: seq<Byte>): D {
    if body == [] then d else DecoderAfter(w, w.feed(d, body[0]).decoder, body[1..])
  }

  /** The values the decoder completes, in the order of the body. */
  function ValuesOf<D, V>(w: Wire<D, V>, d: D, body: seq<Byte>): seq<V> {
    if body == [] then []
    else
      var f := w.feed(d, body[0]);
      (if f.result.Value? then [f.result.value] else []) + ValuesOf(w, f.decoder, body[1..])
  }

  /** The decoder meets no end of the stream. */
  predicate GoesOn<D(!new), V(!new)>(w: Wire<D, V>, d: D, body: seq<Byte>) {
    body == [] || (!w.feed(d, body[0]).result.EndOfStream? && GoesOn(w, w.feed(d, body[0]).decoder, body[1..]))
  }

  /** The decoder meets the end of the stream at the last byte and not before. */
  predicate EndsAtLast<D(!new), V(!new)>(w: Wire<D, V>, d: D, body: seq<Byte>) {
    && body != []
    && var n := |body| - 1;
       GoesOn(w, d, body[..n]) && w.feed(DecoderAfter(w, d, body[..n]), body[n]).result.EndOfStream?
  }

  lemma {:induction false} BodySnoc<D(!new), V(!new)>(w: Wire<D, V>, d: D, body: seq<Byte>, b: Byte)
    ensures var f := w.feed(DecoderAfter(w, d, body), b);
            && DecoderAfter(w, d, body + [b]) == f.decoder
            && ValuesOf(w, d, body + [b]) == ValuesOf(w, d, body) + (if f.result.Value? then [f.result.value] else [])
            && (GoesOn(w, d, body + [b]) <==> GoesOn(w, d, body) && !f.result.EndOfStream?)
    decreases |body|
  {
    if body == [] {
      assert body + [b] == [b] && [b][1..] == [];
    } else {
      assert (body + [b])[1..] == body[1..] + [b];
      BodySnoc(w, w.feed(d, body[0]).decoder, body[1..], b);
    }
  }

  // --- One stream ------------------------------------------------------------------------------

  function HeaderOf(data: seq<Byte>): Option<Metadata> {
    if |data| < METADATA_SIZE then None else ParseMetadata(data[..METADATA_SIZE])
  }

  function BodyOf(data: seq<Byte>): seq<Byte> {
    if |data| < METADATA_SIZE then [] else data[METADATA_SIZE..]
  }

  /** The stream that has taken in `data`; `count` bytes were announced. */
  function Holding<D, V>(w: Wire<D, V>, data: seq<Byte>, start: nat, last: nat, count: nat): Stream<D, V> {
    Stream(if |data| < METADATA_SIZE then data else data[..METADATA_SIZE], HeaderOf(data),
           |data| >= METADATA_SIZE && HeaderOf(data).None?, DecoderAfter(w, w.start, BodyOf(data)),
           ValuesOf(w, w.start, BodyOf(data)), start, last, count)
  }

  predicate Unfinished<D(!new), V(!new)>(w: Wire<D, V>, data: seq<Byte>) {
    GoesOn(w, w.start, BodyOf(data))
  }

  lemma {:induction false} ByteTaken<D(!new), V(!new)>(w: Wire<D, V>, data: seq<Byte>, b: Byte, start: nat, last: nat,
                                                       count: nat)
    requires Unfinished(w, data)
    ensures var (st, done) := FeedByte(w, Holding(w, data, start, last, count), b);
            st == Holding(w, data + [b], start, last, count) && (done <==> !Unfinished(w, data + [b]))
  {
    hide ParseMetadata, DecoderAfter, ValuesOf, GoesOn;
    var more := data + [b];
    if |data| < METADATA_SIZE {
      assert BodyOf(more) == [];
      assert |more| == METADATA_SIZE ==> more[..METADATA_SIZE] == more;
      NoBody(w, w.start);
    } else {
      assert BodyOf(more) == BodyOf(data) + [b] && more[..METADATA_SIZE] == data[..METADATA_SIZE];
      BodySnoc(w, w.start, BodyOf(data), b);
    }
  }

  lemma {:induction false} NoBody<D(!new), V(!new)>(w: Wire<D, V>, d: D)
    ensures DecoderAfter(w, d, []) == d && ValuesOf(w, d, []) == [] && GoesOn(w, d, [])
  {
  }

  lemma {:induction false} UnfinishedPrefix<D(!new), V(!new)>(w: Wire<D, V>, data: seq<Byte>, more: seq<Byte>)
    requires Unfinished(w, data + more)
    ensures Unfinished(w, data)
    decreases |more|
  {
    hide GoesOn, DecoderAfter, ValuesOf;
    if more == [] {
      assert data + more == data;
    } else {
      var n := |more| - 1;
      var before := data + more[..n];
      assert data + more == before + [more[n]];
      if |before| < METADATA_SIZE {
        NoBody(w, w.start);
      } else {
        assert BodyOf(data + more) == BodyOf(before) + [more[n]];
        BodySnoc(w, w.start, BodyOf(before), more[n]);
      }
      UnfinishedPrefix(w, data, more[..n]);
    }
  }

  /** Data without the end of the stream is taken in. */
  lemma {:induction false} DataTaken<D(!new), V(!new)>(w: Wire<D, V>, seen: seq<Byte>, data: seq<Byte>, start: nat,
                                                       last: nat, count: nat)
    requires Unfinished(w, seen + data)
    ensures FeedData(w, Holding(w, seen, start, last, count), data) ==
            (Holding(w, seen + data, start, last, count), false)
    decreases |data|
  {
    hide FeedByte, Holding, Unfinished;
    if data == [] {
      assert seen + data == seen;
    } else {
      assert seen + data == seen + [data[0]] + data[1..];
      UnfinishedPrefix(w, seen + [data[0]], data[1..]);
      UnfinishedPrefix(w, seen, [data[0]]);
      ByteTaken(w, seen, data[0], start, last, count);
      DataTaken(w, seen + [data[0]], data[1..], start, last, count);
    }
  }

  /** Data up to the end of the stream is taken in, and what follows is ignored. */
  lemma {:induction false} DataEnds<D(!new), V(!new)>(w: Wire<D, V>, seen: seq<Byte>, data: seq<Byte>, extra: seq<Byte>,
                                                      start: nat, last: nat, count: nat)
    requires data != [] && !Unfinished(w, seen + data) && Unfinished(w, seen + data[..|data| - 1])
    ensures FeedData(w, Holding(w, seen, start, last, count), data + extra) ==
            (Holding(w, seen + data, start, last, count), true)
    decreases |data|
  {
    hide FeedByte, Holding, Unfinished;
    var all := data + extra;
    assert all[0] == data[0] && all[1..] == data[1..] + extra;
    if |data| == 1 {
      assert seen + data[..0] == seen && seen + data == seen + [data[0]];
      ByteTaken(w, seen, data[0], start, last, count);
    } else {
      var front := data[..|data| - 1];
      assert seen + front == seen + [data[0]] + front[1..] && front[1..] == data[1..][..|data[1..]| - 1];
      assert seen + data == seen + [data[0]] + data[1..];
      UnfinishedPrefix(w, seen + [data[0]], front[1..]);
      UnfinishedPrefix(w, seen, [data[0]]);
      ByteTaken(w, seen, data[0], start, last, count);
      DataEnds(w, seen + [data[0]], data[1..], extra, start, last, count);
    }
  }

  // --- Fragments -------------------------------------------------------------------------------

  datatype Piece = Piece(data: seq<Byte>, now: nat)

  function Join(pieces: seq<Piece>): seq<Byte> {
    if pieces == [] then [] else Join(pieces[..|pieces| - 1]) + pieces[|pieces| - 1].data
  }

  /** The fragments of one stream arrive one after the other. */
  function Arrive<D, V>(w: Wire<D, V>, r: Reassembly<D, V>, id: nat, pieces: seq<Piece>): Reassembly<D, V> {
    if pieces == [] then r
    else
      var n := |pieces| - 1;
      FragmentStep(w, Arrive(w, r, id, pieces[..n]), id, pieces[n].data, pieces[n].now)
  }

  function LastNow(pieces: seq<Piece>): nat
    requires pieces != []
  {
    pieces[|pieces| - 1].now
  }

  /** Until its end, a stream holds what its fragments spell, however they are cut, and reports nothing. */
  lemma {:induction false} PiecesHeld<D(!new), V(!new)>(w: Wire<D, V>, r: Reassembly<D, V>, id: nat, pieces: seq<Piece>)
    requires id !in r.streams && pieces != [] && Unfinished(w, Join(pieces))
    ensures var data := Join(pieces);
            Arrive(w, r, id, pieces) ==
            r.(streams := r.streams[id := Holding(w, data, pieces[0].now, LastNow(pieces), |data|)])
    decreases |pieces|
  {
    hide Unfinished, FeedData, Finish, HeaderOf, ParseMetadata, DecoderAfter, ValuesOf;
    var n := |pieces| - 1;
    var front, last := pieces[..n], pieces[n];
    var seen := Join(front);
    DataTaken(w, seen, last.data, pieces[0].now, last.now, |seen| + |last.data|);
    if n == 0 {
      assert Arrive(w, r, id, front) == r && seen == [];
      FreshStream(w, last.now);
    } else {
      UnfinishedPrefix(w, seen, last.data);
      PiecesHeld(w, r, id, front);
    }
  }

  lemma {:induction false} FreshStream<D(!new), V(!new)>(w: Wire<D, V>, now: nat)
    ensures NewStream(w, now) == Holding(w, [], now, now, 0) && Unfinished(w, [])
  {
  }

  /** The event a finished stream leaves. */
  function Report<D, V>(w: Wire<D, V>, id: nat, m: Metadata, body: seq<Byte>, start: nat): Event<V> {
    if m.level <= 5 then Entry(id, m, ValuesOf(w, w.start, body), false, start) else MetadataError(id)
  }

  /**
   However a stream is cut into fragments, its end leaves exactly one event: an entry with the metadata its
   header spells and the values of its body in order, stamped with its first fragment, or an error for a bad
   level. Bytes behind the end are ignored.
   */
  lemma {:induction false} EntryArrives<D(!new), V(!new)>(w: Wire<D, V>, r: Reassembly<D, V>, id: nat,
                                                          pieces: seq<Piece>, m: Metadata, generation: nat,
                                                          body: seq<Byte>, extra: seq<Byte>)
    requires id !in r.streams && pieces != [] && HeaderFits(m) && EndsAtLast(w, w.start, body)
    requires Join(pieces) == HeaderBytes(m, generation) + body + extra
    requires |Join(pieces[..|pieces| - 1])| < METADATA_SIZE + |body|
    ensures Arrive(w, r, id, pieces) ==
            Reassembly(r.streams, r.events + [Report(w, id, m, body, pieces[0].now)])
  {
    hide Unfinished, FeedData, HeaderOf, Holding, DecoderAfter, ValuesOf, HeaderBytes, HeaderFits, EndsAtLast, Report,
         Finish, NewStream;
    var n := |pieces| - 1;
    var front, last := pieces[..n], pieces[n];
    var seen, whole := Join(front), HeaderBytes(m, generation) + body;
    var rest := whole[|seen|..];
    CutWhole(seen, last.data, whole, extra);
    WholeEnds(w, m, generation, body);
    UnfinishedPrefix(w, seen, rest[..|rest| - 1]);
    BeforeLast(w, r, id, pieces);
    DataEnds(w, seen, rest, extra, pieces[0].now, last.now, |seen| + |last.data|);
    FinishReports(w, id, m, generation, body, pieces[0].now, last.now, |seen| + |last.data|);
  }

  lemma CutWhole(seen: seq<Byte>, data: seq<Byte>, whole: seq<Byte>, extra: seq<Byte>)
    requires seen + data == whole + extra && |seen| < |whole|
    ensures var rest := whole[|seen|..];
            && rest != [] && seen + rest == whole && data == rest + extra
            && seen + rest[..|rest| - 1] == whole[..|whole| - 1]
  {
    var rest := whole[|seen|..];
    assert (whole + extra)[..|seen|] == whole[..|seen|] && (whole + extra)[|seen|..] == rest + extra;
    assert (seen + data)[..|seen|] == seen && (seen + data)[|seen|..] == data;
  }

  /** The stream as the last fragment finds it. */
  lemma {:induction false} BeforeLast<D(!new), V(!new)>(w: Wire<D, V>, r: Reassembly<D, V>, id: nat, pieces: seq<Piece>)
    requires id !in r.streams && pieces != [] && Unfinished(w, Join(pieces[..|pieces| - 1]))
    ensures var n := |pieces| - 1;
            var t, seen, last := Arrive(w, r, id, pieces[..n]), Join(pieces[..n]), pieces[n];
            var st := if id in t.streams then t.streams[id] else NewStream(w, last.now);
            && t.streams - {id} == r.streams && t.events == r.events
            && st.(lastActivity := last.now, bytesSeen := st.bytesSeen + |last.data|) ==
               Holding(w, seen, pieces[0].now, last.now, |seen| + |last.data|)
  {
    hide Unfinished, HeaderOf, DecoderAfter, ValuesOf, FragmentStep;
    var n := |pieces| - 1;
    if n == 0 {
      FreshStream(w, pieces[0].now);
      assert r.streams - {id} == r.streams;
    } else {
      PiecesHeld(w, r, id, pieces[..n]);
      var seen := Join(pieces[..n]);
      assert r.streams[id := Holding(w, seen, pieces[0].now, pieces[n - 1].now, |seen|)] - {id} == r.streams;
    }
  }

  lemma {:induction false} WholeEnds<D(!new), V(!new)>(w: Wire<D, V>, m: Metadata, generation: nat, body: seq<Byte>)
    requires EndsAtLast(w, w.start, body)
    ensures var whole := HeaderBytes(m, generation) + body;
            !Unfinished(w, whole) && Unfinished(w, whole[..|whole| - 1])
  {
    hide HeaderBytes, GoesOn, DecoderAfter, ValuesOf;
    var whole, n := HeaderBytes(m, generation) + body, |body| - 1;
    assert BodyOf(whole) == body && BodyOf(whole[..|whole| - 1]) == body[..n];
    assert body == body[..n] + [body[n]];
    BodySnoc(w, w.start, body[..n], body[n]);
  }

  lemma {:induction false} FinishReports<D(!new), V(!new)>(w: Wire<D, V>, id: nat, m: Metadata, generation: nat,
                                                           body: seq<Byte>, start: nat, last: nat, count: nat)
    requires HeaderFits(m)
    ensures Finish(id, Holding(w, HeaderBytes(m, generation) + body, start, last, count)) ==
            [Report(w, id, m, body, start)]
  {
    hide HeaderBytes, HeaderFits, ParseMetadata, DecoderAfter, ValuesOf;
    var whole := HeaderBytes(m, generation) + body;
    HeaderSpelled(m, generation);
    assert whole[..METADATA_SIZE] == HeaderBytes(m, generation) && BodyOf(whole) == body;
  }

  /**
   A stream given up on reports the bytes it got and its age, and, where a good header had arrived, an entry
   marked as cut off with the values so far.
   */
  lemma {:induction false} TimeoutReports<D(!new), V(!new)>(w: Wire<D, V>, r: Reassembly<D, V>, id: nat,
                                                            pieces: seq<Piece>, m: Metadata, generation: nat,
                                                            body: seq<Byte>, now: nat)
    requires id !in r.streams && pieces != [] && HeaderFits(m) && GoesOn(w, w.start, body)
    requires Join(pieces) == HeaderBytes(m, generation) + body && pieces[0].now <= now
    ensures var t := Arrive(w, r, id, pieces);
            && id in t.streams && (id in Stale(t.streams, now) <==> now > LastNow(pieces) + 2000)
            && var good, start := m.level <= 5, pieces[0].now;
               Abandon(id, t.streams[id], now) ==
               [StreamTimeout(id, if good then m.logId else 0, METADATA_SIZE + |body|, now - start)]
               + if good then [Entry(id, m, ValuesOf(w, w.start, body), true, start)] else []
  {
    hide HeaderBytes, HeaderFits, ParseMetadata, DecoderAfter, ValuesOf, GoesOn, Arrive;
    var whole := HeaderBytes(m, generation) + body;
    assert whole[..METADATA_SIZE] == HeaderBytes(m, generation) && BodyOf(whole) == body;
    HeaderSpelled(m, generation);
    PiecesHeld(w, r, id, pieces);
  }

  /** Without a whole header only the timeout is reported. */
  lemma {:induction false} EarlyTimeoutReports<D(!new), V(!new)>(w: Wire<D, V>, r: Reassembly<D, V>, id: nat,
                                                                 pieces: seq<Piece>, now: nat)
    requires id !in r.streams && pieces != [] && |Join(pieces)| < METADATA_SIZE && pieces[0].now <= now
    ensures var t := Arrive(w, r, id, pieces);
            && id in t.streams && (id in Stale(t.streams, now) <==> now > LastNow(pieces) + 2000)
            && Abandon(id, t.streams[id], now) == [StreamTimeout(id, 0, |Join(pieces)|, now - pieces[0].now)]
  {
    hide Arrive, DecoderAfter, ValuesOf;
    PiecesHeld(w, r, id, pieces);
  }

  // --- From the wire ---------------------------------------------------------------------------

  /** A fragment as the device sends it. */
  function FragmentBytes(id: nat, data: seq<Byte>): seq<Byte>
    requires 0 < |data| < 256
  {
    [1] + Encode(id, 8) + [|data| as Byte] + data
  }

  /** Chunks are read as they were spelled; bytes behind the announced ones are ignored. */
  lemma {:induction false} ChunkSpelled(id: nat, data: seq<Byte>, extra: seq<Byte>)
    requires id < Limit(8) && 0 < |data| < 256
    ensures ParseChunk(FragmentBytes(id, data) + extra) == Fragment(id, data)
    ensures ParseChunk([2] + data) == Reply(data)
  {
    hide Limit, Encode, Decode;
    var c := FragmentBytes(id, data) + extra;
    assert c[1..9] == Encode(id, 8) && c[9] == |data| as Byte && c[10..10 + |data|] == data;
    RoundTrip(id, 8);
    ByteOfNat(|data|);
    assert ([2 as Byte] + data)[1..] == data;
  }

  predicate PiecesFit(pieces: seq<Piece>) {
    forall p | p in pieces :: 0 < |p.data| < 256
  }

  function ChunksFor(id: nat, pieces: seq<Piece>): seq<(seq<Byte>, nat)>
    requires PiecesFit(pieces)
  {
    seq(|pieces|, i requires 0 <= i < |pieces| =>
      assert pieces[i] in pieces; (FragmentBytes(id, pieces[i].data), pieces[i].now))
  }

  lemma {:induction false} ChunkStepsSnoc<D, V>(w: Wire<D, V>, r: Reassembly<D, V>, chunks: seq<(seq<Byte>, nat)>,
                                                c: (seq<Byte>, nat))
    ensures ChunkSteps(w, r, chunks + [c]) == ChunkStep(w, ChunkSteps(w, r, chunks), c.0, c.1)
    decreases |chunks|
  {
    hide ChunkStep;
    if chunks == [] {
      assert chunks + [c] == [c] && [c][1..] == [];
    } else {
      assert (chunks + [c])[1..] == chunks[1..] + [c];
      ChunkStepsSnoc(w, ChunkStep(w, r, chunks[0].0, chunks[0].1), chunks[1..], c);
    }
  }

  lemma {:induction false} ChunksArrive<D(!new), V(!new)>(w: Wire<D, V>, r: Reassembly<D, V>, id: nat,
                                                          pieces: seq<Piece>)
    requires id < Limit(8) && PiecesFit(pieces)
    ensures ChunkSteps(w, r, ChunksFor(id, pieces)) == Arrive(w, r, id, pieces)
    decreases |pieces|
  {
    hide FragmentStep, ParseChunk, Limit, FragmentBytes, ChunkSteps;
    if pieces == [] {
      NoChunks(w, r);
    } else {
      var n := |pieces| - 1;
      var front, last := pieces[..n], pieces[n];
      assert last in pieces;
      assert ChunksFor(id, pieces) == ChunksFor(id, front) + [(FragmentBytes(id, last.data), last.now)];
      ChunkStepsSnoc(w, r, ChunksFor(id, front), (FragmentBytes(id, last.data), last.now));
      ChunksArrive(w, r, id, front);
      ChunkSpelled(id, last.data, []);
      assert FragmentBytes(id, last.data) + [] == FragmentBytes(id, last.data);
    }
  }

  lemma {:induction false} NoChunks<D, V>(w: Wire<D, V>, r: Reassembly<D, V>)
    ensures ChunkSteps(w, r, []) == r
  {
  }

  /** From the bytes on the line to the entry: a log sent as framed fragments, however cut, is reported once, whole. */
  lemma {:induction false} LogArrives<D(!new), V(!new)>(w: Wire<D, V>, p: Port<D, V>, messages: seq<Sent>, id: nat,
                                                        pieces: seq<Piece>, m: Metadata, generation: nat,
                                                        body: seq<Byte>)
    requires p.cobsBuf == [] && p.chunkStart.None? && (forall m | m in messages :: SentOk(w, m))
    requires id < Limit(8) && id !in p.re.streams && PiecesFit(pieces) && ChunksOf(messages) == ChunksFor(id, pieces)
    requires HeaderFits(m) && EndsAtLast(w, w.start, body) && Join(pieces) == HeaderBytes(m, generation) + body
    ensures pieces != []
    ensures Feed(w, p, OnWire(messages)) ==
            Port([], None, Reassembly(p.re.streams, p.re.events + [Report(w, id, m, body, pieces[0].now)]))
  {
    hide ChunkSteps, ChunksOf, ChunksFor, Limit, HeaderFits, EndsAtLast, HeaderBytes, Feed, OnWire, SentOk, Arrive;
    MessagesArrive(w, p, messages);
    ChunksArrive(w, p.re, id, pieces);
    assert pieces != [];
    assert pieces[|pieces| - 1] in pieces;
    assert HeaderBytes(m, generation) + body + [] == HeaderBytes(m, generation) + body;
    EntryArrives(w, p.re, id, pieces, m, generation, body, []);
  }
}
