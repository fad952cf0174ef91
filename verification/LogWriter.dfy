/** The firmware's buffering log writer: one message in a 128-byte buffer, or streamed in pieces. */
module LogWriter {
  import opened Wrappers
  import LittleEndian

  type Byte = LittleEndian.Byte

  const BUF_SIZE: nat := 128

  /** What the writer asks of the log server. */
  datatype ServerCall =
    | Send(level: Byte, species: nat, data: seq<Byte>)
    | Start(level: Byte, species: nat)
    | Write(handle: nat, data: seq<Byte>)
    | End(handle: nat)

  datatype Session = Buffered | Active(handle: nat) | Rejected

  // --- Specification ---------------------------------------------------------------------------

  function Concat(parts: seq<seq<Byte>>): seq<Byte> {
    if parts == [] then [] else parts[0] + Concat(parts[1..])
  }

  /** `data` cut into buffer-sized pieces, the last one possibly shorter. */
  function Pieces(data: seq<Byte>): (r: seq<seq<Byte>>)
    ensures r != []
    decreases |data|
  {
    if |data| <= BUF_SIZE then [data] else [data[..BUF_SIZE]] + Pieces(data[BUF_SIZE..])
  }

  function Writes(handle: nat, pieces: seq<seq<Byte>>): (r: seq<ServerCall>)
    ensures |r| == |pieces|
  {
    seq(|pieces|, i requires 0 <= i < |pieces| => Write(handle, pieces[i]))
  }

  /** All calls one message makes: it depends on the bytes and the server's answer only. */
  function Conversation(level: Byte, species: nat, data: seq<Byte>, grant: Option<nat>): seq<ServerCall> {
    if |data| <= BUF_SIZE then [Send(level, species, data)]
    else if grant.None? then [Start(level, species)]
    else [Start(level, species)] + Writes(grant.value, Pieces(data)) + [End(grant.value)]
  }

  /** The pieces carry the input, all but the last are full, and there are as few as possible. */
  lemma {:induction false} PiecesTile(data: seq<Byte>)
    ensures Concat(Pieces(data)) == data
    ensures forall i | 0 <= i < |Pieces(data)| - 1 :: |Pieces(data)[i]| == 128
    ensures |Pieces(data)[|Pieces(data)| - 1]| <= 128
    ensures data != [] ==> |Pieces(data)| == (|data| + 127) / 128
    decreases |data|
  {
    if |data| > BUF_SIZE {
      var rest := data[BUF_SIZE..];
      PiecesTile(rest);
      assert Pieces(data)[1..] == Pieces(rest);
      assert data == data[..BUF_SIZE] + rest;
      assert (|data| + BUF_SIZE - 1) / BUF_SIZE == 1 + (|rest| + BUF_SIZE - 1) / BUF_SIZE;
    } else {
      assert Concat([data]) == data + Concat([]) == data;
    }
  }

  lemma {:induction false} ConcatSnoc(parts: seq<seq<Byte>>, last: seq<Byte>)
    ensures Concat(parts + [last]) == Concat(parts) + last
  {
    if parts == [] {
      assert Concat([last]) == last + Concat([]);
    } else {
      ConcatSnoc(parts[1..], last);
      assert (parts + [last])[1..] == parts[1..] + [last];
    }
  }

  predicate Full(parts: seq<seq<Byte>>) {
    forall i | 0 <= i < |parts| :: |parts[i]| == BUF_SIZE
  }

  /** Full pieces followed by a non-empty last one are the only way to cut. */
  lemma {:induction false} PiecesUnique(parts: seq<seq<Byte>>, last: seq<Byte>)
    requires Full(parts) && 0 < |last| <= BUF_SIZE
    ensures Pieces(Concat(parts) + last) == parts + [last]
  {
    var data := Concat(parts) + last;
    if parts != [] {
      var tail := Concat(parts[1..]) + last;
      PiecesUnique(parts[1..], last);
      assert data == parts[0] + tail;
      assert data[..BUF_SIZE] == parts[0] && data[BUF_SIZE..] == tail;
      assert parts + [last] == [parts[0]] + (parts[1..] + [last]);
    } else {
      assert data == last;
    }
  }

  lemma {:induction false} ConcatLength(parts: seq<seq<Byte>>)
    requires Full(parts) && parts != []
    ensures |Concat(parts)| >= BUF_SIZE
  {
  }

  lemma Shift(front: seq<Byte>, bytes: seq<Byte>, i: nat, j: nat)
    requires i <= j <= |bytes|
    ensures front + bytes[i..] == (front + bytes[i..j]) + bytes[j..]
    ensures j == i + 1 ==> front + bytes[i..] == (front + [bytes[i]]) + bytes[j..]
  {
    assert bytes[i..] == bytes[i..j] + bytes[j..];
    assert j == i + 1 ==> bytes[i..j] == [bytes[i]];
  }

  // --- The writer ------------------------------------------------------------------------------

  class LogWriter {
    const level: Byte
    const species: nat
    /** The server's answer to a streaming request. */
    const grant: Option<nat>
    const buf: array<Byte>
    var pos: nat
    var session: Session
    var calls: seq<ServerCall>
    ghost var input: seq<Byte>
    ghost var written: seq<seq<Byte>>

    constructor (level: Byte, species: nat, grant: Option<nat>, buf: array<Byte>)
      requires buf.Length == BUF_SIZE
      ensures Valid() && input == [] && session == Buffered
      ensures this.level == level && this.species == species && this.grant == grant && this.buf == buf
    {
      this.level, this.species, this.grant, this.buf := level, species, grant, buf;
      pos, session, calls, input, written := 0, Buffered, [], [], [];
    }

    /** Between a flush and the next byte the buffer may be empty; otherwise it holds the unsent tail. */
    ghost predicate Streaming()
      reads this, buf
    {
      && buf.Length == BUF_SIZE && pos <= BUF_SIZE
      && match session
         case Buffered => calls == [] && written == [] && input == buf[..pos]
         case Rejected => calls == [Start(level, species)] && |input| > BUF_SIZE && grant.None?
         case Active(h) =>
           && grant == Some(h) && calls == [Start(level, species)] + Writes(h, written)
           && written != [] && Full(written) && input == Concat(written) + buf[..pos]
    }

    ghost predicate Valid()
      reads this, buf
    {
      Streaming() && pos <= BUF_SIZE && (session.Active? ==> pos > 0)
    }

    /** Sends the buffer on, opening the session first if there is none. */
    method FlushBuf()
      requires buf.Length == BUF_SIZE && pos <= BUF_SIZE
      modifies `pos, `session, `calls
      ensures pos == 0
      ensures old(pos) == 0 || old(session).Rejected? ==> calls == old(calls) && session == old(session)
      ensures old(pos) > 0 && old(session).Active? ==>
                session == old(session) && calls == old(calls) + [Write(session.handle, buf[..old(pos)])]
      ensures old(pos) > 0 && old(session).Buffered? ==>
                if grant.None? then session == Rejected && calls == old(calls) + [Start(level, species)]
                else
                  && session == Active(grant.value)
                  && calls == old(calls) + [Start(level, species), Write(grant.value, buf[..old(pos)])]
    {
      if pos == 0 { return; }
      var handle;
      match session {
        case Active(h) => handle := h;
        case Rejected =>
          pos := 0;
          return;
        case Buffered =>
          calls := calls + [Start(level, species)];
          match grant {
            case Some(h) =>
              session := Active(h);
              handle := h;
            case None =>
              session := Rejected;
              pos := 0;
              return;
          }
      }
      calls := calls + [Write(handle, buf[..pos])];
      pos := 0;
    }

    method Fill(bytes: seq<Byte>)
      requires Streaming() && !session.Rejected? && pos + |bytes| <= BUF_SIZE
      modifies `pos, `input, buf
      ensures Streaming() && pos == old(pos) + |bytes| && input == old(input) + bytes
    {
      ghost var before := buf[..pos];
      forall i | 0 <= i < |bytes| {
        buf[pos + i] := bytes[i];
      }
      pos := pos + |bytes|;
      input := input + bytes;
      assert buf[..pos] == before + bytes;
      assert session.Active? ==> Concat(written) + (before + bytes) == Concat(written) + before + bytes;
    }

    /** The full buffer goes out, because `ahead` has no room. */
    method FlushFull(ghost ahead: Byte)
      requires Streaming() && pos == BUF_SIZE && !session.Rejected?
      modifies `pos, `session, `calls, `input, `written
      ensures Streaming() && pos == 0 && !session.Buffered?
      ensures input == if session.Rejected? then old(input) + [ahead] else old(input)
    {
      ghost var full := buf[..pos];
      FlushBuf();
      if session.Rejected? {
        input := input + [ahead];
      } else {
        ConcatSnoc(written, full);
        assert Writes(session.handle, written + [full]) ==
            Writes(session.handle, written) + [Write(session.handle, full)];
        written := written + [full];
        assert input == Concat(written) + buf[..pos];
      }
    }

    /** What a refused message still gets is accepted and forgotten. */
    ghost method Discard(bytes: seq<Byte>)
      requires Streaming() && session.Rejected?
      modifies `input
      ensures Valid() && input == old(input) + bytes
    {
      input := input + bytes;
    }

    /** Bytes may arrive in any portions: the message is their concatenation. */
    method WriteBytes(bytes: seq<Byte>)
      requires Valid()
      modifies this, buf
      ensures Valid() && input == old(input) + bytes
    {
      hide Streaming;
      if session.Rejected? {
        Discard(bytes);
        return;
      }
      ghost var goal := input + bytes;
      var offset := 0;
      while offset < |bytes|
        invariant 0 <= offset <= |bytes| && Streaming() && !session.Rejected? && pos <= BUF_SIZE
        invariant input + bytes[offset..] == goal
        invariant session.Active? && pos == 0 ==> offset < |bytes|
        decreases |bytes| - offset, pos
      {
        var room := BUF_SIZE - pos;
        var chunk := |bytes| - offset;
        Shift(input, bytes, offset, offset + if chunk <= room then chunk else room);
        if chunk <= room {
          Fill(bytes[offset..offset + chunk]);
          offset := offset + chunk;
        } else {
          Fill(bytes[offset..offset + room]);
          Shift(input, bytes, offset + room, offset + room + 1);
          FlushFull(bytes[offset + room]);
          offset := offset + room;
          if session.Rejected? {
            Discard(bytes[offset + 1..]);
            return;
          }
        }
      }
    }

    /** Closing the message completes exactly the conversation its bytes call for. */
    method Drop()
      requires Valid()
      modifies this
      ensures calls == Conversation(level, species, input, grant) && input == old(input)
    {
      match session {
        case Rejected =>
        case Active(h) =>
          ghost var tail := buf[..pos];
          PiecesUnique(written, tail);
          ConcatLength(written);
          assert Writes(h, written + [tail]) == Writes(h, written) + [Write(h, tail)];
          if pos > 0 {
            FlushBuf();
          }
          calls := calls + [End(h)];
        case Buffered =>
          calls := calls + [Send(level, species, buf[..pos])];
      }
    }
  }

  /** However a message is split into writes, the server sees one conversation. */
  method LogMessage(level: Byte, species: nat, grant: Option<nat>, buf: array<Byte>, parts: seq<seq<Byte>>)
    returns (calls: seq<ServerCall>)
    requires buf.Length == BUF_SIZE
    modifies buf
    ensures calls == Conversation(level, species, Concat(parts), grant)
  {
    var w := new LogWriter(level, species, grant, buf);
    for i := 0 to |parts|
      invariant w.Valid() && w.input == Concat(parts[..i]) && fresh(w)
      invariant w.buf == buf && w.level == level && w.species == species && w.grant == grant
    {
      ConcatSnoc(parts[..i], parts[i]);
      assert parts[..i + 1] == parts[..i] + [parts[i]];
      w.WriteBytes(parts[i]);
    }
    assert parts[..|parts|] == parts;
    w.Drop();
    calls := w.calls;
  }
}
