/**
 The parser of the emulator's telnet monitor: one byte at a time, from a command's echo to the next
 prompt. How a line is cleaned before it is compared with the command is a parameter.
 */
module Monitor {
  import opened Wrappers
  import LittleEndian

  type Byte = LittleEndian.Byte

  const IAC: Byte := 0xFF
  const ESC: Byte := 0x1B
  const LF: Byte := 0x0A
  const CR: Byte := 0x0D

  type Line = seq<Byte>

  datatype Phase = Banner | Idle | AwaitEcho(command: Line) | AwaitPrompt | Closed

  datatype State = State(phase: Phase, response: seq<Line>, partial: Line, iacSkip: nat, inAnsi: bool, prompt: Line) {
    /** Between sequences: not inside a telnet command or an escape. */
    predicate AtRest() {
      iacSkip == 0 && !inAnsi
    }
  }

  predicate IsLetter(b: Byte) {
    0x41 <= b <= 0x5A || 0x61 <= b <= 0x7A
  }

  /** The letters of ASCII, of either case: bit 5 set, they are `a` to `z`. */
  lemma LettersAre(b: Byte)
    ensures IsLetter(b) <==> 0x61 <= b | 0x20 <= 0x7A
  {
  }

  /** The unfinished line is the prompt, perhaps behind a carriage return. */
  predicate AtPrompt(partial: Line, prompt: Line) {
    (if partial != [] && partial[0] == CR then partial[1..] else partial) == prompt
  }

  // --- Specification of one byte -----------------------------------------------------------------

  function DataStep(clean: Line -> Line, s: State, b: Byte): State {
    match s.phase
    case Banner =>
      if b == LF then s.(partial := []) else PushOrPrompt(s, b)
    case AwaitEcho(command) =>
      if b == LF then s.(partial := [], phase := if clean(s.partial) == command then AwaitPrompt else s.phase)
      else s.(partial := s.partial + [b])
    case AwaitPrompt =>
      if b == LF then s.(response := s.response + [s.partial], partial := []) else PushOrPrompt(s, b)
    case Idle => if b == LF then s.(partial := []) else s
    case Closed => s
  }

  function PushOrPrompt(s: State, b: Byte): State {
    var partial := s.partial + [b];
    if AtPrompt(partial, s.prompt) then s.(partial := [], phase := Idle) else s.(partial := partial)
  }

  function Step(clean: Line -> Line, s: State, b: Byte): State {
    if s.iacSkip > 0 then s.(iacSkip := s.iacSkip - 1)
    else if b == IAC then s.(iacSkip := 2)
    else if b == ESC then s.(inAnsi := true)
    else if s.inAnsi then s.(inAnsi := !IsLetter(b))
    else DataStep(clean, s, b)
  }

  function Feed(clean: Line -> Line, s: State, bytes: seq<Byte>): State
    decreases |bytes|
  {
    if bytes == [] then s else Feed(clean, Step(clean, s, bytes[0]), bytes[1..])
  }

  lemma {:induction false} FeedSplit(clean: Line -> Line, s: State, a: seq<Byte>, b: seq<Byte>)
    ensures Feed(clean, s, a + b) == Feed(clean, Feed(clean, s, a), b)
    decreases |a|
  {
    hide Step;
    if a == [] {
      assert a + b == b;
    } else {
      assert (a + b)[1..] == a[1..] + b;
      FeedSplit(clean, Step(clean, s, a[0]), a[1..], b);
    }
  }

  /** Sending a command: forget the last response, expect the echo, perhaps under a new prompt. */
  function Begin(s: State, command: Line, newPrompt: Option<Line>): State {
    s.(response := [], prompt := newPrompt.GetOr(s.prompt), phase := AwaitEcho(command))
  }

  // --- The parser --------------------------------------------------------------------------------

  class Inner {
    const clean: Line -> Line
    var phase: Phase
    var response: seq<Line>
    var partial: Line
    var iacSkip: nat
    var inAnsi: bool
    var prompt: Line

    constructor (clean: Line -> Line, prompt: Line)
      ensures this.clean == clean && Abs() == State(Banner, [], [], 0, false, prompt)
    {
      this.clean := clean;
      phase, response, partial, iacSkip, inAnsi := Banner, [], [], 0, false;
      this.prompt := prompt;
    }

    function Abs(): State
      reads this
    {
      State(phase, response, partial, iacSkip, inAnsi, prompt)
    }

    method FeedByte(b: Byte)
      modifies this
      ensures Abs() == Step(clean, old(Abs()), b)
    {
      if iacSkip > 0 {
        iacSkip := iacSkip - 1;
        return;
      }
      if b == IAC {
        iacSkip := 2;
        return;
      }
      if b == ESC {
        inAnsi := true;
        return;
      }
      if inAnsi {
        if IsLetter(b) { inAnsi := false; }
        return;
      }
      match phase {
        case Banner =>
          if b == LF {
            partial := [];
          } else {
            partial := partial + [b];
            if AtPrompt(partial, prompt) { partial, phase := [], Idle; }
          }
        case AwaitEcho(command) =>
          if b == LF {
            var line := clean(partial);
            partial := [];
            if line == command { phase := AwaitPrompt; }
          } else {
            partial := partial + [b];
          }
        case AwaitPrompt =>
          if b == LF {
            response := response + [partial];
            partial := [];
          } else {
            partial := partial + [b];
            if AtPrompt(partial, prompt) { partial, phase := [], Idle; }
          }
        case Idle =>
          if b == LF { partial := []; }
        case Closed =>
      }
    }

    /** One read of the reader thread. */
    method FeedBytes(bytes: seq<Byte>)
      modifies this
      ensures Abs() == Feed(clean, old(Abs()), bytes)
    {
      for i := 0 to |bytes|
        invariant Feed(clean, old(Abs()), bytes) == Feed(clean, Abs(), bytes[i..])
      {
        hide Step;
        assert bytes[i..][1..] == bytes[i + 1..];
        FeedByte(bytes[i]);
      }
    }

    method BeginCommand(command: Line, newPrompt: Option<Line>)
      requires phase.Idle?
      modifies this
      ensures Abs() == Begin(old(Abs()), command, newPrompt)
    {
      response := [];
      if newPrompt.Some? { prompt := newPrompt.value; }
      phase := AwaitEcho(command);
    }
  }

  // --- Which bytes reach the phases ----------------------------------------------------------------

  /** Where the parser is among telnet commands and escapes. */
  datatype Control = Control(skip: nat, ansi: bool)

  const REST := Control(0, false)
  const OPEN := Control(0, true)

  function ControlOf(s: State): Control {
    Control(s.iacSkip, s.inAnsi)
  }

  function Under(s: State, c: Control): State {
    s.(iacSkip := c.skip, inAnsi := c.ansi)
  }

  function ControlStep(c: Control, b: Byte): Control {
    if c.skip > 0 then c.(skip := c.skip - 1)
    else if b == IAC then c.(skip := 2)
    else if b == ESC then c.(ansi := true)
    else if c.ansi then c.(ansi := !IsLetter(b))
    else c
  }

  predicate IsData(c: Control, b: Byte) {
    c == REST && b != IAC && b != ESC
  }

  /** The control state behind the bytes. */
  function After(c: Control, bytes: seq<Byte>): Control
    decreases |bytes|
  {
    if bytes == [] then c else After(ControlStep(c, bytes[0]), bytes[1..])
  }

  /** The bytes that get to a phase. */
  function Reaching(c: Control, bytes: seq<Byte>): seq<Byte>
    decreases |bytes|
  {
    if bytes == [] then []
    else (if IsData(c, bytes[0]) then [bytes[0]] else []) + Reaching(ControlStep(c, bytes[0]), bytes[1..])
  }

  function DataFeed(clean: Line -> Line, s: State, data: seq<Byte>): State
    decreases |data|
  {
    if data == [] then s else DataFeed(clean, DataStep(clean, s, data[0]), data[1..])
  }

  lemma StepIs(clean: Line -> Line, s: State, b: Byte)
    ensures var t := if IsData(ControlOf(s), b) then DataStep(clean, s, b) else s;
            Step(clean, s, b) == Under(t, ControlStep(ControlOf(s), b))
    ensures ControlOf(Step(clean, s, b)) == ControlStep(ControlOf(s), b)
  {
  }

  lemma DataStepUnder(clean: Line -> Line, s: State, c: Control, b: Byte)
    ensures DataStep(clean, Under(s, c), b) == Under(DataStep(clean, s, b), c)
  {
  }

  lemma {:induction false} DataFeedUnder(clean: Line -> Line, s: State, c: Control, data: seq<Byte>)
    ensures DataFeed(clean, Under(s, c), data) == Under(DataFeed(clean, s, data), c)
    decreases |data|
  {
    hide DataStep, Under;
    if data != [] {
      DataStepUnder(clean, s, c, data[0]);
      DataFeedUnder(clean, DataStep(clean, s, data[0]), c, data[1..]);
    }
  }

  /** Whatever the bytes: the phases see the bytes that reach them, and control moves on independently of them. */
  lemma {:induction false} FeedIs(clean: Line -> Line, s: State, bytes: seq<Byte>)
    ensures var c := ControlOf(s);
            Feed(clean, s, bytes) == Under(DataFeed(clean, s, Reaching(c, bytes)), After(c, bytes))
    decreases |bytes|
  {
    hide DataStep, Step, ControlStep;
    if bytes != [] {
      var c, b := ControlOf(s), bytes[0];
      var data := Reaching(ControlStep(c, b), bytes[1..]);
      var t := if IsData(c, b) then DataStep(clean, s, b) else s;
      StepIs(clean, s, b);
      FeedIs(clean, Step(clean, s, b), bytes[1..]);
      DataFeedUnder(clean, t, ControlStep(c, b), data);
      if IsData(c, b) {
        assert Reaching(c, bytes) == [b] + data && ([b] + data)[1..] == data;
      } else {
        assert Reaching(c, bytes) == data;
      }
      assert DataFeed(clean, s, Reaching(c, bytes)) == DataFeed(clean, t, data);
    }
  }

  /** At any point between data bytes, the bytes might as well not be there. */
  ghost predicate Transparent(clean: Line -> Line, bytes: seq<Byte>) {
    forall s: State, rest: seq<Byte> | s.AtRest() :: Feed(clean, s, bytes + rest) == Feed(clean, s, rest)
  }

  /**
   The bytes fall into units the parser skips: `IAC` with any two bytes, and `ESC` up to a letter, with such
   triples in between. When `open`, an `ESC` has come before.
   */
  predicate Skippable(bytes: seq<Byte>, open: bool)
    decreases |bytes|
  {
    if bytes == [] then !open
    else if bytes[0] == IAC then |bytes| >= 3 && Skippable(bytes[3..], open)
    else if bytes[0] == ESC then Skippable(bytes[1..], true)
    else open && Skippable(bytes[1..], !IsLetter(bytes[0]))
  }

  /** Exactly skippable bytes reach no phase and end at rest. */
  lemma {:induction false} SkippableIff(bytes: seq<Byte>, open: bool)
    ensures Skippable(bytes, open) <==>
            Reaching(Control(0, open), bytes) == [] && After(Control(0, open), bytes) == REST
    decreases |bytes|
  {
    hide IsLetter;
    if bytes != [] {
      var c, b := Control(0, open), bytes[0];
      if b == IAC {
        if |bytes| >= 3 {
          Triple(open, bytes);
          SkippableIff(bytes[3..], open);
        } else {
          CutTriple(open, bytes);
        }
      } else if b == ESC {
        SkippableIff(bytes[1..], true);
      } else if open {
        SkippableIff(bytes[1..], !IsLetter(b));
      } else {
        assert IsData(c, b);
      }
    }
  }

  lemma {:induction false} Triple(open: bool, bytes: seq<Byte>)
    requires |bytes| >= 3 && bytes[0] == IAC
    ensures var c := Control(0, open);
            Reaching(c, bytes) == Reaching(c, bytes[3..]) && After(c, bytes) == After(c, bytes[3..])
  {
    hide IsLetter;
    var c := Control(0, open);
    var one, two := bytes[1..], bytes[2..];
    assert one[1..] == two && two[1..] == bytes[3..];
    assert ControlStep(c, IAC) == Control(2, open);
    assert After(c, bytes) == After(Control(2, open), one) && Reaching(c, bytes) == Reaching(Control(2, open), one);
    SkipOne(Control(2, open), one);
    SkipOne(Control(1, open), two);
  }

  lemma {:induction false} SkipOne(c: Control, bytes: seq<Byte>)
    requires c.skip > 0 && bytes != []
    ensures var d := c.(skip := c.skip - 1);
            After(c, bytes) == After(d, bytes[1..]) && Reaching(c, bytes) == Reaching(d, bytes[1..])
  {
  }

  lemma {:induction false} CutTriple(open: bool, bytes: seq<Byte>)
    requires 0 < |bytes| < 3 && bytes[0] == IAC
    ensures After(Control(0, open), bytes).skip == 3 - |bytes|
  {
    var c := Control(2, open);
    assert After(Control(0, open), bytes) == After(c, bytes[1..]);
    if |bytes| == 2 {
      SkipOne(c, bytes[1..]);
      assert bytes[1..][1..] == [];
    }
  }

  /** A state in which every data byte counts: each is collected, or ends the response. */
  lemma {:induction false} DataIsNoticed(clean: Line -> Line, s: State, data: seq<Byte>)
    requires s.phase.AwaitPrompt? && data != []
    ensures var t := DataFeed(clean, s, data);
            t.phase.AwaitPrompt? ==>
              |s.response| < |t.response| || (|s.response| == |t.response| && |s.partial| < |t.partial|)
    decreases |data|
  {
    hide AtPrompt;
    var t := DataStep(clean, s, data[0]);
    if data[1..] != [] {
      if t.phase.AwaitPrompt? { DataIsNoticed(clean, t, data[1..]); } else { StaysIdle(clean, t, data[1..]); }
    }
  }

  lemma {:induction false} StaysIdle(clean: Line -> Line, s: State, data: seq<Byte>)
    requires s.phase.Idle?
    ensures DataFeed(clean, s, data).phase.Idle?
    decreases |data|
  {
    if data != [] { StaysIdle(clean, DataStep(clean, s, data[0]), data[1..]); }
  }

  /** While a response is collected, bytes leave no trace if and only if they are skippable. */
  lemma {:induction false} UnnoticedIff(clean: Line -> Line, s: State, bytes: seq<Byte>)
    requires s.AtRest() && s.phase.AwaitPrompt?
    ensures Feed(clean, s, bytes) == s <==> Skippable(bytes, false)
  {
    hide DataStep, Skippable, After, Reaching;
    FeedIs(clean, s, bytes);
    SkippableIff(bytes, false);
    var data := Reaching(REST, bytes);
    if data != [] { DataIsNoticed(clean, s, data); }
  }

  /** Bytes can be put anywhere between data bytes if and only if they are skippable. */
  lemma {:induction false} TransparentIff(clean: Line -> Line, bytes: seq<Byte>)
    ensures Transparent(clean, bytes) <==> Skippable(bytes, false)
  {
    hide DataStep, Step, Feed, Skippable, After, Reaching;
    if Skippable(bytes, false) {
      SkippableIff(bytes, false);
      forall s: State, rest: seq<Byte> | s.AtRest() ensures Feed(clean, s, bytes + rest) == Feed(clean, s, rest) {
        FeedSplit(clean, s, bytes, rest);
        FeedIs(clean, s, bytes);
      }
    }
    if Transparent(clean, bytes) {
      var s := State(AwaitPrompt, [], [], 0, false, []);
      LeavesNothing(clean, s, bytes);
      UnnoticedIff(clean, s, bytes);
    }
  }

  lemma {:induction false} LeavesNothing(clean: Line -> Line, s: State, bytes: seq<Byte>)
    requires Transparent(clean, bytes) && s.AtRest()
    ensures Feed(clean, s, bytes) == s
  {
    var none: seq<Byte> := [];
    assert Feed(clean, s, bytes + none) == Feed(clean, s, none);
    assert bytes + none == bytes;
  }

  /** Without escapes: whole triples, each begun by an `IAC`. */
  lemma {:induction false} TriplesIff(bytes: seq<Byte>)
    requires 0x1B !in bytes
    ensures Skippable(bytes, false) <==>
            |bytes| % 3 == 0 && forall k | 0 <= k < |bytes| && k % 3 == 0 :: bytes[k] == 255
    decreases |bytes|
  {
    if |bytes| >= 3 && bytes[0] == IAC {
      var rest := bytes[3..];
      TriplesIff(rest);
      assert forall k | 0 <= k < |rest| :: rest[k] == bytes[k + 3];
      assert forall k | 3 <= k < |bytes| :: bytes[k] == rest[k - 3];
    } else if bytes != [] {
      assert bytes[0] != ESC;
    }
  }

  // --- Control sequences of the standards --------------------------------------------------------

  const SB: Byte := 250
  const SE: Byte := 240

  /** The commands of RFC 854: negotiations, commands without option, and subnegotiations. */
  datatype Command =
    | Negotiate(verb: Byte, option: Byte)
    | Simple(code: Byte)
    | Subnegotiate(option: Byte, parameters: seq<Byte>)

  predicate StandardCommand(c: Command) {
    match c
    case Negotiate(verb, _) => 251 <= verb <= 254
    case Simple(code) => 241 <= code <= 249
    case Subnegotiate(_, _) => true
  }

  /** Parameter bytes as they are sent: 255 is sent twice. */
  function Doubled(parameters: seq<Byte>): seq<Byte> {
    if parameters == [] then []
    else (if parameters[0] == 255 then [255, 255] else [parameters[0]]) + Doubled(parameters[1..])
  }

  function CommandBytes(c: Command): seq<Byte> {
    match c
    case Negotiate(verb, option) => [255, verb, option]
    case Simple(code) => [255, code]
    case Subnegotiate(option, parameters) => [255, 250, option] + (Doubled(parameters) + [255, 240])
  }

  /**
   What may stand between data bytes: a telnet command, a control sequence of section 5.4 of ECMA-48
   (`ESC [`, parameter bytes, intermediate bytes, final byte), or an escape sequence (`ESC`, intermediate
   bytes, final byte).
   */
  datatype Item =
    | Data(b: Byte)
    | Telnet(command: Command)
    | ControlSequence(parameters: seq<Byte>, intermediates: seq<Byte>, final: Byte)
    | EscapeSequence(intermediates: seq<Byte>, final: Byte)

  predicate Within(bytes: seq<Byte>, low: Byte, high: Byte) {
    forall k | 0 <= k < |bytes| :: low <= bytes[k] <= high
  }

  /** `ESC` with these opens a control string. */
  predicate OpensString(b: Byte) {
    b == 0x50 || b == 0x58 || b == 0x5D || b == 0x5E || b == 0x5F
  }

  /** Well formed by the standards, without a thought to this parser. */
  predicate Standard(i: Item) {
    match i
    case Data(b) => b != IAC && b != ESC
    case Telnet(command) => StandardCommand(command)
    case ControlSequence(parameters, intermediates, final) =>
      Within(parameters, 0x30, 0x3F) && Within(intermediates, 0x20, 0x2F) && 0x40 <= final <= 0x7E
    case EscapeSequence(intermediates, final) =>
      && Within(intermediates, 0x20, 0x2F) && 0x30 <= final <= 0x7E
      && (intermediates == [] ==> final != 0x5B && !OpensString(final))
  }

  /** What this parser adds: sequences have to end with a letter. */
  predicate EndsWithLetter(i: Item) {
    (i.ControlSequence? || i.EscapeSequence?) ==> IsLetter(i.final)
  }

  /** And telnet commands have to look like triples. */
  predicate Passes(i: Item) {
    EndsWithLetter(i) && (i.Telnet? ==> Skippable(CommandBytes(i.command), false))
  }

  function ItemBytes(i: Item): seq<Byte> {
    match i
    case Data(b) => [b]
    case Telnet(command) => CommandBytes(command)
    case ControlSequence(parameters, intermediates, final) => [0x1B] + ([0x5B] + parameters + intermediates) + [final]
    case EscapeSequence(intermediates, final) => [0x1B] + intermediates + [final]
  }

  function Bytes(items: seq<Item>): seq<Byte> {
    if items == [] then [] else ItemBytes(items[0]) + Bytes(items[1..])
  }

  function DataOf(items: seq<Item>): seq<Byte> {
    if items == [] then [] else (if items[0].Data? then [items[0].b] else []) + DataOf(items[1..])
  }

  predicate NoLetters(bytes: seq<Byte>) {
    forall k | 0 <= k < |bytes| :: !IsLetter(bytes[k]) && bytes[k] != IAC && bytes[k] != ESC
  }

  lemma {:induction false} TelnetIgnored(clean: Line -> Line, s: State, verb: Byte, option: Byte)
    requires s.AtRest()
    ensures Feed(clean, s, [IAC, verb, option]) == s
  {
    var bytes := [IAC, verb, option];
    assert bytes[1..] == [verb, option] && bytes[1..][1..] == [option] && bytes[1..][1..][1..] == [];
    var one := Step(clean, s, IAC);
    assert one == s.(iacSkip := 2);
    assert Step(clean, one, verb) == s.(iacSkip := 1);
    assert Step(clean, s.(iacSkip := 1), option) == s;
    assert Feed(clean, s.(iacSkip := 1), [option]) == s;
    assert Feed(clean, one, [verb, option]) == s;
  }

  /** Inside a sequence everything up to the first letter is skipped. */
  lemma {:induction false} SkipsToLetter(clean: Line -> Line, s: State, body: seq<Byte>)
    requires s.iacSkip == 0 && s.inAnsi && NoLetters(body)
    ensures Feed(clean, s, body) == s
    decreases |body|
  {
    if body != [] { SkipsToLetter(clean, s, body[1..]); }
  }

  lemma {:induction false} SequenceRead(clean: Line -> Line, s: State, body: seq<Byte>, final: Byte)
    requires s.AtRest() && NoLetters(body) && final != IAC && final != ESC
    ensures Feed(clean, s, [ESC] + body + [final]) == s.(inAnsi := !IsLetter(final))
  {
    hide DataStep, IsLetter, NoLetters;
    FeedSplit(clean, s, [ESC] + body, [final]);
    FeedSplit(clean, s, [ESC], body);
    var inside := s.(inAnsi := true);
    assert Feed(clean, s, [ESC]) == inside;
    SkipsToLetter(clean, inside, body);
    assert Step(clean, inside, final) == s.(inAnsi := !IsLetter(final));
  }

  lemma BodyHasNoLetters(i: Item)
    requires Standard(i)
    ensures i.ControlSequence? ==> NoLetters([0x5B] + i.parameters + i.intermediates)
    ensures i.EscapeSequence? ==> NoLetters(i.intermediates)
  {
  }

  /**
   What one standard item does: a data byte is a step, a sequence leaves the parser open unless it ends
   with a letter.
   */
  lemma {:induction false} ItemRead(clean: Line -> Line, s: State, i: Item)
    requires s.AtRest() && Standard(i) && !i.Telnet?
    ensures Feed(clean, s, ItemBytes(i)) ==
            if i.Data? then DataStep(clean, s, i.b) else s.(inAnsi := !EndsWithLetter(i))
  {
    hide DataStep, IsLetter;
    BodyHasNoLetters(i);
    match i
    case Data(b) => assert Step(clean, s, b) == DataStep(clean, s, b);
    case ControlSequence(parameters, intermediates, final) =>
      SequenceRead(clean, s, [0x5B] + parameters + intermediates, final);
    case EscapeSequence(intermediates, final) => SequenceRead(clean, s, intermediates, final);
  }

  /** A standard sequence leaves the parser at rest if and only if it ends with a letter, and then changes nothing. */
  lemma {:induction false} RestsIffLetter(clean: Line -> Line, s: State, i: Item)
    requires s.AtRest() && Standard(i)
    ensures !i.Telnet? ==> (Feed(clean, s, ItemBytes(i)).AtRest() <==> EndsWithLetter(i))
    ensures !i.Data? && Passes(i) ==> Feed(clean, s, ItemBytes(i)) == s
    ensures i.Data? ==> Feed(clean, s, ItemBytes(i)).AtRest()
  {
    hide Step, Feed, DataStep, Skippable, CommandBytes;
    if i.Telnet? {
      if Passes(i) { SkippedWhole(clean, s, ItemBytes(i)); }
    } else {
      ItemRead(clean, s, i);
      if i.Data? { DataKeepsRest(clean, s, i.b); }
    }
  }

  lemma {:induction false} SkippedWhole(clean: Line -> Line, s: State, bytes: seq<Byte>)
    requires s.AtRest() && Skippable(bytes, false)
    ensures Feed(clean, s, bytes) == s
  {
    FeedIs(clean, s, bytes);
    SkippableIff(bytes, false);
  }

  /** A standard command or sequence is transparent if and only if it passes. */
  lemma {:induction false} ItemTransparentIff(clean: Line -> Line, i: Item)
    requires Standard(i) && !i.Data?
    ensures Transparent(clean, ItemBytes(i)) <==> Passes(i)
  {
    hide Step, Feed, DataStep, Skippable, CommandBytes;
    TransparentIff(clean, ItemBytes(i));
    if !i.Telnet? {
      var s := State(AwaitPrompt, [], [], 0, false, []);
      RestsIffLetter(clean, s, i);
      UnnoticedIff(clean, s, ItemBytes(i));
    }
  }

  /** Otherwise it swallows the data behind it, up to and including the first letter. */
  lemma {:induction false} OpenSequenceSwallows(clean: Line -> Line, s: State, i: Item, text: seq<Byte>, letter: Byte,
                                                rest: seq<Byte>)
    requires s.AtRest() && Standard(i) && !EndsWithLetter(i) && NoLetters(text) && IsLetter(letter)
    ensures Feed(clean, s, ItemBytes(i) + (text + [letter]) + rest) == Feed(clean, s, rest)
  {
    hide DataStep, NoLetters;
    var open := s.(inAnsi := true);
    ItemRead(clean, s, i);
    FeedSplit(clean, s, ItemBytes(i) + (text + [letter]), rest);
    FeedSplit(clean, s, ItemBytes(i), text + [letter]);
    FeedSplit(clean, open, text, [letter]);
    SkipsToLetter(clean, open, text);
    assert Step(clean, open, letter) == s;
  }

  /** Commands and sequences that pass, anywhere between data bytes, change nothing. */
  lemma {:induction false} ControlIsTransparent(clean: Line -> Line, s: State, items: seq<Item>)
    requires s.AtRest() && forall i | i in items :: Standard(i) && Passes(i)
    ensures Feed(clean, s, Bytes(items)) == Feed(clean, s, DataOf(items)) && Feed(clean, s, Bytes(items)).AtRest()
    decreases |items|
  {
    hide DataStep, Step, Standard, Passes;
    if items != [] {
      var i := items[0];
      assert Standard(i) && Passes(i);
      FeedSplit(clean, s, ItemBytes(i), Bytes(items[1..]));
      var t := Feed(clean, s, ItemBytes(i));
      RestsIffLetter(clean, s, i);
      if i.Data? {
        FeedSplit(clean, s, [i.b], DataOf(items[1..]));
      } else {
        assert DataOf(items) == DataOf(items[1..]);
      }
      ControlIsTransparent(clean, t, items[1..]);
    }
  }

  lemma DataKeepsRest(clean: Line -> Line, s: State, b: Byte)
    requires s.AtRest()
    ensures DataStep(clean, s, b).AtRest()
  {
  }

  // --- What the parser does not skip -------------------------------------------------------------

  /** The text of a control string that the parser takes for data: all of it behind the first letter. */
  function Leaked(opener: Byte, text: seq<Byte>): seq<Byte>
    decreases |text|
  {
    if IsLetter(opener) then text else if text == [] then [] else Leaked(text[0], text[1..])
  }

  predicate NoControl(bytes: seq<Byte>) {
    IAC !in bytes && ESC !in bytes
  }

  /**
   A control string (`ESC`, opener, text, `ESC \\`) leaves the parser at rest only if its text ends in the
   middle of a triple. Text without `IAC` and `ESC` is read as data behind its first letter.
   */
  lemma {:induction false} ControlStringLeaks(clean: Line -> Line, s: State, opener: Byte, text: seq<Byte>)
    requires s.AtRest() && OpensString(opener)
    ensures var c := After(OPEN, [opener] + text);
            Feed(clean, s, [ESC, opener] + text + [ESC, 0x5C]).AtRest() <==> c.skip > 0 && !c.ansi
    ensures NoControl(text) ==>
              Feed(clean, s, [ESC, opener] + text + [ESC, 0x5C]) ==
              Feed(clean, s, Leaked(opener, text)).(inAnsi := true)
  {
    hide Feed, Step, DataStep, Reaching, Leaked;
    var bytes := [ESC, opener] + text;
    EndsAtRestIff(clean, s, bytes, 0x5C, ESC);
    assert bytes == [ESC] + ([opener] + text);
    AfterSplit(REST, [ESC], [opener] + text);
    assert After(REST, [ESC]) == OPEN;
    if NoControl(text) {
      TextLeaks(clean, s, opener, text);
      FeedSplit(clean, s, bytes, [ESC, 0x5C]);
      Terminator(clean, Feed(clean, s, bytes));
    }
  }

  lemma {:induction false} AfterSplit(c: Control, a: seq<Byte>, b: seq<Byte>)
    ensures After(c, a + b) == After(After(c, a), b)
    ensures Reaching(c, a + b) == Reaching(c, a) + Reaching(After(c, a), b)
    decreases |a|
  {
    hide ControlStep, IsData;
    if a == [] {
      assert a + b == b;
    } else {
      assert (a + b)[1..] == a[1..] + b;
      AfterSplit(ControlStep(c, a[0]), a[1..], b);
    }
  }

  /** The skip counter never passes two. */
  lemma {:induction false} SkipBounded(c: Control, bytes: seq<Byte>)
    requires c.skip <= 2
    ensures After(c, bytes).skip <= 2
    decreases |bytes|
  {
    if bytes != [] { SkipBounded(ControlStep(c, bytes[0]), bytes[1..]); }
  }

  /**
   A two-byte terminator, `IAC SE` or `ESC \\`, leaves the parser at rest if and only if it comes in the middle
   of a triple and outside a sequence.
   */
  lemma {:induction false} EndsAtRestIff(clean: Line -> Line, s: State, bytes: seq<Byte>, last: Byte, first: Byte)
    requires s.AtRest() && (first == IAC || first == ESC) && last != IAC && last != ESC && !IsLetter(last)
    ensures var c := After(REST, bytes);
            && (Feed(clean, s, bytes + [first, last]).AtRest() <==> c.skip > 0 && !c.ansi)
            && Reaching(c, [first, last]) == if c.skip == 1 && !c.ansi then [last] else []
  {
    hide Feed, Step, DataStep;
    var c := After(REST, bytes);
    SkipBounded(REST, bytes);
    FeedIs(clean, s, bytes + [first, last]);
    AfterSplit(REST, bytes, [first, last]);
    var d := ControlStep(c, first);
    assert [first, last][1..] == [last] && [last][1..] == [];
    assert After(d, [last]) == After(ControlStep(d, last), []);
    assert After(c, [first, last]) == ControlStep(d, last);
    assert Reaching(d, [last]) == if IsData(d, last) then [last] else [];
  }

  lemma {:induction false} TextLeaks(clean: Line -> Line, s: State, opener: Byte, text: seq<Byte>)
    requires s.AtRest() && opener != IAC && opener != ESC && forall k | 0 <= k < |text| ::
             text[k] != IAC && text[k] != ESC
    ensures var t := Feed(clean, s, [ESC, opener] + text);
            && t.iacSkip == 0
            && t.(inAnsi := true) == Feed(clean, s, Leaked(opener, text)).(inAnsi := true)
  {
    hide DataStep, IsLetter;
    var open := s.(inAnsi := true);
    assert [ESC, opener] + text == [ESC] + ([opener] + text);
    FeedSplit(clean, s, [ESC], [opener] + text);
    assert Feed(clean, s, [ESC]) == open;
    OpenText(clean, s, opener, text);
  }

  lemma {:induction false} OpenText(clean: Line -> Line, s: State, opener: Byte, text: seq<Byte>)
    requires s.AtRest() && opener != IAC && opener != ESC && forall k | 0 <= k < |text| ::
             text[k] != IAC && text[k] != ESC
    ensures var t := Feed(clean, s.(inAnsi := true), [opener] + text);
            t.iacSkip == 0 && t.(inAnsi := true) == Feed(clean, s, Leaked(opener, text)).(inAnsi := true)
    decreases |text|
  {
    hide DataStep, IsLetter;
    var open := s.(inAnsi := true);
    assert ([opener] + text)[1..] == text;
    if IsLetter(opener) {
      PlainKeepsRest(clean, s, text);
    } else if text != [] {
      assert text == [text[0]] + text[1..];
      OpenText(clean, s, text[0], text[1..]);
    }
  }

  lemma {:induction false} PlainKeepsRest(clean: Line -> Line, s: State, text: seq<Byte>)
    requires s.AtRest() && forall k | 0 <= k < |text| :: text[k] != IAC && text[k] != ESC
    ensures Feed(clean, s, text).AtRest()
    decreases |text|
  {
    hide DataStep;
    if text != [] {
      DataKeepsRest(clean, s, text[0]);
      PlainKeepsRest(clean, Step(clean, s, text[0]), text[1..]);
    }
  }

  lemma {:induction false} Terminator(clean: Line -> Line, t: State)
    requires t.iacSkip == 0
    ensures Feed(clean, t, [ESC, 0x5C]) == t.(inAnsi := true)
  {
    hide DataStep;
    var open := t.(inAnsi := true);
    assert [ESC, 0x5C][1..] == [0x5C];
    assert Step(clean, t, ESC) == open && Step(clean, open, 0x5C) == open;
    assert Feed(clean, open, [0x5C]) == open;
  }

  /**
   Every telnet command is taken to be three bytes long. After a two-byte one the next byte is lost,
   whatever it is.
   */
  lemma {:induction false} ShortCommandSwallowsNextByte(clean: Line -> Line, s: State, verb: Byte, data: Byte,
                                                        rest: seq<Byte>)
    requires s.AtRest()
    ensures Feed(clean, s, [IAC, verb] + [data] + rest) == Feed(clean, s, rest)
  {
    TelnetIgnored(clean, s, verb, data);
    assert [IAC, verb] + [data] == [IAC, verb, data];
    FeedSplit(clean, s, [IAC, verb, data], rest);
  }

  lemma {:induction false} TwoBytes(clean: Line -> Line, s: State, code: Byte)
    requires s.AtRest()
    ensures Feed(clean, s, [IAC, code]) == s.(iacSkip := 1)
  {
    hide DataStep;
    assert [IAC, code][1..] == [code];
    assert Step(clean, s, IAC) == s.(iacSkip := 2);
    assert Feed(clean, s.(iacSkip := 2), [code]) == s.(iacSkip := 1);
  }

  /**
   Which telnet commands are transparent: the negotiations, no two-byte command, and a subnegotiation exactly
   when its parameters, as they are sent, go on with triples that take in its end.
   */
  lemma {:induction false} CommandTransparentIff(clean: Line -> Line, c: Command)
    requires StandardCommand(c)
    ensures Transparent(clean, CommandBytes(c)) <==>
            match c
            case Negotiate(_, _) => true
            case Simple(_) => false
            case Subnegotiate(_, parameters) => Skippable(Doubled(parameters) + [IAC, SE], false)
  {
    hide Transparent;
    TransparentIff(clean, CommandBytes(c));
    if c.Subnegotiate? {
      assert CommandBytes(c)[3..] == Doubled(c.parameters) + [IAC, SE];
    }
  }

  /**
   Which telnet commands leave the parser at rest: the negotiations, no two-byte command, and a subnegotiation
   exactly when the triple its end falls into began before it, outside a sequence. A two-byte command loses the
   next byte, and so does a subnegotiation without 255 and `ESC`, whose parameters are read as data.
   */
  lemma {:induction false} CommandRestsIff(clean: Line -> Line, s: State, c: Command)
    requires s.AtRest() && StandardCommand(c)
    ensures Feed(clean, s, CommandBytes(c)).AtRest() <==>
            match c
            case Negotiate(_, _) => true
            case Simple(_) => false
            case Subnegotiate(_, parameters) =>
              var end := After(REST, Doubled(parameters));
              end.skip > 0 && !end.ansi
    ensures c.Negotiate? ==> Feed(clean, s, CommandBytes(c)) == s
    ensures c.Simple? ==> Feed(clean, s, CommandBytes(c)) == s.(iacSkip := 1)
    ensures c.Subnegotiate? && NoControl(c.parameters) ==>
              Feed(clean, s, CommandBytes(c)) == Feed(clean, s, c.parameters).(iacSkip := 1)
  {
    hide Feed, Step, After, Doubled;
    match c
    case Negotiate(verb, option) => TelnetIgnored(clean, s, verb, option);
    case Simple(code) => TwoBytes(clean, s, code);
    case Subnegotiate(option, parameters) =>
      FeedSplit(clean, s, [IAC, SB, option], Doubled(parameters) + [IAC, SE]);
      TelnetIgnored(clean, s, SB, option);
      EndsAtRestIff(clean, s, Doubled(parameters), SE, IAC);
      if NoControl(parameters) {
        DoubledPlain(parameters);
        FeedSplit(clean, s, parameters, [IAC, SE]);
        PlainKeepsRest(clean, s, parameters);
        TwoBytes(clean, Feed(clean, s, parameters), SE);
      }
  }

  lemma {:induction false} DoubledPlain(parameters: seq<Byte>)
    requires IAC !in parameters
    ensures Doubled(parameters) == parameters
  {
    if parameters != [] { DoubledPlain(parameters[1..]); }
  }

  /**
   Both kinds of subnegotiation exist with doubled bytes: two parameter bytes 255 make it transparent, one
   leaves the parser at rest with the end of the command read as data.
   */
  lemma {:induction false} DoubledParameters(clean: Line -> Line, s: State, option: Byte)
    requires s.AtRest()
    ensures Transparent(clean, CommandBytes(Subnegotiate(option, [IAC, IAC])))
    ensures Feed(clean, s, CommandBytes(Subnegotiate(option, [IAC]))) == DataStep(clean, s, SE)
  {
    hide Transparent, Feed, Step, DataStep;
    var two, one := Subnegotiate(option, [IAC, IAC]), Subnegotiate(option, [IAC]);
    assert [IAC, IAC][1..] == [IAC] && [IAC][1..] == [];
    assert Doubled([IAC]) == [IAC, IAC] + Doubled([]);
    assert Doubled([IAC, IAC]) == [IAC, IAC] + Doubled([IAC]);
    var bytes := [IAC, IAC, IAC, IAC, IAC, SE];
    assert Doubled([IAC, IAC]) + [IAC, SE] == bytes;
    TriplesIff(bytes);
    CommandTransparentIff(clean, two);
    assert CommandBytes(one) == [IAC, SB, option] + ([IAC, IAC, IAC] + [SE]);
    FeedSplit(clean, s, [IAC, SB, option], [IAC, IAC, IAC] + [SE]);
    TelnetIgnored(clean, s, SB, option);
    FeedSplit(clean, s, [IAC, IAC, IAC], [SE]);
    TelnetIgnored(clean, s, IAC, IAC);
    OneData(clean, s, SE);
  }

  lemma {:induction false} OneData(clean: Line -> Line, s: State, b: Byte)
    requires s.AtRest() && b != IAC && b != ESC
    ensures Feed(clean, s, [b]) == DataStep(clean, s, b)
  {
    assert Step(clean, s, b) == DataStep(clean, s, b);
  }

  // --- Transcripts -------------------------------------------------------------------------------

  /** A line of plain bytes, without its line feed. */
  predicate Plain(line: Line) {
    forall i | 0 <= i < |line| :: line[i] != IAC && line[i] != ESC && line[i] != LF
  }

  /** No beginning of the line looks like the prompt. */
  predicate NotPrompt(line: Line, prompt: Line) {
    forall k | 0 < k <= |line| :: !AtPrompt(line[..k], prompt)
  }

  function Lines(lines: seq<Line>): seq<Byte> {
    if lines == [] then [] else Lines(lines[..|lines| - 1]) + lines[|lines| - 1] + [0x0A]
  }

  lemma {:induction false} EchoLine(clean: Line -> Line, s: State, line: Line, n: nat)
    requires s.AtRest() && s.phase.AwaitEcho? && s.partial == [] && Plain(line) && n <= |line|
    ensures Feed(clean, s, line[..n]) == s.(partial := line[..n])
  {
    if n > 0 {
      EchoLine(clean, s, line, n - 1);
      assert line[..n] == line[..n - 1] + [line[n - 1]];
      FeedSplit(clean, s, line[..n - 1], [line[n - 1]]);
    }
  }

  lemma {:induction false} EchoLineEnds(clean: Line -> Line, s: State, line: Line)
    requires s.AtRest() && s.phase.AwaitEcho? && s.partial == [] && Plain(line)
    ensures Feed(clean, s, line + [LF]) == s.(phase := if clean(line) == s.phase.command then AwaitPrompt else s.phase)
  {
    EchoLine(clean, s, line, |line|);
    assert line[..|line|] == line;
    FeedSplit(clean, s, line, [LF]);
  }

  lemma {:induction false} NoiseIgnored(clean: Line -> Line, s: State, lines: seq<Line>)
    requires s.AtRest() && s.phase.AwaitEcho? && s.partial == []
    requires forall l | l in lines :: Plain(l) && clean(l) != s.phase.command
    ensures Feed(clean, s, Lines(lines)) == s
    decreases |lines|
  {
    hide Step;
    if lines != [] {
      var n := |lines| - 1;
      NoiseIgnored(clean, s, lines[..n]);
      assert Lines(lines) == Lines(lines[..n]) + (lines[n] + [LF]);
      FeedSplit(clean, s, Lines(lines[..n]), lines[n] + [LF]);
      EchoLineEnds(clean, s, lines[n]);
    }
  }

  lemma {:induction false} ResponseBytes(clean: Line -> Line, s: State, line: Line, n: nat)
    requires s.AtRest() && s.phase.AwaitPrompt? && s.partial == [] && Plain(line) && n <= |line|
    requires forall k | 0 < k <= n :: !AtPrompt(line[..k], s.prompt)
    ensures Feed(clean, s, line[..n]) == s.(partial := line[..n])
  {
    hide AtPrompt;
    if n > 0 {
      ResponseBytes(clean, s, line, n - 1);
      assert line[..n] == line[..n - 1] + [line[n - 1]];
      FeedSplit(clean, s, line[..n - 1], [line[n - 1]]);
    }
  }

  lemma {:induction false} ResponseLine(clean: Line -> Line, s: State, line: Line)
    requires s.AtRest() && s.phase.AwaitPrompt? && s.partial == [] && Plain(line) && NotPrompt(line, s.prompt)
    ensures Feed(clean, s, line + [LF]) == s.(response := s.response + [line])
  {
    hide AtPrompt;
    ResponseBytes(clean, s, line, |line|);
    assert line[..|line|] == line;
    FeedSplit(clean, s, line, [LF]);
  }

  lemma {:induction false} ResponseLines(clean: Line -> Line, s: State, lines: seq<Line>)
    requires s.AtRest() && s.phase.AwaitPrompt? && s.partial == []
    requires forall l | l in lines :: Plain(l) && NotPrompt(l, s.prompt)
    ensures Feed(clean, s, Lines(lines)) == s.(response := s.response + lines)
    decreases |lines|
  {
    hide Step, NotPrompt;
    if lines != [] {
      var n := |lines| - 1;
      ResponseLines(clean, s, lines[..n]);
      assert Lines(lines) == Lines(lines[..n]) + (lines[n] + [LF]);
      FeedSplit(clean, s, Lines(lines[..n]), lines[n] + [LF]);
      ResponseLine(clean, Feed(clean, s, Lines(lines[..n])), lines[n]);
      assert s.response + lines == s.response + lines[..n] + [lines[n]];
    }
  }

  /** Plain bytes change nothing while idle. */
  lemma {:induction false} IdleDiscards(clean: Line -> Line, s: State, bytes: seq<Byte>)
    requires s.AtRest() && s.phase.Idle? && s.partial == [] && forall i | 0 <= i < |bytes| ::
             bytes[i] != IAC && bytes[i] != ESC
    ensures Feed(clean, s, bytes) == s
    decreases |bytes|
  {
    if bytes != [] { IdleDiscards(clean, s, bytes[1..]); }
  }

  /** The first beginning of the line that is the prompt ends the response there. */
  lemma {:induction false} PromptReached(clean: Line -> Line, s: State, line: Line, k: nat)
    requires s.AtRest() && s.phase.AwaitPrompt? && s.partial == [] && Plain(line) && 0 < k <= |line|
    requires AtPrompt(line[..k], s.prompt) && forall j | 0 < j < k :: !AtPrompt(line[..j], s.prompt)
    ensures Feed(clean, s, line[..k]) == s.(phase := Idle)
  {
    hide AtPrompt;
    ResponseBytes(clean, s, line, k - 1);
    assert line[..k] == line[..k - 1] + [line[k - 1]];
    FeedSplit(clean, s, line[..k - 1], [line[k - 1]]);
  }

  /** A response line is collected if and only if no beginning of it looks like the prompt. */
  lemma {:induction false} LineCollectedIff(clean: Line -> Line, s: State, line: Line)
    requires s.AtRest() && s.phase.AwaitPrompt? && s.partial == [] && Plain(line)
    ensures Feed(clean, s, line + [LF]).response == s.response + [line] <==> NotPrompt(line, s.prompt)
  {
    hide AtPrompt, Step;
    if NotPrompt(line, s.prompt) {
      ResponseLine(clean, s, line);
    } else {
      var k := FirstPrompt(line, s.prompt, |line|);
      PromptReached(clean, s, line, k);
      assert line + [LF] == line[..k] + (line[k..] + [LF]);
      FeedSplit(clean, s, line[..k], line[k..] + [LF]);
      IdleDiscards(clean, s.(phase := Idle), line[k..] + [LF]);
      assert |s.response| < |s.response + [line]|;
    }
  }

  ghost function FirstPrompt(line: Line, prompt: Line, n: nat): (k: nat)
    requires n <= |line| && exists j | 0 < j <= n :: AtPrompt(line[..j], prompt)
    ensures 0 < k <= n && AtPrompt(line[..k], prompt) && forall j | 0 < j < k :: !AtPrompt(line[..j], prompt)
  {
    if exists j | 0 < j <= n - 1 :: AtPrompt(line[..j], prompt) then FirstPrompt(line, prompt, n - 1) else n
  }

  /** One exchange: lines that are not the echo, the echo, the response lines, the prompt. */
  datatype Exchange = Exchange(command: Line, newPrompt: Option<Line>, noise: seq<Line>, echo: Line, lines: seq<Line>,
                               carriageReturn: bool) {
    function Prompt(before: Line): Line {
      newPrompt.GetOr(before)
    }

    function LastLine(before: Line): Line {
      (if carriageReturn then [0x0D] else []) + Prompt(before)
    }

    function Transcript(before: Line): seq<Byte> {
      Lines(noise) + (echo + [0x0A]) + Lines(lines) + LastLine(before)
    }
  }

  /** The transcript is well formed: the last line is the first thing that looks like the prompt. */
  ghost predicate ExchangeOk(clean: Line -> Line, e: Exchange, before: Line) {
    && (forall l | l in e.noise :: Plain(l) && clean(l) != e.command)
    && Plain(e.echo) && clean(e.echo) == e.command
    && (forall l | l in e.lines :: Plain(l) && NotPrompt(l, e.Prompt(before)))
    && e.Prompt(before) != [] && e.Prompt(before)[0] != CR && Plain(e.Prompt(before))
  }

  lemma PromptOnce(prompt: Line, carriageReturn: bool)
    requires prompt != [] && prompt[0] != CR
    ensures var last := (if carriageReturn then [CR] else []) + prompt;
            AtPrompt(last, prompt) && forall j | 0 < j < |last| :: !AtPrompt(last[..j], prompt)
  {
    var last := (if carriageReturn then [CR] else []) + prompt;
    assert carriageReturn ==> last[1..] == prompt;
  }

  /** A whole exchange ends idle with exactly its response lines. */
  lemma ExchangeAnswered(clean: Line -> Line, s: State, e: Exchange)
    requires s.AtRest() && s.phase.Idle? && s.partial == [] && ExchangeOk(clean, e, s.prompt)
    ensures Feed(clean, Begin(s, e.command, e.newPrompt), e.Transcript(s.prompt)) ==
            s.(response := e.lines, prompt := e.Prompt(s.prompt))
  {
    hide Step, AtPrompt, NotPrompt;
    var a := Begin(s, e.command, e.newPrompt);
    var last := e.LastLine(s.prompt);
    NoiseIgnored(clean, a, e.noise);
    EchoLineEnds(clean, a, e.echo);
    var b := a.(phase := AwaitPrompt);
    ResponseLines(clean, b, e.lines);
    var c := b.(response := b.response + e.lines);
    assert b.response + e.lines == e.lines;
    PromptOnce(a.prompt, e.carriageReturn);
    assert last[..|last|] == last;
    PromptReached(clean, c, last, |last|);
    FeedSplit(clean, a, Lines(e.noise) + (e.echo + [LF]) + Lines(e.lines), last);
    FeedSplit(clean, a, Lines(e.noise) + (e.echo + [LF]), Lines(e.lines));
    FeedSplit(clean, a, Lines(e.noise), e.echo + [LF]);
  }

  /** The same transcript with any control sequences in it gives the same answer. */
  lemma {:induction false} ExchangeWithControls(clean: Line -> Line, s: State, e: Exchange, items: seq<Item>)
    requires s.AtRest() && s.phase.Idle? && s.partial == [] && ExchangeOk(clean, e, s.prompt)
    requires (forall i | i in items :: Standard(i) && Passes(i)) && DataOf(items) == e.Transcript(s.prompt)
    ensures Feed(clean, Begin(s, e.command, e.newPrompt), Bytes(items)) ==
            s.(response := e.lines, prompt := e.Prompt(s.prompt))
  {
    hide Step, Feed, ExchangeOk;
    ExchangeAnswered(clean, s, e);
    ControlIsTransparent(clean, Begin(s, e.command, e.newPrompt), items);
  }
}
