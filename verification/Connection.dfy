/**
 * One client connection of the daemon: the request dispatcher, the event
 * forwarder and the socket writer as a step system
 * (crates/backrd/src/ipc/mod.rs).
 *
 * The write channel is an unbounded FIFO; the broadcast channel is a ring of the
 * last `EVENT_CAPACITY` events, and a receiver that falls behind skips to the
 * oldest one. JSON decoding of requests is a parameter.
 */
module Connection {
  import opened Wrappers
  import opened Text

  const EVENT_CAPACITY: nat := 256
  const MALFORMED_ID := "null"

  datatype IpcError = IpcError(kind: string, message: string)
  datatype IpcEvent = IpcEvent(event: string, data: string)
  datatype IpcRequest = IpcRequest(id: string, call: string)

  // JSON texts stand for result values.
  type Reply = Result<string, IpcError>

  /** A line of the daemon: a response or an event. */
  datatype Line = Answer(id: string, reply: Reply) | Push(event: IpcEvent)

  type Parser = string -> Option<IpcRequest>

  // ------------------------------------------------------------------
  // States
  // ------------------------------------------------------------------

  datatype Dispatcher = Reading | Handling(id: string) | Answering(line: Line) | Ended
  datatype Forwarder = Waiting | Holding(index: nat) | Stopped
  datatype Writer = Ready | Writing(line: Line) | Finished | Failed

  datatype State = State(
    input: seq<string>, pos: nat, readFailed: bool,
    dispatcher: Dispatcher, forwarder: Forwarder, writer: Writer,
    channel: seq<Line>, socket: seq<Line>,
    broadcast: seq<IpcEvent>, cursor: nat,
    // History: responses made, lines queued, events forwarded, skipped and dropped.
    answers: seq<Line>, queued: seq<Line>, forwarded: seq<nat>, skipped: nat, dropped: nat
  )

  /** A fresh connection whose client sends `input`, line by line. */
  function Init(input: seq<string>): State {
    State(input, 0, false, Reading, Waiting, Ready, [], [], [], 0, [], [], [], 0, 0)
  }

  datatype Event =
    | ReadLine | EndOfInput | ReadError
    | Handled(reply: Reply)
    | SendAnswer
    | Broadcast(event: IpcEvent)
    | Receive | Lag | SendEvent | Abort
    | Take | Write | WriteError(written: bool) | Drain

  /** The oldest event still in the ring. */
  function Oldest(s: State): nat {
    if |s.broadcast| > EVENT_CAPACITY then |s.broadcast| - EVENT_CAPACITY else 0
  }

  predicate WriterAlive(s: State) {
    s.writer.Ready? || s.writer.Writing?
  }

  /** What the dispatcher does with one line of input. */
  function Dispatch(parse: Parser, line: string, malformed: Reply): Dispatcher {
    var trimmed := Trim(line);
    if trimmed == "" then Reading
    else
      match parse(trimmed)
      case None => Answering(Answer(MALFORMED_ID, malformed))
      case Some(request) => Handling(request.id)
  }

  const MALFORMED: Reply := Err(IpcError("InvalidInput", "failed to parse request"))

  function Next(parse: Parser, s: State, e: Event): Option<State> {
    match e
    case ReadLine =>
      if !s.dispatcher.Reading? || s.pos >= |s.input| then None
      else
        var d := Dispatch(parse, s.input[s.pos], MALFORMED);
        Some(s.(pos := s.pos + 1, dispatcher := d, answers := s.answers + if d.Answering? then [d.line] else []))
    case EndOfInput =>
      if s.dispatcher.Reading? && s.pos == |s.input| then Some(s.(dispatcher := Ended)) else None
    case ReadError =>
      if s.dispatcher.Reading? then Some(s.(dispatcher := Ended, readFailed := true)) else None
    case Handled(reply) =>
      if !s.dispatcher.Handling? then None
      else
        var line := Answer(s.dispatcher.id, reply);
        Some(s.(dispatcher := Answering(line), answers := s.answers + [line]))
    case SendAnswer =>
      if !s.dispatcher.Answering? then None
      else if !WriterAlive(s) then Some(s.(dispatcher := Ended))
      else
        var line := s.dispatcher.line;
        Some(s.(dispatcher := Reading, channel := s.channel + [line], queued := s.queued + [line]))
    case Broadcast(event) => Some(s.(broadcast := s.broadcast + [event]))
    case Receive =>
      if s.forwarder.Waiting? && Oldest(s) <= s.cursor < |s.broadcast|
      then Some(s.(forwarder := Holding(s.cursor), cursor := s.cursor + 1))
      else None
    case Lag =>
      if s.forwarder.Waiting? && s.cursor < Oldest(s)
      then Some(s.(skipped := s.skipped + (Oldest(s) - s.cursor), cursor := Oldest(s)))
      else None
    case SendEvent =>
      if !(s.forwarder.Holding? && s.forwarder.index < |s.broadcast|) then None
      else if !WriterAlive(s) then Some(s.(forwarder := Stopped, dropped := s.dropped + 1))
      else
        var line := Push(s.broadcast[s.forwarder.index]);
        Some(s.(
          forwarder := Waiting, channel := s.channel + [line], queued := s.queued + [line],
          forwarded := s.forwarded + [s.forwarder.index]))
    case Abort =>
      // Takes effect where the forwarder awaits, and only once the loop has returned.
      if s.dispatcher.Ended? && s.forwarder.Waiting? then Some(s.(forwarder := Stopped)) else None
    case Take =>
      if s.writer.Ready? && s.channel != []
      then Some(s.(writer := Writing(s.channel[0]), channel := s.channel[1..]))
      else None
    case Write =>
      if s.writer.Writing? then Some(s.(writer := Ready, socket := s.socket + [s.writer.line])) else None
    case WriteError(written) =>
      if s.writer.Writing?
      then Some(s.(writer := Failed, socket := s.socket + if written then [s.writer.line] else []))
      else None
    case Drain =>
      // recv() answers None once every sender is dropped and the channel is empty.
      if s.writer.Ready? && s.channel == [] && s.dispatcher.Ended? && s.forwarder.Stopped?
      then Some(s.(writer := Finished))
      else None
  }

  function Run(parse: Parser, s: State, events: seq<Event>): Option<State> {
    if events == [] then Some(s)
    else
      match Run(parse, s, events[..|events| - 1])
      case None => None
      case Some(t) => Next(parse, t, events[|events| - 1])
  }

  // ------------------------------------------------------------------
  // What the lines say
  // ------------------------------------------------------------------

  function AnswersIn(lines: seq<Line>): seq<Line> {
    if lines == [] then []
    else
      var last := lines[|lines| - 1];
      AnswersIn(lines[..|lines| - 1]) + if last.Answer? then [last] else []
  }

  function PushesIn(lines: seq<Line>): seq<IpcEvent> {
    if lines == [] then []
    else
      var last := lines[|lines| - 1];
      PushesIn(lines[..|lines| - 1]) + if last.Push? then [last.event] else []
  }

  function IdsIn(lines: seq<Line>): seq<string>
    requires forall i :: 0 <= i < |lines| ==> lines[i].Answer?
  {
    seq(|lines|, i requires 0 <= i < |lines| => lines[i].id)
  }

  /** The id that answers one input line: none for a blank one, "null" for an unparseable one. */
  function ExpectedId(parse: Parser, line: string): seq<string> {
    var trimmed := Trim(line);
    if trimmed == "" then []
    else if parse(trimmed).None? then ["null"]
    else [parse(trimmed).value.id]
  }

  function ExpectedIds(parse: Parser, input: seq<string>): seq<string> {
    if input == [] then []
    else ExpectedIds(parse, input[..|input| - 1]) + ExpectedId(parse, input[|input| - 1])
  }

  function Select(broadcast: seq<IpcEvent>, indices: seq<nat>): (r: seq<IpcEvent>)
    requires forall i :: 0 <= i < |indices| ==> indices[i] < |broadcast|
    ensures |r| == |indices| && forall i :: 0 <= i < |r| ==> r[i] == broadcast[indices[i]]
  {
    seq(|indices|, i requires 0 <= i < |indices| => broadcast[indices[i]])
  }

  lemma OneMoreLine(lines: seq<Line>, line: Line)
    ensures AnswersIn(lines + [line]) == AnswersIn(lines) + if line.Answer? then [line] else []
    ensures PushesIn(lines + [line]) == PushesIn(lines) + if line.Push? then [line.event] else []
  {
    assert (lines + [line])[..|lines|] == lines;
  }

  lemma {:induction false} AnswersOfPrefix(lines: seq<Line>, more: seq<Line>)
    ensures AnswersIn(lines) <= AnswersIn(lines + more)
    ensures PushesIn(lines) <= PushesIn(lines + more)
  {
    if more == [] {
      assert lines + more == lines;
    } else {
      var init, last := more[..|more| - 1], more[|more| - 1];
      AnswersOfPrefix(lines, init);
      OneMoreLine(lines + init, last);
      assert lines + more == lines + init + [last];
    }
  }

  // ------------------------------------------------------------------
  // Invariants
  // ------------------------------------------------------------------

  /** Every line read so far has been answered in order, but for the one being handled. */
  ghost predicate IdsInv(parse: Parser, s: State) {
    && s.pos <= |s.input|
    && (forall i :: 0 <= i < |s.answers| ==> s.answers[i].Answer?)
    && (s.dispatcher.Answering? ==> s.dispatcher.line.Answer?)
    && IdsIn(s.answers) + (if s.dispatcher.Handling? then [s.dispatcher.id] else [])
       == ExpectedIds(parse, s.input[..s.pos])
    && (s.dispatcher.Ended? && !s.readFailed && !s.writer.Failed? ==> s.pos == |s.input|)
  }

  function InWriter(s: State): seq<Line> {
    if s.writer.Writing? then [s.writer.line] else []
  }

  /** First in, first out; the answers queued are those made, but for one in hand. */
  ghost predicate QueueInv(s: State) {
    && (!s.writer.Failed? ==> s.socket + InWriter(s) + s.channel == s.queued)
    && (s.writer.Failed? ==> s.socket <= s.queued)
    && (s.writer.Finished? ==> s.channel == [] && s.dispatcher.Ended? && s.forwarder.Stopped?)
    && (!s.writer.Failed? ==>
          s.answers == AnswersIn(s.queued) + (if s.dispatcher.Answering? then [s.dispatcher.line] else []))
    && AnswersIn(s.queued) <= s.answers
    && (s.dispatcher.Answering? ==> s.dispatcher.line.Answer?)
  }

  ghost predicate Increasing(indices: seq<nat>, bound: nat) {
    && (forall i :: 0 <= i < |indices| ==> indices[i] < bound)
    && (forall i, j :: 0 <= i < j < |indices| ==> indices[i] < indices[j])
  }

  function HeldCount(s: State): nat {
    if s.forwarder.Holding? then 1 else 0
  }

  ghost predicate EventsInv(s: State) {
    && s.cursor <= |s.broadcast|
    && s.cursor == |s.forwarded| + s.skipped + s.dropped + HeldCount(s)
    && (s.forwarder.Holding? ==> s.cursor > 0 && s.forwarder.index == s.cursor - 1)
    && Increasing(s.forwarded, s.cursor - HeldCount(s))
    && PushesIn(s.queued) == Select(s.broadcast, s.forwarded)
    && (s.dropped > 0 ==> s.writer.Failed?)
    && (s.writer.Finished? ==> s.forwarder.Stopped?)
  }

  lemma ReadKeepsIds(parse: Parser, s: State)
    requires IdsInv(parse, s) && Next(parse, s, ReadLine).Some?
    ensures IdsInv(parse, Next(parse, s, ReadLine).value)
  {
    var t := Next(parse, s, ReadLine).value;
    assert s.input[..t.pos][..s.pos] == s.input[..s.pos];
    assert ExpectedIds(parse, s.input[..t.pos]) ==
      ExpectedIds(parse, s.input[..s.pos]) + ExpectedId(parse, s.input[s.pos]);
  }

  lemma HandledKeepsIds(parse: Parser, s: State, reply: Reply)
    requires IdsInv(parse, s) && Next(parse, s, Handled(reply)).Some?
    ensures IdsInv(parse, Next(parse, s, Handled(reply)).value)
  {
    var line := Answer(s.dispatcher.id, reply);
    assert IdsIn(s.answers + [line]) == IdsIn(s.answers) + [line.id];
  }

  lemma OthersKeepIds(parse: Parser, s: State, e: Event)
    requires IdsInv(parse, s) && QueueInv(s) && Next(parse, s, e).Some?
    requires e.EndOfInput? || e.ReadError? || e.SendAnswer? || e.SendEvent?
    ensures IdsInv(parse, Next(parse, s, e).value)
  {
  }

  lemma WriterKeepsIds(parse: Parser, s: State, e: Event)
    requires IdsInv(parse, s) && QueueInv(s) && Next(parse, s, e).Some?
    requires e.Take? || e.Write? || e.WriteError? || e.Drain?
    ensures IdsInv(parse, Next(parse, s, e).value)
  {
  }

  lemma StepKeepsIds(parse: Parser, s: State, e: Event)
    requires IdsInv(parse, s) && QueueInv(s) && Next(parse, s, e).Some?
    ensures IdsInv(parse, Next(parse, s, e).value)
  {
    if e.ReadLine? {
      ReadKeepsIds(parse, s);
    } else if e.Handled? {
      HandledKeepsIds(parse, s, e.reply);
    } else if e.Broadcast? || e.Receive? || e.Lag? || e.Abort? {
      ForwarderKeepsQueue(parse, s, e);
    } else if e.Take? || e.Write? || e.WriteError? || e.Drain? {
      WriterKeepsIds(parse, s, e);
    } else {
      OthersKeepIds(parse, s, e);
    }
  }

  /** Sending appends the line to the channel and to what was queued. */
  lemma SendKeepsOrder(s: State, line: Line)
    requires s.socket + InWriter(s) + s.channel == s.queued
    ensures s.socket + InWriter(s) + (s.channel + [line]) == s.queued + [line]
  {
  }

  lemma SendAnswerKeepsQueue(parse: Parser, s: State)
    requires QueueInv(s) && Next(parse, s, SendAnswer).Some?
    ensures QueueInv(Next(parse, s, SendAnswer).value)
  {
    if WriterAlive(s) {
      OneMoreLine(s.queued, s.dispatcher.line);
      SendKeepsOrder(s, s.dispatcher.line);
    }
  }

  lemma SendEventKeepsQueue(parse: Parser, s: State)
    requires QueueInv(s) && Next(parse, s, SendEvent).Some?
    ensures QueueInv(Next(parse, s, SendEvent).value)
  {
    if WriterAlive(s) {
      var line := Push(s.broadcast[s.forwarder.index]);
      OneMoreLine(s.queued, line);
      SendKeepsOrder(s, line);
    }
  }

  lemma WriterKeepsQueue(parse: Parser, s: State, e: Event)
    requires QueueInv(s) && Next(parse, s, e).Some?
    requires e.Take? || e.Write? || e.WriteError? || e.Drain?
    ensures QueueInv(Next(parse, s, e).value)
  {
    var t := Next(parse, s, e).value;
    if e.Take? {
      assert t.socket + InWriter(t) + t.channel == s.socket + InWriter(s) + s.channel;
    } else if e.Write? {
      assert t.socket + InWriter(t) + t.channel == s.socket + InWriter(s) + s.channel;
    } else if e.WriteError? {
      assert s.socket <= s.socket + InWriter(s) <= s.queued;
    }
  }

  lemma DispatcherKeepsQueue(parse: Parser, s: State, e: Event)
    requires QueueInv(s) && Next(parse, s, e).Some?
    requires e.ReadLine? || e.EndOfInput? || e.ReadError? || e.Handled?
    ensures QueueInv(Next(parse, s, e).value)
  {
    var t := Next(parse, s, e).value;
    var made := t.answers[|s.answers|..];
    assert t.answers == s.answers + made;
    assert t == s.(pos := t.pos, readFailed := t.readFailed, dispatcher := t.dispatcher, answers := t.answers);
  }

  /** Only sending changes the queue and what is written. */
  lemma ForwarderKeepsQueue(parse: Parser, s: State, e: Event)
    requires Next(parse, s, e).Some?
    requires e.Broadcast? || e.Receive? || e.Lag? || e.Abort?
    ensures var t := Next(parse, s, e).value;
      t == s.(forwarder := t.forwarder, broadcast := t.broadcast, cursor := t.cursor, skipped := t.skipped)
      && (s.forwarder.Stopped? ==> t.forwarder.Stopped?)
  {
  }

  lemma StepKeepsQueue(parse: Parser, s: State, e: Event)
    requires QueueInv(s) && Next(parse, s, e).Some?
    ensures QueueInv(Next(parse, s, e).value)
  {
    if e.SendAnswer? {
      SendAnswerKeepsQueue(parse, s);
    } else if e.SendEvent? {
      SendEventKeepsQueue(parse, s);
    } else if e.Take? || e.Write? || e.WriteError? || e.Drain? {
      WriterKeepsQueue(parse, s, e);
    } else if e.Broadcast? || e.Receive? || e.Lag? || e.Abort? {
      ForwarderKeepsQueue(parse, s, e);
    } else {
      DispatcherKeepsQueue(parse, s, e);
    }
  }

  lemma SendKeepsEvents(parse: Parser, s: State)
    requires EventsInv(s) && WriterAlive(s) && Next(parse, s, SendEvent).Some?
    ensures EventsInv(Next(parse, s, SendEvent).value)
  {
    var t := Next(parse, s, SendEvent).value;
    OneMoreLine(s.queued, Push(s.broadcast[s.forwarder.index]));
    assert Select(t.broadcast, t.forwarded) == Select(s.broadcast, s.forwarded) + [s.broadcast[s.forwarder.index]];
  }

  lemma ForwarderKeepsEvents(parse: Parser, s: State, e: Event)
    requires EventsInv(s) && QueueInv(s) && Next(parse, s, e).Some?
    requires (e.SendEvent? && !WriterAlive(s)) || e.Broadcast? || e.Receive? || e.Lag? || e.Abort?
    ensures EventsInv(Next(parse, s, e).value)
  {
    if e.Broadcast? {
      assert Select(s.broadcast + [e.event], s.forwarded) == Select(s.broadcast, s.forwarded);
    }
  }

  /** The dispatcher and the writer leave the events alone. */
  lemma OthersKeepEvents(parse: Parser, s: State, e: Event)
    requires EventsInv(s) && QueueInv(s) && Next(parse, s, e).Some?
    requires !e.SendEvent? && !e.Broadcast? && !e.Receive? && !e.Lag? && !e.Abort?
    ensures EventsInv(Next(parse, s, e).value)
  {
    var t := Next(parse, s, e).value;
    if e.SendAnswer? && WriterAlive(s) {
      OneMoreLine(s.queued, s.dispatcher.line);
    }
    assert t.broadcast == s.broadcast && t.cursor == s.cursor && t.forwarder == s.forwarder;
    assert t.forwarded == s.forwarded && t.skipped == s.skipped && t.dropped == s.dropped;
    assert PushesIn(t.queued) == PushesIn(s.queued);
  }

  lemma StepKeepsEvents(parse: Parser, s: State, e: Event)
    requires EventsInv(s) && QueueInv(s) && Next(parse, s, e).Some?
    ensures EventsInv(Next(parse, s, e).value)
  {
    if e.SendEvent? && WriterAlive(s) {
      SendKeepsEvents(parse, s);
    } else if e.SendEvent? || e.Broadcast? || e.Receive? || e.Lag? || e.Abort? {
      ForwarderKeepsEvents(parse, s, e);
    } else {
      OthersKeepEvents(parse, s, e);
    }
  }

  ghost predicate Inv(parse: Parser, s: State) {
    IdsInv(parse, s) && QueueInv(s) && EventsInv(s)
  }

  lemma {:induction false} RunKeepsInv(parse: Parser, s: State, events: seq<Event>)
    requires Inv(parse, s) && Run(parse, s, events).Some?
    ensures Inv(parse, Run(parse, s, events).value)
  {
    if events != [] {
      var init, e := events[..|events| - 1], events[|events| - 1];
      RunKeepsInv(parse, s, init);
      var t := Run(parse, s, init).value;
      StepKeepsIds(parse, t, e);
      StepKeepsQueue(parse, t, e);
      StepKeepsEvents(parse, t, e);
    }
  }

  lemma InitInv(parse: Parser, input: seq<string>)
    ensures Inv(parse, Init(input))
  {
    assert input[..0] == [];
  }

  lemma StepKeepsInput(parse: Parser, s: State, e: Event)
    requires Next(parse, s, e).Some?
    ensures Next(parse, s, e).value.input == s.input
  {
  }

  lemma {:induction false} RunKeepsInput(parse: Parser, s: State, events: seq<Event>)
    requires Run(parse, s, events).Some?
    ensures Run(parse, s, events).value.input == s.input
  {
    if events != [] {
      RunKeepsInput(parse, s, events[..|events| - 1]);
      StepKeepsInput(parse, Run(parse, s, events[..|events| - 1]).value, events[|events| - 1]);
    }
  }

  // ------------------------------------------------------------------
  // The protocol
  // ------------------------------------------------------------------

  /**
   * When the connection closes without a write error, the responses on the socket
   * are one per non-blank line read, in order, under the right ids, and every
   * queued line has been written; all input was read unless reading failed.
   */
  lemma AllAnsweredInOrder(parse: Parser, input: seq<string>, events: seq<Event>)
    requires Run(parse, Init(input), events).Some? && Run(parse, Init(input), events).value.writer.Finished?
    ensures var s := Run(parse, Init(input), events).value;
      && s.socket == s.queued
      && AnswersIn(s.socket) == s.answers
      && (forall i :: 0 <= i < |s.answers| ==> s.answers[i].Answer?)
      && s.pos <= |input|
      && IdsIn(s.answers) == ExpectedIds(parse, input[..s.pos])
      && (!s.readFailed ==> IdsIn(s.answers) == ExpectedIds(parse, input))
  {
    InitInv(parse, input);
    RunKeepsInv(parse, Init(input), events);
    RunKeepsInput(parse, Init(input), events);
    var s := Run(parse, Init(input), events).value;
    assert s.socket + InWriter(s) + s.channel == s.socket;
    assert input[..|input|] == input;
  }

  /**
   * At any time, write error or not, the responses on the socket are the first of those
   * made, which are the first of those due.
   */
  lemma AnswersArePrefix(parse: Parser, input: seq<string>, events: seq<Event>)
    requires Run(parse, Init(input), events).Some?
    ensures var s := Run(parse, Init(input), events).value;
      && s.pos <= |input| && s.socket <= s.queued
      && (forall i :: 0 <= i < |s.answers| ==> s.answers[i].Answer?)
      && AnswersIn(s.socket) <= s.answers
      && IdsIn(s.answers) <= ExpectedIds(parse, input[..s.pos])
  {
    InitInv(parse, input);
    RunKeepsInv(parse, Init(input), events);
    RunKeepsInput(parse, Init(input), events);
    var s := Run(parse, Init(input), events).value;
    assert s.socket <= s.queued;
    AnswersOfPrefix(s.socket, s.queued[|s.socket|..]);
    assert s.socket + s.queued[|s.socket|..] == s.queued;
  }

  /**
   * The events queued for the socket are broadcast ones, in order and none twice;
   * every event sent was forwarded, skipped by lag, is still unread or in hand, or
   * was dropped after a write error.
   */
  lemma EventsInOrder(parse: Parser, input: seq<string>, events: seq<Event>)
    requires Run(parse, Init(input), events).Some?
    ensures var s := Run(parse, Init(input), events).value;
      && s.cursor <= |s.broadcast|
      && Increasing(s.forwarded, |s.broadcast|)
      && PushesIn(s.queued) == Select(s.broadcast, s.forwarded)
      && |s.broadcast| == |s.forwarded| + s.skipped + (|s.broadcast| - s.cursor) + HeldCount(s) + s.dropped
      && (!s.writer.Failed? ==> s.dropped == 0)
  {
    InitInv(parse, input);
    RunKeepsInv(parse, Init(input), events);
  }

  lemma RunOneMore(parse: Parser, s: State, events: seq<Event>, t: State, e: Event)
    requires Run(parse, s, events) == Some(t)
    ensures Run(parse, s, events + [e]) == Next(parse, t, e)
  {
    assert (events + [e])[..|events|] == events;
  }

  /** The writer's remaining steps: two for each queued line. */
  function WorkLeft(s: State): nat {
    2 * |s.channel| + |InWriter(s)|
  }

  lemma AllWritten(parse: Parser, input: seq<string>, events: seq<Event>, s: State)
    requires Run(parse, Init(input), events) == Some(s) && s.writer.Ready? && s.channel == []
    ensures s.socket == s.queued
  {
    InitInv(parse, input);
    RunKeepsInv(parse, Init(input), events);
    assert s.socket + InWriter(s) + s.channel == s.socket;
  }

  /** Draining the last line ends the writer with everything written. */
  lemma DrainsLast(parse: Parser, input: seq<string>, events: seq<Event>, s: State)
    requires Run(parse, Init(input), events) == Some(s)
    requires s.writer.Ready? && s.channel == [] && s.dispatcher.Ended? && s.forwarder.Stopped?
    ensures Run(parse, Init(input), events + [Drain]) == Some(s.(writer := Finished)) && s.socket == s.queued
  {
    RunOneMore(parse, Init(input), events, s, Drain);
    AllWritten(parse, input, events, s);
  }

  /** Once the forwarder has stopped, the writer flushes what is queued and ends. */
  lemma {:induction false} StoppedDrains(parse: Parser, input: seq<string>, events: seq<Event>, s: State)
    returns (more: seq<Event>, t: State)
    requires Run(parse, Init(input), events) == Some(s)
    requires WriterAlive(s) && s.dispatcher.Ended? && s.forwarder.Stopped?
    ensures events <= more && Run(parse, Init(input), more) == Some(t)
    ensures t.writer.Finished? && t.socket == t.queued == s.queued
    ensures t.readFailed == s.readFailed && t.answers == s.answers
    decreases WorkLeft(s)
  {
    if s.writer.Ready? && s.channel == [] {
      DrainsLast(parse, input, events, s);
      more, t := events + [Drain], s.(writer := Finished);
    } else {
      var e := if s.writer.Writing? then Write else Take;
      RunOneMore(parse, Init(input), events, s, e);
      more, t := StoppedDrains(parse, input, events + [e], Next(parse, s, e).value);
    }
  }

  lemma HeldIsBroadcast(parse: Parser, input: seq<string>, events: seq<Event>, s: State)
    requires Run(parse, Init(input), events) == Some(s)
    ensures s.forwarder.Holding? ==> s.forwarder.index < |s.broadcast|
  {
    InitInv(parse, input);
    RunKeepsInv(parse, Init(input), events);
  }

  /** The forwarder hands over what it holds, and is then stopped. */
  lemma ForwarderStops(parse: Parser, input: seq<string>, events: seq<Event>, s: State)
    returns (more: seq<Event>, t: State)
    requires Run(parse, Init(input), events) == Some(s)
    requires WriterAlive(s) && s.dispatcher.Ended?
    requires s.forwarder.Holding? ==> s.forwarder.index < |s.broadcast|
    ensures events <= more && Run(parse, Init(input), more) == Some(t)
    ensures WriterAlive(t) && t.dispatcher.Ended? && t.forwarder.Stopped?
    ensures t.readFailed == s.readFailed && t.answers == s.answers
    ensures t.queued == s.queued + if s.forwarder.Holding? then [Push(s.broadcast[s.forwarder.index])] else []
  {
    more, t := events, s;
    if t.forwarder.Holding? {
      more, t := Then(parse, input, more, t, SendEvent);
    }
    if t.forwarder.Waiting? {
      more, t := Then(parse, input, more, t, Abort);
    }
  }

  /**
   * After the dispatcher has ended nothing keeps a living writer from flushing what
   * is queued, and the event that the forwarder still has in hand, before it ends.
   */
  lemma WriterDrains(parse: Parser, input: seq<string>, events: seq<Event>, s: State)
    returns (more: seq<Event>, t: State)
    requires Run(parse, Init(input), events) == Some(s)
    requires WriterAlive(s) && s.dispatcher.Ended?
    ensures events <= more && Run(parse, Init(input), more) == Some(t)
    ensures t.writer.Finished? && t.socket == t.queued
    ensures t.readFailed == s.readFailed && t.answers == s.answers
    ensures s.forwarder.Holding? ==> s.forwarder.index < |s.broadcast|
    ensures t.queued == s.queued + if s.forwarder.Holding? then [Push(s.broadcast[s.forwarder.index])] else []
  {
    HeldIsBroadcast(parse, input, events, s);
    more, t := ForwarderStops(parse, input, events, s);
    more, t := StoppedDrains(parse, input, more, t);
  }

  function Rank(d: Dispatcher): nat {
    match d
    case Reading => 1
    case Handling(_) => 3
    case Answering(_) => 2
    case Ended => 0
  }

  /** The dispatcher reads, handles and answers on to the end of the input. */
  lemma {:induction false} DispatcherEnds(parse: Parser, input: seq<string>, events: seq<Event>, s: State, reply: Reply)
    returns (more: seq<Event>, t: State)
    requires Run(parse, Init(input), events) == Some(s) && s.pos <= |s.input|
    ensures events <= more && Run(parse, Init(input), more) == Some(t)
    ensures t.dispatcher.Ended? && t.writer == s.writer && t.readFailed == s.readFailed
    ensures t.forwarder == s.forwarder && t.broadcast == s.broadcast
    decreases |s.input| - s.pos, Rank(s.dispatcher)
  {
    more, t := events, s;
    if !s.dispatcher.Ended? {
      var e :=
        match s.dispatcher
        case Reading => if s.pos < |s.input| then ReadLine else EndOfInput
        case Handling(_) => Handled(reply)
        case Answering(_) => SendAnswer
        case Ended => Drain;
      more, t := Then(parse, input, more, t, e);
      more, t := DispatcherEnds(parse, input, more, t, reply);
    }
  }

  /**
   * As long as nothing breaks, every run can be completed: all of the input is
   * answered, in order and under the right ids, and the writer ends with everything
   * on the socket.
   */
  lemma EverythingCanBeAnswered(parse: Parser, input: seq<string>, events: seq<Event>, s: State, reply: Reply)
    returns (more: seq<Event>, t: State)
    requires Run(parse, Init(input), events) == Some(s) && WriterAlive(s) && !s.readFailed
    ensures events <= more && Run(parse, Init(input), more) == Some(t)
    ensures t.writer.Finished? && t.socket == t.queued
    ensures forall i :: 0 <= i < |t.answers| ==> t.answers[i].Answer?
    ensures AnswersIn(t.socket) == t.answers && IdsIn(t.answers) == ExpectedIds(parse, input)
  {
    InitInv(parse, input);
    RunKeepsInv(parse, Init(input), events);
    more, t := DispatcherEnds(parse, input, events, s, reply);
    more, t := WriterDrains(parse, input, more, t);
    AllAnsweredInOrder(parse, input, more);
  }

  /** In particular there is such a run for every input. */
  lemma EveryInputHasItsAnswers(parse: Parser, input: seq<string>, reply: Reply)
    returns (events: seq<Event>, t: State)
    ensures Run(parse, Init(input), events) == Some(t) && t.writer.Finished? && !t.readFailed
    ensures forall i :: 0 <= i < |t.answers| ==> t.answers[i].Answer?
    ensures AnswersIn(t.socket) == t.answers && IdsIn(t.answers) == ExpectedIds(parse, input)
  {
    events, t := DispatcherEnds(parse, input, [], Init(input), reply);
    events, t := WriterDrains(parse, input, events, t);
    AllAnsweredInOrder(parse, input, events);
  }

  lemma PosInRange(parse: Parser, input: seq<string>, events: seq<Event>)
    requires Run(parse, Init(input), events).Some?
    ensures Run(parse, Init(input), events).value.pos <= |Run(parse, Init(input), events).value.input|
  {
    InitInv(parse, input);
    RunKeepsInv(parse, Init(input), events);
  }

  /** The forwarder stops at its next step. */
  lemma StopsAfterError(parse: Parser, input: seq<string>, events: seq<Event>, s: State)
    returns (more: seq<Event>, t: State)
    requires Run(parse, Init(input), events) == Some(s) && s.writer.Failed? && s.dispatcher.Ended?
    ensures events <= more && Run(parse, Init(input), more) == Some(t)
    ensures t.dispatcher.Ended? && t.forwarder.Stopped? && t.writer.Failed?
  {
    HeldIsBroadcast(parse, input, events, s);
    more, t := events, s;
    if t.forwarder.Holding? {
      more, t := Then(parse, input, more, t, SendEvent);
    } else if t.forwarder.Waiting? {
      more, t := Then(parse, input, more, t, Abort);
    }
  }

  /** After a write error dispatcher and forwarder can stop as well. */
  lemma WriteErrorEndsAll(parse: Parser, input: seq<string>, events: seq<Event>, s: State, reply: Reply)
    returns (more: seq<Event>, t: State)
    requires Run(parse, Init(input), events) == Some(s) && s.writer.Failed?
    ensures events <= more && Run(parse, Init(input), more) == Some(t)
    ensures t.dispatcher.Ended? && t.forwarder.Stopped? && t.writer.Failed?
  {
    PosInRange(parse, input, events);
    more, t := DispatcherEnds(parse, input, events, s, reply);
    more, t := StopsAfterError(parse, input, more, t);
  }

  lemma StepAfterError(parse: Parser, s: State, e: Event)
    requires s.writer.Failed? && Next(parse, s, e).Some?
    ensures var t := Next(parse, s, e).value; t.writer.Failed? && t.queued == s.queued && t.socket == s.socket
  {
  }

  /** Nothing is queued or written after a write error. */
  lemma {:induction false} NothingAfterError(parse: Parser, s: State, more: seq<Event>)
    requires s.writer.Failed? && Run(parse, s, more).Some?
    ensures var t := Run(parse, s, more).value; t.writer.Failed? && t.queued == s.queued && t.socket == s.socket
  {
    if more != [] {
      NothingAfterError(parse, s, more[..|more| - 1]);
      StepAfterError(parse, Run(parse, s, more[..|more| - 1]).value, more[|more| - 1]);
    }
  }

  /** A read error ends the connection too, and all responses made until then can still be written. */
  lemma ReadErrorStillDrains(parse: Parser, input: seq<string>, events: seq<Event>, s: State)
    returns (more: seq<Event>, t: State)
    requires Run(parse, Init(input), events) == Some(s) && WriterAlive(s) && s.dispatcher.Reading?
    ensures events + [ReadError] <= more && Run(parse, Init(input), more) == Some(t)
    ensures t.writer.Finished? && t.socket == t.queued && AnswersIn(t.socket) == t.answers == s.answers
  {
    more, t := Then(parse, input, events, s, ReadError);
    more, t := WriterDrains(parse, input, more, t);
    AllAnsweredInOrder(parse, input, more);
  }

  /** After `events`, the forwarder had more than 256 events to read. */
  ghost predicate FellBehind(parse: Parser, input: seq<string>, events: seq<Event>) {
    && Run(parse, Init(input), events).Some?
    && var s := Run(parse, Init(input), events).value; |s.broadcast| > s.cursor + 256
  }

  /** Events are skipped only if at some time more than 256 were unread, and then the newest 256 are kept. */
  lemma {:induction false} SkipsOnlyBehind(parse: Parser, input: seq<string>, events: seq<Event>)
    requires Run(parse, Init(input), events).Some?
    ensures var s := Run(parse, Init(input), events).value;
      && (s.skipped > 0 ==> exists i :: 0 <= i <= |events| && FellBehind(parse, input, events[..i]))
      && (Next(parse, s, Lag).Some? ==> Next(parse, s, Lag).value.cursor == |s.broadcast| - 256)
  {
    if events != [] {
      var init, e := events[..|events| - 1], events[|events| - 1];
      SkipsOnlyBehind(parse, input, init);
      var s := Run(parse, Init(input), init).value;
      if s.skipped > 0 {
        var i :| 0 <= i <= |init| && FellBehind(parse, input, init[..i]);
        assert init[..i] == events[..i];
      } else if Run(parse, Init(input), events).value.skipped > 0 {
        SkippedByLag(parse, s, e);
        assert events[..|init|] == init;
      }
    }
  }

  /** The forwarder reads on if at most 256 events are unread, and skips if there are more. */
  lemma RingOf256(parse: Parser, s: State)
    requires s.forwarder.Waiting?
    ensures Next(parse, s, Receive).Some? <==> 0 < |s.broadcast| - s.cursor <= 256
    ensures Next(parse, s, Lag).Some? <==> |s.broadcast| - s.cursor > 256
  {
  }

  lemma SkippedByLag(parse: Parser, s: State, e: Event)
    requires Next(parse, s, e).Some? && Next(parse, s, e).value.skipped > s.skipped
    ensures |s.broadcast| > s.cursor + 256
  {
  }

  /**
   * The client's documentation says that event lines arrive before the final
   * response. When the response is queued, all events broadcast so far are ahead
   * of it exactly if the forwarder has caught up and none was skipped.
   */
  lemma EventsPrecedeAnswerIff(parse: Parser, input: seq<string>, events: seq<Event>)
    requires Run(parse, Init(input), events).Some?
    requires var s := Run(parse, Init(input), events).value; s.dispatcher.Answering? && WriterAlive(s)
    ensures var s := Run(parse, Init(input), events).value;
      var t := Next(parse, s, SendAnswer).value;
      && t.queued == s.queued + [s.dispatcher.line]
      && (PushesIn(s.queued) == s.broadcast <==>
            s.cursor == |s.broadcast| && !s.forwarder.Holding? && s.skipped == 0)
  {
    EventsInOrder(parse, input, events);
    var s := Run(parse, Init(input), events).value;
    if |s.forwarded| == |s.broadcast| {
      InitInv(parse, input);
      RunKeepsInv(parse, Init(input), events);
      IncreasingIsIdentity(s.forwarded, |s.broadcast|);
    } else {
      assert |PushesIn(s.queued)| != |s.broadcast|;
    }
  }

  lemma {:induction false} IncreasingIsIdentity(indices: seq<nat>, n: nat)
    requires Increasing(indices, n) && |indices| == n
    ensures forall i :: 0 <= i < n ==> indices[i] == i
  {
    if n > 0 {
      assert indices[n - 1] >= n - 1 by {
        IncreasingIsAtLeast(indices, n, n - 1);
      }
      forall i | 0 <= i < n - 1 ensures indices[i] < n - 1 {
        assert indices[i] < indices[n - 1];
      }
      IncreasingIsIdentity(indices[..n - 1], n - 1);
      forall i | 0 <= i < n - 1 ensures indices[i] == i {
        assert indices[..n - 1][i] == indices[i];
      }
    }
  }

  lemma {:induction false} IncreasingIsAtLeast(indices: seq<nat>, n: nat, i: nat)
    requires Increasing(indices, n) && i < |indices|
    ensures indices[i] >= i
  {
    if i > 0 {
      IncreasingIsAtLeast(indices, n, i - 1);
      assert indices[i - 1] < indices[i];
    }
  }

  /** The writer takes the next queued line and writes it. */
  lemma WriteNext(parse: Parser, input: seq<string>, events: seq<Event>, s: State)
    returns (more: seq<Event>, t: State)
    requires Run(parse, Init(input), events) == Some(s) && s.writer.Ready? && s.channel != []
    ensures more == events + [Take, Write] && Run(parse, Init(input), more) == Some(t)
    ensures t == s.(channel := s.channel[1..], socket := s.socket + [s.channel[0]])
  {
    more, t := Then(parse, input, events, s, Take);
    more, t := Then(parse, input, more, t, Write);
    assert events + [Take] + [Write] == events + [Take, Write];
  }

  lemma EventDuringRequest(parse: Parser, line: string, event: IpcEvent, reply: Reply)
    returns (events: seq<Event>, s: State)
    requires Trim(line) != "" && parse(Trim(line)).Some?
    ensures events == [ReadLine, Broadcast(event), Handled(reply), SendAnswer]
    ensures Run(parse, Init([line]), events) == Some(s)
    ensures s.channel == [Answer(parse(Trim(line)).value.id, reply)] && s.socket == []
    ensures s.broadcast == [event] && s.cursor == 0 && s.forwarder.Waiting? && s.writer.Ready?
  {
    events, s := [], Init([line]);
    events, s := Then(parse, [line], events, s, ReadLine);
    events, s := Then(parse, [line], events, s, Broadcast(event));
    events, s := Then(parse, [line], events, s, Handled(reply));
    events, s := Then(parse, [line], events, s, SendAnswer);
  }

  /** An event broadcast while a request is handled can reach the client after the answer. */
  lemma AnswerOvertakesEvent(parse: Parser, line: string, event: IpcEvent, reply: Reply)
    returns (events: seq<Event>, s: State)
    requires Trim(line) != "" && parse(Trim(line)).Some?
    ensures [ReadLine, Broadcast(event), Handled(reply), SendAnswer] <= events
    ensures Run(parse, Init([line]), events) == Some(s)
    ensures s.socket == [Answer(parse(Trim(line)).value.id, reply), Push(event)]
  {
    events, s := EventDuringRequest(parse, line, event, reply);
    events, s := Then(parse, [line], events, s, Receive);
    events, s := Then(parse, [line], events, s, SendEvent);
    events, s := WriteNext(parse, [line], events, s);
    events, s := WriteNext(parse, [line], events, s);
  }

  lemma Then(parse: Parser, input: seq<string>, events: seq<Event>, s: State, e: Event)
    returns (more: seq<Event>, t: State)
    requires Run(parse, Init(input), events) == Some(s) && Next(parse, s, e).Some?
    ensures more == events + [e] && t == Next(parse, s, e).value && Run(parse, Init(input), more) == Some(t)
  {
    more, t := events + [e], Next(parse, s, e).value;
    RunOneMore(parse, Init(input), events, s, e);
  }
}
