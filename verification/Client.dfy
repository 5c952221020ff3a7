/**
 * The client's end of a connection: reading lines until the response to its one
 * request (src-tauri/src/ipc_client.rs).
 */
module Client {
  import opened Wrappers
  import opened Connection
  import Text

  const REQUEST_ID := "1"
  const PROGRESS := "backup_progress"

  datatype Body = Body(result: Option<string>, error: Option<IpcError>)

  /** A line once parsed: not JSON, with an event key, with a string id, or anything else. */
  datatype Item =
    | NotJson
    | EventItem(event: Option<IpcEvent>)
    | IdItem(id: string, body: Option<Body>)
    | OtherItem

  /** What one bounded read yields. */
  datatype Read = Elapsed | Broken | Received(item: Item)

  datatype ClientError =
    | TimedOut
    | ReadFailed
    | ClosedEarly
    | InvalidJson
    | MalformedResponse
    | FromDaemon(error: IpcError)

  /** The loop stream on after such a line. */
  predicate ReadsOn(r: Read) {
    r.Received? && (r.item.EventItem? || r.item.OtherItem? || (r.item.IdItem? && r.item.id != REQUEST_ID))
  }

  /** The number of leading stream after which the loop goes on. */
  function Answered(stream: seq<Read>): (k: nat)
    ensures k <= |stream|
    ensures forall i :: 0 <= i < k ==> ReadsOn(stream[i])
    ensures k < |stream| ==> !ReadsOn(stream[k])
  {
    if stream == [] || !ReadsOn(stream[0]) then 0 else 1 + Answered(stream[1..])
  }

  /** What the client returns for the read that ends the loop. */
  function Verdict(r: Read): Result<string, ClientError> {
    match r
    case Elapsed => Err(TimedOut)
    case Broken => Err(ReadFailed)
    case Received(IdItem(_, Some(Body(_, Some(error))))) => Err(FromDaemon(error))
    case Received(IdItem(_, Some(Body(result, None)))) => Ok(if result.Some? then result.value else "null")
    case Received(IdItem(_, None)) => Err(MalformedResponse)
    case Received(_) => Err(InvalidJson)
  }

  /** What the client returns for all its reads. */
  function ResultOf(stream: seq<Read>): Result<string, ClientError> {
    if Answered(stream) < |stream| then Verdict(stream[Answered(stream)]) else Err(ClosedEarly)
  }

  function Progress(r: Read): seq<string> {
    if r.Received? && r.item.EventItem? && r.item.event.Some? && r.item.event.value.event == PROGRESS
    then [r.item.event.value.data]
    else []
  }

  function AllProgress(stream: seq<Read>): seq<string> {
    if stream == [] then [] else AllProgress(stream[..|stream| - 1]) + Progress(stream[|stream| - 1])
  }

  /** One turn of the loop: what it returns, if it ends, and what it emits. */
  method TakeLine(r: Read, streaming: bool) returns (result: Option<Result<string, ClientError>>, emitted: seq<string>)
    ensures if ReadsOn(r) then result.None? else result == Some(Verdict(r))
    ensures emitted == if streaming then Progress(r) else []
  {
    emitted := [];
    match r
    case Elapsed => return Some(Err(TimedOut)), emitted;
    case Broken => return Some(Err(ReadFailed)), emitted;
    case Received(item) =>
      match item
      case NotJson => return Some(Err(InvalidJson)), emitted;
      case EventItem(event) =>
        if event.Some? && event.value.event == PROGRESS && streaming {
          emitted := [event.value.data];
        }
        return None, emitted;
      case IdItem(id, body) =>
        if id != REQUEST_ID {
          return None, emitted;
        }
        if body.None? {
          return Some(Err(MalformedResponse)), emitted;
        }
        if body.value.error.Some? {
          return Some(Err(FromDaemon(body.value.error.value))), emitted;
        }
        return Some(Ok(if body.value.result.Some? then body.value.result.value else "null")), emitted;
      case OtherItem => return None, emitted;
  }

  lemma AnsweredFrom(stream: seq<Read>, n: nat)
    requires n < |stream|
    ensures Answered(stream[n..]) == if ReadsOn(stream[n]) then 1 + Answered(stream[n + 1..]) else 0
  {
    assert stream[n..][0] == stream[n] && stream[n..][1..] == stream[n + 1..];
  }

  lemma ProgressBefore(stream: seq<Read>, n: nat)
    requires n < |stream|
    ensures AllProgress(stream[..n + 1]) == AllProgress(stream[..n]) + Progress(stream[n])
  {
    assert stream[..n + 1][..n] == stream[..n];
  }

  /** The loop of `send_inner`; the stream ends after the last of `stream`. */
  method SendInner(stream: seq<Read>, streaming: bool)
    returns (result: Result<string, ClientError>, emitted: seq<string>)
    ensures result == ResultOf(stream)
    ensures emitted == if streaming then AllProgress(stream[..Answered(stream)]) else []
  {
    emitted := [];
    assert stream[0..] == stream;
    for n := 0 to |stream|
      invariant Answered(stream) == n + Answered(stream[n..])
      invariant emitted == if streaming then AllProgress(stream[..n]) else []
    {
      AnsweredFrom(stream, n);
      ProgressBefore(stream, n);
      var ended, more := TakeLine(stream[n], streaming);
      if ended.Some? {
        return ended.value, emitted;
      }
      emitted := emitted + more;
    }
    assert stream[..|stream|] == stream;
    return Err(ClosedEarly), emitted;
  }

  // ------------------------------------------------------------------
  // Against the daemon
  // ------------------------------------------------------------------

  /** How the client sees a line of the daemon; a result that is null counts as absent. */
  function Seen(line: Line): Read {
    match line
    case Answer(id, Ok(value)) =>
      Received(IdItem(id, Some(Body(if value == "null" then None else Some(value), None))))
    case Answer(id, Err(error)) => Received(IdItem(id, Some(Body(None, Some(error)))))
    case Push(event) => Received(EventItem(Some(event)))
  }

  function AllSeen(lines: seq<Line>): (stream: seq<Read>)
    ensures |stream| == |lines| && forall i :: 0 <= i < |stream| ==> stream[i] == Seen(lines[i])
  {
    seq(|lines|, i requires 0 <= i < |lines| => Seen(lines[i]))
  }

  /** The client's result for a reply: the value, or the daemon's error. */
  function Returned(reply: Reply): Result<string, ClientError> {
    match reply
    case Ok(value) => Ok(value)
    case Err(error) => Err(FromDaemon(error))
  }

  function ProgressData(events: seq<IpcEvent>): seq<string> {
    if events == [] then []
    else
      var last := events[|events| - 1];
      ProgressData(events[..|events| - 1]) + if last.event == "backup_progress" then [last.data] else []
  }

  lemma ProgressOfLine(line: Line)
    ensures Progress(Seen(line)) == if line.Push? && line.event.event == PROGRESS then [line.event.data] else []
  {
  }

  lemma SeenPrefix(lines: seq<Line>, k: nat)
    requires k <= |lines|
    ensures AllSeen(lines)[..k] == AllSeen(lines[..k])
  {
  }

  lemma PushesOfPrefix(lines: seq<Line>, k: nat)
    requires k <= |lines|
    ensures PushesIn(lines[..k]) <= PushesIn(lines)
  {
    var a, b := lines[..k], lines[k..];
    assert lines == a + b;
    AnswersOfPrefix(a, b);
  }

  lemma PushesOfPrefixes(read: seq<Line>, socket: seq<Line>, queued: seq<Line>)
    requires read <= socket <= queued
    ensures PushesIn(read) <= PushesIn(queued)
  {
    assert queued[..|read|] == read;
    PushesOfPrefix(queued, |read|);
  }

  lemma ProgressOfOneMore(events: seq<IpcEvent>, event: IpcEvent)
    ensures ProgressData(events + [event]) ==
      ProgressData(events) + if event.event == PROGRESS then [event.data] else []
  {
    assert (events + [event])[..|events|] == events;
  }

  lemma {:induction false} ProgressSeen(lines: seq<Line>)
    ensures AllProgress(AllSeen(lines)) == ProgressData(PushesIn(lines))
  {
    if lines != [] {
      var init, last := lines[..|lines| - 1], lines[|lines| - 1];
      ProgressSeen(init);
      SeenPrefix(lines, |lines| - 1);
      ProgressOfLine(last);
      if last.Push? {
        ProgressOfOneMore(PushesIn(init), last.event);
      } else {
        assert PushesIn(lines) == PushesIn(init);
      }
    }
  }

  /** Where the only answer is, and that there are only events before it. */
  lemma {:induction false} OnlyAnswer(lines: seq<Line>, answer: Line) returns (k: nat)
    requires AnswersIn(lines) == [answer]
    ensures k < |lines| && lines[k] == answer && forall i :: 0 <= i < k ==> lines[i].Push?
  {
    var init, last := lines[..|lines| - 1], lines[|lines| - 1];
    if last.Answer? {
      assert |AnswersIn(init) + [last]| == 1 && AnswersIn(init) == [];
      assert [last][0] == [answer][0];
      NoAnswers(init);
      k := |lines| - 1;
    } else {
      k := OnlyAnswer(init, answer);
    }
  }

  lemma {:induction false} NoAnswers(lines: seq<Line>)
    requires AnswersIn(lines) == []
    ensures forall i :: 0 <= i < |lines| ==> lines[i].Push?
  {
    if lines != [] {
      NoAnswers(lines[..|lines| - 1]);
    }
  }

  lemma AnsweredAt(lines: seq<Line>, k: nat)
    requires k < |lines| && lines[k].Answer? && lines[k].id == REQUEST_ID
    requires forall i :: 0 <= i < k ==> lines[i].Push?
    ensures Answered(AllSeen(lines)) == k
  {
    var stream := AllSeen(lines);
    assert !ReadsOn(stream[k]);
    forall i | 0 <= i < k ensures ReadsOn(stream[i]) {
      assert stream[i] == Seen(lines[i]);
    }
  }

  /** One request with the client's id is one answer with that id. */
  lemma OneRequest(parse: Parser, line: string)
    requires Text.Trim(line) != "" && parse(Text.Trim(line)).Some? && parse(Text.Trim(line)).value.id == REQUEST_ID
    ensures ExpectedIds(parse, [line]) == [REQUEST_ID]
  {
    assert [line][..0] == [];
    assert ExpectedIds(parse, []) == [];
  }

  /** The only answer on the socket, if there is one, is the client's. */
  lemma SoleAnswer(parse: Parser, line: string, events: seq<Event>) returns (reply: Reply)
    requires Text.Trim(line) != "" && parse(Text.Trim(line)).Some? && parse(Text.Trim(line)).value.id == REQUEST_ID
    requires Run(parse, Init([line]), events).Some?
    requires AnswersIn(Run(parse, Init([line]), events).value.socket) != []
    ensures var s := Run(parse, Init([line]), events).value;
      s.answers == [Answer(REQUEST_ID, reply)] == AnswersIn(s.socket) && s.socket <= s.queued
  {
    AnswersArePrefix(parse, [line], events);
    OneRequest(parse, line);
    var s := Run(parse, Init([line]), events).value;
    assert [line][..1] == [line] && [line][..0] == [];
    assert |s.answers| == |IdsIn(s.answers)| <= |ExpectedIds(parse, [line][..s.pos])| <= 1;
    assert s.pos == 1;
    assert s.answers[0].id == IdsIn(s.answers)[0] == REQUEST_ID;
    reply := s.answers[0].reply;
  }

  /** A connection that closes without an error has written the client's answer. */
  lemma ClosedMeansAnswered(parse: Parser, line: string, events: seq<Event>)
    requires Text.Trim(line) != "" && parse(Text.Trim(line)).Some? && parse(Text.Trim(line)).value.id == REQUEST_ID
    requires Run(parse, Init([line]), events).Some?
    requires var s := Run(parse, Init([line]), events).value; s.writer.Finished? && !s.readFailed
    ensures AnswersIn(Run(parse, Init([line]), events).value.socket) != []
  {
    AllAnsweredInOrder(parse, [line], events);
    OneRequest(parse, line);
    var s := Run(parse, Init([line]), events).value;
    assert |s.answers| == |IdsIn(s.answers)| == 1;
  }

  /** Reading a socket with one answer stops there, the events before it having been seen. */
  lemma ReadUntilAnswer(socket: seq<Line>, reply: Reply) returns (k: nat)
    requires AnswersIn(socket) == [Answer(REQUEST_ID, reply)]
    ensures var stream := AllSeen(socket);
      && Answered(stream) == k < |stream|
      && socket[k] == Answer(REQUEST_ID, reply)
      && Verdict(stream[k]) == Returned(reply)
      && AllProgress(stream[..k]) == ProgressData(PushesIn(socket[..k]))
      && PushesIn(socket[..k]) <= PushesIn(socket)
  {
    k := OnlyAnswer(socket, Answer(REQUEST_ID, reply));
    AnsweredAt(socket, k);
    ProgressSeen(socket[..k]);
    SeenPrefix(socket, k);
    PushesOfPrefix(socket, k);
  }

  /** Reading up to an idle time-out after `j` lines. */
  lemma ElapsedAt(stream: seq<Read>, k: nat, j: nat)
    requires Answered(stream) == k < |stream| && j <= |stream|
    ensures ResultOf(stream[..j] + [Elapsed] + stream[j..]) == if j > k then Verdict(stream[k]) else Err(TimedOut)
  {
    var got := stream[..j] + [Elapsed] + stream[j..];
    var stop := if j > k then k else j;
    assert forall i :: 0 <= i < stop ==> got[i] == stream[i];
    StopsAt(got, stop);
  }

  lemma StopsAt(got: seq<Read>, k: nat)
    requires k < |got| && !ReadsOn(got[k]) && forall i :: 0 <= i < k ==> ReadsOn(got[i])
    ensures Answered(got) == k
  {
  }

  /**
   * If one of the client's reads elapses, after `j` lines, it returns the reply to its
   * request exactly if that line was among them, and reports the time-out otherwise.
   */
  lemma AnsweredUnlessElapsed(parse: Parser, line: string, events: seq<Event>, j: nat) returns (reply: Reply, k: nat)
    requires Text.Trim(line) != "" && parse(Text.Trim(line)).Some? && parse(Text.Trim(line)).value.id == REQUEST_ID
    requires Run(parse, Init([line]), events).Some?
    requires AnswersIn(Run(parse, Init([line]), events).value.socket) != []
    requires j <= |Run(parse, Init([line]), events).value.socket|
    ensures var s := Run(parse, Init([line]), events).value;
      var stream := AllSeen(s.socket);
      var result := ResultOf(stream[..j] + [Elapsed] + stream[j..]);
      && s.answers == [Answer(REQUEST_ID, reply)] && k < |s.socket| && s.socket[k] == Answer(REQUEST_ID, reply)
      && (result == Returned(reply) <==> j > k)
      && (j <= k ==> result == Err(TimedOut))
  {
    var s := Run(parse, Init([line]), events).value;
    reply := SoleAnswer(parse, line, events);
    k := ReadUntilAnswer(s.socket, reply);
    ElapsedAt(AllSeen(s.socket), k, j);
  }

  /**
   * End to end: as soon as an answer is on the socket, whatever becomes of the
   * connection then, the client returns exactly the reply made to its own request,
   * having re-emitted the progress among the events written before the answer, which
   * are broadcast ones in order, and nothing else, unless one of its reads elapses
   * before the answer (`AnsweredUnlessElapsed`).
   */
  lemma ClientGetsItsAnswer(parse: Parser, line: string, events: seq<Event>) returns (reply: Reply, k: nat)
    requires Text.Trim(line) != "" && parse(Text.Trim(line)).Some? && parse(Text.Trim(line)).value.id == REQUEST_ID
    requires Run(parse, Init([line]), events).Some?
    requires AnswersIn(Run(parse, Init([line]), events).value.socket) != []
    ensures var s := Run(parse, Init([line]), events).value;
      var stream := AllSeen(s.socket);
      && s.answers == [Answer(REQUEST_ID, reply)]
      && Answered(stream) == k < |stream|
      && Verdict(stream[k]) == Returned(reply)
      && AllProgress(stream[..k]) == ProgressData(PushesIn(s.socket[..k]))
      && Increasing(s.forwarded, |s.broadcast|)
      && PushesIn(s.socket[..k]) <= Select(s.broadcast, s.forwarded)
  {
    var s := Run(parse, Init([line]), events).value;
    reply := SoleAnswer(parse, line, events);
    k := ReadUntilAnswer(s.socket, reply);
    EventsInOrder(parse, [line], events);
    PushesOfPrefixes(s.socket[..k], s.socket, s.queued);
  }
}
