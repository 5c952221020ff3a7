/**
 * When scheduled backups run: the first delay, the tick loop and its restarts
 * (crates/backr-core/src/scheduler.rs).
 *
 * Instants and durations are in nanoseconds. Timers are prompt: time does not pass
 * the deadline of a live loop, nor while a live loop has not yet started sleeping.
 */
module Schedule {
  import opened Wrappers

  const SECOND: nat := 1_000_000_000
  const MIN_INITIAL_DELAY: nat := 60 * SECOND
  const U64_MAX: nat := 0xFFFF_FFFF_FFFF_FFFF

  // ------------------------------------------------------------------
  // The first delay
  // ------------------------------------------------------------------

  /** Whole seconds, truncated toward zero. */
  function WholeSeconds(nanos: int): int {
    if nanos >= 0 then nanos / SECOND else -(-nanos / SECOND)
  }

  function InitialDelay(last: Option<int>, interval: nat, now: int): nat {
    match last
    case None => MIN_INITIAL_DELAY
    case Some(l) =>
      var elapsed := WholeSeconds(now - l);
      if elapsed < 0 then interval
      else if elapsed * SECOND >= interval then 0
      else if interval - elapsed * SECOND > MIN_INITIAL_DELAY then interval - elapsed * SECOND
      else MIN_INITIAL_DELAY
  }

  function Max(a: int, b: int): int {
    if a >= b then a else b
  }

  /** The time since `last` in whole seconds has reached the interval. */
  predicate Overdue(last: Option<int>, interval: nat, now: int) {
    last.Some? && WholeSeconds(now - last.value) >= 0 && WholeSeconds(now - last.value) * SECOND >= interval
  }

  /** `last` is at least a second ahead of the clock. */
  predicate Skewed(last: Option<int>, now: int) {
    last.Some? && last.value - now >= SECOND
  }

  lemma WholeSecondsBounds(nanos: int)
    ensures nanos >= 0 ==> 0 <= WholeSeconds(nanos) * SECOND <= nanos < WholeSeconds(nanos) * SECOND + SECOND
    ensures nanos < 0 ==> WholeSeconds(nanos) * SECOND - SECOND < nanos <= WholeSeconds(nanos) * SECOND <= 0
    ensures WholeSeconds(nanos) < 0 <==> nanos + SECOND <= 0
  {
  }

  /**
   * The documentation promises a delay in [0, interval]. It is one exactly when
   * the interval is at least the settle time of a minute, as the caller sees to,
   * or the settle time is not used.
   */
  lemma DelayInRangeIff(last: Option<int>, interval: nat, now: int)
    ensures InitialDelay(last, interval, now) <= interval <==>
      interval >= MIN_INITIAL_DELAY || Skewed(last, now) || Overdue(last, interval, now)
  {
    if last.Some? {
      WholeSecondsBounds(now - last.value);
    }
  }

  /** With the clamp, the delay is zero exactly if a backup is overdue, and otherwise a minute at least. */
  lemma ZeroIffOverdue(last: Option<int>, interval: nat, now: int)
    requires interval >= MIN_INITIAL_DELAY
    ensures InitialDelay(last, interval, now) == 0 <==> Overdue(last, interval, now)
    ensures !Overdue(last, interval, now) ==> MIN_INITIAL_DELAY <= InitialDelay(last, interval, now) <= interval
  {
    DelayInRangeIff(last, interval, now);
  }

  /**
   * The first backup comes at once if it is overdue, and else when an interval has
   * passed since the last one or the settle time is over, a second late at most.
   */
  lemma FirstTickBounds(l: int, seconds: nat, now: int)
    requires seconds >= 60
    ensures var interval, tick := seconds * SECOND, now + InitialDelay(Some(l), seconds * SECOND, now);
      && (now >= l + interval ==> tick == now)
      && (l <= now < l + interval ==>
            Max(l + interval, now + MIN_INITIAL_DELAY) <= tick <= Max(l + interval + SECOND, now + MIN_INITIAL_DELAY))
      && (now < l ==> tick == now + interval)
  {
    WholeSecondsBounds(now - l);
    if now >= l + seconds * SECOND {
      assert WholeSeconds(now - l) >= seconds;
    }
  }

  // ------------------------------------------------------------------
  // Loops and restarts
  // ------------------------------------------------------------------

  datatype Config = Config(intervalHours: nat, last: Option<int>)

  /** The configured period, clamped to a minute from below (and to 64 bits). */
  function Period(cfg: Config): (p: nat)
    ensures p >= MIN_INITIAL_DELAY
  {
    var secs := if cfg.intervalHours * 3600 > U64_MAX then U64_MAX else cfg.intervalHours * 3600;
    (if secs < 60 then 60 else secs) * SECOND
  }

  datatype Stage = Unborn | Spawned | Sleeping(until: int) | Returned

  /** What became of a token or a handle: not stored yet, in its slot, taken out of it, or stored over. */
  datatype Place = Held | Stored | Taken | Lost

  /** A tick loop; `spawnedAt`, `fired`, `token` and `handle` are history. */
  datatype Loop = Loop(
    cfg: Config, cancelled: bool, aborted: bool, stage: Stage, spawnedAt: int, fired: seq<int>,
    token: Place, handle: Place
  )

  datatype CallStage =
    | TakingToken
    | TakingHandle
    | StoringToken
    | Spawning(loop: nat)
    | StoringHandle(loop: nat)
    | Finished

  datatype Call = Call(cfg: Option<Config>, stage: CallStage)

  datatype State = State(loops: seq<Loop>, tokenSlot: Option<nat>, handleSlot: Option<nat>, calls: seq<Call>, now: int)

  datatype Event =
    | Restart(cfg: Option<Config>)
    | Advance(call: nat)            // a call's next lock section
    | Compute(loop: nat)            // the loop starts its first sleep
    | Fire(loop: nat)
    | Return(loop: nat)             // the loop sees that it was cancelled
    | Tick(nanos: nat)

  function Init(now: int): State {
    State([], None, None, [], now)
  }

  predicate IsLive(l: Loop) {
    !l.cancelled && !l.aborted && (l.stage.Spawned? || l.stage.Sleeping?)
  }

  function Cancel(loops: seq<Loop>, slot: Option<nat>): (r: seq<Loop>)
    ensures |r| == |loops|
  {
    if slot.Some? && slot.value < |loops|
    then loops[slot.value := loops[slot.value].(cancelled := true, token := Taken)] else loops
  }

  function Abort(loops: seq<Loop>, slot: Option<nat>): (r: seq<Loop>)
    ensures |r| == |loops|
  {
    if slot.Some? && slot.value < |loops|
    then loops[slot.value := loops[slot.value].(aborted := true, handle := Taken)] else loops
  }

  /** Storing another token drops the one in the slot, which stops nothing. */
  function DropToken(loops: seq<Loop>, slot: Option<nat>): (r: seq<Loop>)
    ensures |r| == |loops|
  {
    if slot.Some? && slot.value < |loops|
    then loops[slot.value := loops[slot.value].(token := Lost)] else loops
  }

  /** Storing another handle drops the one in the slot, which detaches its loop. */
  function DropHandle(loops: seq<Loop>, slot: Option<nat>): (r: seq<Loop>)
    ensures |r| == |loops|
  {
    if slot.Some? && slot.value < |loops|
    then loops[slot.value := loops[slot.value].(handle := Lost)] else loops
  }

  function SetCall(s: State, c: nat, stage: CallStage): State
    requires c < |s.calls|
  {
    s.(calls := s.calls[c := s.calls[c].(stage := stage)])
  }

  /** One lock section of `restart_scheduler`. */
  function AdvanceCall(s: State, c: nat): Option<State>
    requires c < |s.calls|
  {
    var call := s.calls[c];
    match call.stage
    case TakingToken => Some(SetCall(s, c, TakingHandle).(loops := Cancel(s.loops, s.tokenSlot), tokenSlot := None))
    case TakingHandle =>
      Some(SetCall(s, c, if call.cfg.Some? then StoringToken else Finished).(
        loops := Abort(s.loops, s.handleSlot), handleSlot := None))
    case StoringToken =>
      if call.cfg.None? then None
      else
        Some(SetCall(s, c, Spawning(|s.loops|)).(
          loops := DropToken(s.loops, s.tokenSlot) +
            [Loop(call.cfg.value, false, false, Unborn, s.now, [], Stored, Held)],
          tokenSlot := Some(|s.loops|)))
    case Spawning(i) =>
      if i < |s.loops| && s.loops[i].stage.Unborn?
      then Some(SetCall(s, c, StoringHandle(i)).(
        loops := s.loops[i := s.loops[i].(stage := Spawned, spawnedAt := s.now)]))
      else None
    case StoringHandle(i) =>
      if i >= |s.loops| then None
      else
        var dropped := DropHandle(s.loops, s.handleSlot);
        Some(SetCall(s, c, Finished).(
          loops := dropped[i := dropped[i].(handle := Stored)], handleSlot := Some(i)))
    case Finished => None
  }

  predicate AllFinished(s: State) {
    forall c :: 0 <= c < |s.calls| ==> s.calls[c].stage.Finished?
  }

  /** One step; with `serial`, a call of `restart_scheduler` begins only after the one before it has returned. */
  function Next(serial: bool, s: State, e: Event): Option<State> {
    match e
    case Restart(cfg) =>
      if serial && !AllFinished(s) then None else Some(s.(calls := s.calls + [Call(cfg, TakingToken)]))
    case Advance(c) => if c < |s.calls| then AdvanceCall(s, c) else None
    case Compute(i) =>
      if !(i < |s.loops| && s.loops[i].stage.Spawned? && !s.loops[i].aborted) then None
      else
        var l := s.loops[i];
        Some(s.(loops := s.loops[i := l.(stage := Sleeping(s.now + InitialDelay(l.cfg.last, Period(l.cfg), s.now)))]))
    case Fire(i) =>
      if !(i < |s.loops| && s.loops[i].stage.Sleeping? && !s.loops[i].aborted && s.now >= s.loops[i].stage.until)
      then None
      else
        var l := s.loops[i];
        Some(s.(loops := s.loops[i := l.(stage := Sleeping(s.now + Period(l.cfg)), fired := l.fired + [s.now])]))
    case Return(i) =>
      if i < |s.loops| && s.loops[i].stage.Sleeping? && s.loops[i].cancelled
      then Some(s.(loops := s.loops[i := s.loops[i].(stage := Returned)]))
      else None
    case Tick(nanos) =>
      if forall i :: 0 <= i < |s.loops| && IsLive(s.loops[i]) ==>
           s.loops[i].stage.Sleeping? && s.now + nanos <= s.loops[i].stage.until
      then Some(s.(now := s.now + nanos))
      else None
  }

  function Run(serial: bool, s: State, events: seq<Event>): Option<State> {
    if events == [] then Some(s)
    else
      match Run(serial, s, events[..|events| - 1])
      case None => None
      case Some(t) => Next(serial, t, events[|events| - 1])
  }

  /** Some interleaving from an empty scheduler leads to `s`. */
  ghost predicate Reachable(serial: bool, s: State) {
    exists start, events :: Run(serial, Init(start), events) == Some(s)
  }

  // ------------------------------------------------------------------
  // Invariants
  // ------------------------------------------------------------------

  function Deadline(l: Loop): int {
    if l.fired == [] then l.spawnedAt + InitialDelay(l.cfg.last, Period(l.cfg), l.spawnedAt)
    else l.fired[|l.fired| - 1] + Period(l.cfg)
  }

  /** A live loop fires after its first delay and then once every period, exactly. */
  ghost predicate OnSchedule(l: Loop, now: int) {
    && l.spawnedAt <= now
    && (l.stage.Spawned? ==> l.spawnedAt == now && l.fired == [])
    && (l.stage.Sleeping? ==> l.stage.until == Deadline(l) && now <= l.stage.until)
    && (l.fired != [] ==> l.fired[0] == l.spawnedAt + InitialDelay(l.cfg.last, Period(l.cfg), l.spawnedAt))
    && (forall k :: 0 < k < |l.fired| ==> l.fired[k] == l.fired[k - 1] + Period(l.cfg))
  }

  ghost predicate TimeInv(s: State) {
    forall i :: 0 <= i < |s.loops| ==>
      && (IsLive(s.loops[i]) ==> OnSchedule(s.loops[i], s.now))
      && (s.loops[i].stage.Unborn? ==> s.loops[i].fired == [])
  }

  ghost predicate Stopped(l: Loop) {
    l.cancelled && l.aborted
  }

  /** The stage of the one call in progress, if any. */
  function Phase(s: State): CallStage {
    if s.calls == [] then Finished else s.calls[|s.calls| - 1].stage
  }

  /** Calls before the last one have returned. */
  ghost predicate Serial(s: State) {
    forall c :: 0 <= c < |s.calls| - 1 ==> s.calls[c].stage.Finished?
  }

  /** Loop `i` is the current one; all others are stopped. */
  ghost predicate Current(s: State, i: nat, born: bool) {
    && i < |s.loops|
    && !s.loops[i].cancelled && !s.loops[i].aborted
    && (if born then IsLive(s.loops[i]) else s.loops[i].stage.Unborn?)
    && forall k :: 0 <= k < |s.loops| && k != i ==> Stopped(s.loops[k])
  }

  ghost predicate AllStopped(s: State) {
    forall k :: 0 <= k < |s.loops| ==> Stopped(s.loops[k])
  }

  /** What the slots hold between the lock sections of a restart. */
  ghost predicate SlotInv(s: State) {
    match Phase(s)
    case TakingToken => Settled(s)
    case Finished => Settled(s)
    case TakingHandle =>
      && s.tokenSlot.None?
      && (forall k :: 0 <= k < |s.loops| ==> s.loops[k].cancelled)
      && (forall k :: 0 <= k < |s.loops| && s.handleSlot != Some(k) ==> s.loops[k].aborted)
    case StoringToken => s.tokenSlot.None? && s.handleSlot.None? && AllStopped(s)
    case Spawning(i) => s.tokenSlot == Some(i) && s.handleSlot.None? && Current(s, i, false) && Configured(s, i)
    case StoringHandle(i) => s.tokenSlot == Some(i) && s.handleSlot.None? && Current(s, i, true) && Configured(s, i)
  }

  /** The loop runs under the configuration of the last call. */
  ghost predicate Configured(s: State, i: nat) {
    i < |s.loops| && s.calls != [] && s.calls[|s.calls| - 1].cfg == Some(s.loops[i].cfg)
  }

  ghost predicate Settled(s: State) {
    && s.handleSlot == s.tokenSlot
    && (if s.tokenSlot.Some? then Current(s, s.tokenSlot.value, true) else AllStopped(s))
  }

  lemma TakingKeepsSlots(s: State, c: nat)
    requires Serial(s) && SlotInv(s) && c < |s.calls| && AdvanceCall(s, c).Some?
    requires s.calls[c].stage.TakingToken? || s.calls[c].stage.TakingHandle?
    ensures Serial(AdvanceCall(s, c).value) && SlotInv(AdvanceCall(s, c).value)
  {
    assert c == |s.calls| - 1;
  }

  lemma StoringKeepsSlots(s: State, c: nat)
    requires Serial(s) && SlotInv(s) && c < |s.calls| && AdvanceCall(s, c).Some?
    requires !s.calls[c].stage.TakingToken? && !s.calls[c].stage.TakingHandle?
    ensures Serial(AdvanceCall(s, c).value) && SlotInv(AdvanceCall(s, c).value)
  {
    assert c == |s.calls| - 1;
  }

  /** Loops that go on or return, and the time, leave slots and calls alone. */
  lemma LoopStepKeepsSlots(s: State, e: Event)
    requires Serial(s) && SlotInv(s) && Next(true, s, e).Some?
    requires e.Compute? || e.Fire? || e.Return? || e.Tick?
    ensures Serial(Next(true, s, e).value) && SlotInv(Next(true, s, e).value)
  {
    LoopStepKeepsLoops(s, e);
  }

  lemma LoopStepKeepsLoops(s: State, e: Event)
    requires Next(true, s, e).Some? && (e.Compute? || e.Fire? || e.Return? || e.Tick?)
    ensures var t := Next(true, s, e).value;
      && t == s.(loops := t.loops, now := t.now) && |t.loops| == |s.loops|
      && forall i :: 0 <= i < |s.loops| ==>
          && t.loops[i].cancelled == s.loops[i].cancelled && t.loops[i].aborted == s.loops[i].aborted
          && t.loops[i].cfg == s.loops[i].cfg
          && IsLive(t.loops[i]) == IsLive(s.loops[i])
          && (t.loops[i].stage.Unborn? <==> s.loops[i].stage.Unborn?)
  {
  }

  lemma StepKeepsSlots(s: State, e: Event)
    requires Serial(s) && SlotInv(s) && Next(true, s, e).Some?
    ensures Serial(Next(true, s, e).value) && SlotInv(Next(true, s, e).value)
  {
    match e
    case Advance(c) =>
      if s.calls[c].stage.TakingToken? || s.calls[c].stage.TakingHandle? {
        TakingKeepsSlots(s, c);
      } else {
        StoringKeepsSlots(s, c);
      }
    case Restart(_) =>
    case _ => LoopStepKeepsSlots(s, e);
  }

  /** Restarts make new loops or change what is not on the schedule. */
  lemma AdvanceLeavesTimes(s: State, c: nat, i: nat)
    requires c < |s.calls| && AdvanceCall(s, c).Some? && i < |AdvanceCall(s, c).value.loops|
    ensures var t := AdvanceCall(s, c).value;
      && t.now == s.now
      && (i < |s.loops| ==>
            var was, now := s.loops[i], t.loops[i];
            && now.cfg == was.cfg && now.fired == was.fired
            && (IsLive(now) ==>
                  if was.stage.Unborn? then now.stage.Spawned? && now.spawnedAt == s.now
                  else IsLive(was) && now.stage == was.stage && now.spawnedAt == was.spawnedAt)
            && (now.stage.Unborn? ==> was.stage.Unborn?))
      && (i >= |s.loops| ==> t.loops[i].stage.Unborn? && t.loops[i].fired == [])
  {
  }

  lemma AdvanceKeepsTime(s: State, c: nat, i: nat)
    requires TimeInv(s) && c < |s.calls| && AdvanceCall(s, c).Some? && i < |AdvanceCall(s, c).value.loops|
    ensures var t := AdvanceCall(s, c).value;
      && (IsLive(t.loops[i]) ==> OnSchedule(t.loops[i], t.now))
      && (t.loops[i].stage.Unborn? ==> t.loops[i].fired == [])
  {
    AdvanceLeavesTimes(s, c, i);
  }

  lemma LoopKeepsTime(serial: bool, s: State, e: Event, i: nat)
    requires TimeInv(s) && Next(serial, s, e).Some? && !e.Advance? && i < |Next(serial, s, e).value.loops|
    ensures var t := Next(serial, s, e).value;
      && (IsLive(t.loops[i]) ==> OnSchedule(t.loops[i], t.now))
      && (t.loops[i].stage.Unborn? ==> t.loops[i].fired == [])
  {
    if e.Fire? && e.loop == i {
      FireKeepsTime(s.loops[i], s.now);
    } else if IsLive(s.loops[i]) {
      assert OnSchedule(s.loops[i], s.now);
    }
  }

  lemma FireKeepsTime(l: Loop, now: int)
    requires IsLive(l) ==> OnSchedule(l, now)
    requires l.stage.Sleeping? && now >= l.stage.until
    ensures IsLive(l) ==> OnSchedule(l.(stage := Sleeping(now + Period(l.cfg)), fired := l.fired + [now]), now)
  {
  }

  lemma StepKeepsTime(serial: bool, s: State, e: Event)
    requires TimeInv(s) && Next(serial, s, e).Some?
    ensures TimeInv(Next(serial, s, e).value)
  {
    var t := Next(serial, s, e).value;
    forall i | 0 <= i < |t.loops|
      ensures IsLive(t.loops[i]) ==> OnSchedule(t.loops[i], t.now)
      ensures t.loops[i].stage.Unborn? ==> t.loops[i].fired == []
    {
      if e.Advance? {
        AdvanceKeepsTime(s, e.call, i);
      } else {
        LoopKeepsTime(serial, s, e, i);
      }
    }
  }

  lemma {:induction false} RunKeepsInv(start: int, events: seq<Event>)
    requires Run(true, Init(start), events).Some?
    ensures var s := Run(true, Init(start), events).value; Serial(s) && SlotInv(s)
  {
    if events != [] {
      RunKeepsInv(start, events[..|events| - 1]);
      StepKeepsSlots(Run(true, Init(start), events[..|events| - 1]).value, events[|events| - 1]);
    }
  }

  lemma {:induction false} RunKeepsTime(serial: bool, start: int, events: seq<Event>)
    requires Run(serial, Init(start), events).Some?
    ensures TimeInv(Run(serial, Init(start), events).value)
  {
    if events != [] {
      RunKeepsTime(serial, start, events[..|events| - 1]);
      StepKeepsTime(serial, Run(serial, Init(start), events[..|events| - 1]).value, events[|events| - 1]);
    }
  }

  // ------------------------------------------------------------------
  // The schedule
  // ------------------------------------------------------------------

  /**
   * Once restarts that did not overlap have returned, exactly one loop is live if
   * the scheduler has a loop at all, namely the one in the slots; the others can
   * neither fire nor start.
   */
  lemma OneLiveLoop(s: State)
    requires Reachable(true, s) && AllFinished(s)
    ensures s.handleSlot == s.tokenSlot
    ensures s.tokenSlot.Some? ==> s.tokenSlot.value < |s.loops|
    ensures forall i :: 0 <= i < |s.loops| ==> (IsLive(s.loops[i]) <==> s.tokenSlot == Some(i))
    ensures forall i :: 0 <= i < |s.loops| && s.tokenSlot != Some(i) ==>
      Next(true, s, Fire(i)).None? && Next(true, s, Compute(i)).None?
  {
    var start, events :| Run(true, Init(start), events) == Some(s);
    RunKeepsInv(start, events);
  }

  /** A call returns after emptying the slots, without a configuration, or after filling them. */
  lemma ReturnsFrom(s: State, c: nat)
    requires c < |s.calls| && AdvanceCall(s, c).Some? && AdvanceCall(s, c).value.calls[c].stage.Finished?
    ensures s.calls[c].stage.StoringHandle? || (s.calls[c].stage.TakingHandle? && s.calls[c].cfg.None?)
    ensures AdvanceCall(s, c).value.tokenSlot == s.tokenSlot
    ensures s.calls[c].stage.StoringHandle? ==>
      var t := AdvanceCall(s, c).value;
      && |t.loops| == |s.loops|
      && forall i :: 0 <= i < |s.loops| ==> t.loops[i] == s.loops[i].(handle := t.loops[i].handle)
  {
  }

  /** A restart that returns leaves a live loop exactly if it was given a configuration, and that loop runs under it. */
  lemma LiveIffConfigured(s: State, c: nat)
    requires Reachable(true, s) && c < |s.calls| && AdvanceCall(s, c).Some?
    requires AdvanceCall(s, c).value.calls[c].stage.Finished?
    ensures var t := AdvanceCall(s, c).value;
      && t.tokenSlot.Some? == s.calls[c].cfg.Some?
      && (t.tokenSlot.Some? ==>
            t.tokenSlot.value < |t.loops| && IsLive(t.loops[t.tokenSlot.value])
            && t.loops[t.tokenSlot.value].cfg == s.calls[c].cfg.value)
  {
    var start, events :| Run(true, Init(start), events) == Some(s);
    RunKeepsInv(start, events);
    ReturnsFrom(s, c);
    assert c == |s.calls| - 1 && Phase(s) == s.calls[c].stage;
  }

  /**
   * The loop ticks every `seconds` seconds, exactly, the first time at its start if
   * that time has passed since the last backup, and else when it has passed, or a
   * minute after its start if that is later, a second late at most; a minute after its
   * start if there was no backup yet, and in full if the last one lies in the future.
   */
  ghost predicate TicksEvery(l: Loop, now: int, seconds: nat) {
    var p, minute, second := seconds * 1_000_000_000, 60_000_000_000, 1_000_000_000;
    var due := if l.cfg.last.Some? then l.cfg.last.value + p else l.spawnedAt;
    && (forall k :: 0 < k < |l.fired| ==> l.fired[k] == l.fired[k - 1] + p)
    && (l.fired != [] ==> now <= l.fired[|l.fired| - 1] + p)
    && (l.cfg.last.Some? && l.spawnedAt >= due ==>
          if l.fired == [] then now == l.spawnedAt else l.fired[0] == l.spawnedAt)
    && (l.cfg.last.Some? && l.cfg.last.value <= l.spawnedAt < due ==>
          if l.fired == [] then now <= Max(due + second, l.spawnedAt + minute)
          else Max(due, l.spawnedAt + minute) <= l.fired[0] <= Max(due + second, l.spawnedAt + minute))
    && (l.cfg.last.Some? && l.spawnedAt < l.cfg.last.value ==>
          if l.fired == [] then now <= l.spawnedAt + p else l.fired[0] == l.spawnedAt + p)
    && (l.cfg.last.None? ==>
          if l.fired == [] then now <= l.spawnedAt + minute else l.fired[0] == l.spawnedAt + minute)
  }

  lemma TicksEveryPeriod(l: Loop, now: int, seconds: nat)
    requires OnSchedule(l, now) && IsLive(l) && Period(l.cfg) == seconds * 1_000_000_000
    ensures TicksEvery(l, now, seconds)
  {
    if l.cfg.last.Some? {
      FirstTickBounds(l.cfg.last.value, seconds, l.spawnedAt);
    }
  }

  /**
   * At every time, for every series of restarts, a live loop ticks once in the
   * configured number of hours; with 0 hours, once a minute, and with more hours
   * than 64 bits of seconds hold, once in that many seconds.
   */
  lemma TicksOnSchedule(serial: bool, s: State, i: nat)
    requires Reachable(serial, s) && i < |s.loops| && IsLive(s.loops[i])
    ensures var l := s.loops[i];
      var hours := l.cfg.intervalHours;
      && (1 <= hours && hours * 3600 <= 0xFFFF_FFFF_FFFF_FFFF ==> TicksEvery(l, s.now, hours * 3600))
      && (hours == 0 ==> TicksEvery(l, s.now, 60))
      && (hours * 3600 > 0xFFFF_FFFF_FFFF_FFFF ==> TicksEvery(l, s.now, 0xFFFF_FFFF_FFFF_FFFF))
  {
    var start, events :| Run(serial, Init(start), events) == Some(s);
    RunKeepsTime(serial, start, events);
    TicksByHours(s.loops[i], s.now);
  }

  lemma TicksByHours(l: Loop, now: int)
    requires OnSchedule(l, now) && IsLive(l)
    ensures var hours := l.cfg.intervalHours;
      && (1 <= hours && hours * 3600 <= 0xFFFF_FFFF_FFFF_FFFF ==> TicksEvery(l, now, hours * 3600))
      && (hours == 0 ==> TicksEvery(l, now, 60))
      && (hours * 3600 > 0xFFFF_FFFF_FFFF_FFFF ==> TicksEvery(l, now, 0xFFFF_FFFF_FFFF_FFFF))
  {
    PeriodInSeconds(l.cfg);
    var hours := l.cfg.intervalHours;
    if hours == 0 {
      TicksEveryPeriod(l, now, 60);
    } else if hours * 3600 <= 0xFFFF_FFFF_FFFF_FFFF {
      TicksEveryPeriod(l, now, hours * 3600);
    } else {
      TicksEveryPeriod(l, now, 0xFFFF_FFFF_FFFF_FFFF);
    }
  }

  lemma PeriodInSeconds(cfg: Config)
    ensures var hours, nanos := cfg.intervalHours, Period(cfg);
      && (1 <= hours && hours * 3600 <= 0xFFFF_FFFF_FFFF_FFFF ==> nanos == hours * 3600 * 1_000_000_000)
      && (hours == 0 ==> nanos == 60 * 1_000_000_000)
      && (hours * 3600 > 0xFFFF_FFFF_FFFF_FFFF ==> nanos == 0xFFFF_FFFF_FFFF_FFFF * 1_000_000_000)
  {
  }

  // ------------------------------------------------------------------
  // Time never stands still
  // ------------------------------------------------------------------

  /** How many steps a loop takes before time passes again. */
  function Owed(l: Loop, now: int): nat {
    if !IsLive(l) then 0
    else if l.stage.Spawned? then 2
    else if l.stage.until <= now then 1 else 0
  }

  function AllOwed(loops: seq<Loop>, now: int): nat {
    if loops == [] then 0 else AllOwed(loops[..|loops| - 1], now) + Owed(loops[|loops| - 1], now)
  }

  lemma {:induction false} OwedAfterUpdate(loops: seq<Loop>, i: nat, l: Loop, now: int)
    requires i < |loops|
    ensures AllOwed(loops[i := l], now) == AllOwed(loops, now) - Owed(loops[i], now) + Owed(l, now)
  {
    var init := loops[..|loops| - 1];
    if i == |loops| - 1 {
      assert loops[i := l][..|loops| - 1] == init;
    } else {
      assert loops[i := l][..|loops| - 1] == init[i := l];
      OwedAfterUpdate(init, i, l, now);
    }
  }

  lemma {:induction false} NothingOwed(loops: seq<Loop>, now: int) returns (next: Option<int>)
    requires forall i :: 0 <= i < |loops| ==> Owed(loops[i], now) == 0
    ensures forall i :: 0 <= i < |loops| && IsLive(loops[i]) ==>
      loops[i].stage.Sleeping? && next.Some? && next.value <= loops[i].stage.until
    ensures next.Some? ==> next.value > now
  {
    next := None;
    if loops != [] {
      var last := loops[|loops| - 1];
      next := NothingOwed(loops[..|loops| - 1], now);
      assert forall i :: 0 <= i < |loops| - 1 ==> loops[..|loops| - 1][i] == loops[i];
      if IsLive(last) && (next.None? || last.stage.until < next.value) {
        next := Some(last.stage.until);
      }
    }
  }

  lemma OneMore(serial: bool, s: State, events: seq<Event>, t: State, e: Event) returns (more: seq<Event>, u: State)
    requires Run(serial, s, events) == Some(t) && Next(serial, t, e).Some?
    ensures more == events + [e] && u == Next(serial, t, e).value && Run(serial, s, more) == Some(u)
  {
    more, u := events + [e], Next(serial, t, e).value;
    assert more[..|events|] == events;
  }

  /** A loop that owes a step can take it, and owes one less. */
  lemma StepOwed(serial: bool, t: State, i: nat) returns (e: Event)
    requires i < |t.loops| && Owed(t.loops[i], t.now) > 0
    ensures e.Compute? || e.Fire?
    ensures Next(serial, t, e).Some?
    ensures var u := Next(serial, t, e).value;
      u.now == t.now && AllOwed(u.loops, u.now) < AllOwed(t.loops, t.now)
  {
    e := if t.loops[i].stage.Spawned? then Compute(i) else Fire(i);
    var u := Next(serial, t, e).value;
    OwedAfterUpdate(t.loops, i, u.loops[i], t.now);
  }

  lemma {:induction false} TimeGoesOn(serial: bool, s: State, events: seq<Event>, t: State, nanos: nat)
    returns (more: seq<Event>, u: State)
    requires Run(serial, s, events) == Some(t)
    ensures Run(serial, s, more) == Some(u) && u.now == t.now + nanos
    ensures forall e :: e in more ==> e in events || e.Compute? || e.Fire? || e.Tick?
    decreases nanos, AllOwed(t.loops, t.now)
  {
    if i: nat :| i < |t.loops| && Owed(t.loops[i], t.now) > 0 {
      var e := StepOwed(serial, t, i);
      more, u := OneMore(serial, s, events, t, e);
      more, u := TimeGoesOn(serial, s, more, u, nanos);
    } else {
      var next := NothingOwed(t.loops, t.now);
      var wait := if next.Some? && next.value < t.now + nanos then next.value - t.now else nanos;
      more, u := OneMore(serial, s, events, t, Tick(wait));
      if wait < nanos {
        more, u := TimeGoesOn(serial, s, more, u, nanos - wait);
      }
    }
  }

  /** In every state any time can pass, live loops ticking meanwhile as they should. */
  lemma TimeCanPass(serial: bool, s: State, nanos: nat) returns (more: seq<Event>, t: State)
    ensures Run(serial, s, more) == Some(t) && t.now == s.now + nanos
    ensures forall e :: e in more ==> e.Compute? || e.Fire? || e.Tick?
  {
    more, t := TimeGoesOn(serial, s, [], s, nanos);
  }

  // ------------------------------------------------------------------
  // Restarts that overlap
  // ------------------------------------------------------------------

  /** A token or handle is in its slot exactly if it says so, and those taken were used. */
  ghost predicate LoopInv(s: State, i: nat)
    requires i < |s.loops|
  {
    var l := s.loops[i];
    && !l.token.Held?
    && (l.token.Stored? <==> s.tokenSlot == Some(i))
    && (l.cancelled <==> l.token.Taken?)
    && (l.handle.Stored? <==> s.handleSlot == Some(i))
    && (l.aborted <==> l.handle.Taken?)
    && (l.stage.Unborn? ==> l.handle.Held?)
    && (l.stage.Returned? ==> l.cancelled)
    && (l.handle.Held? ==> exists c :: Starts(s, c, i))
  }

  /** Call `c` is about to spawn loop `i`, or to store its handle. */
  predicate Starts(s: State, c: int, i: nat) {
    0 <= c < |s.calls| && LoopOf(s.calls[c].stage) == Some(i)
  }

  function LoopOf(stage: CallStage): Option<nat> {
    match stage
    case Spawning(i) => Some(i)
    case StoringHandle(i) => Some(i)
    case _ => None
  }

  ghost predicate StartInv(s: State, c: nat)
    requires c < |s.calls|
  {
    LoopOf(s.calls[c].stage).Some? ==>
      var i := LoopOf(s.calls[c].stage).value;
      && i < |s.loops| && s.loops[i].handle.Held?
      && (s.loops[i].stage.Unborn? <==> s.calls[c].stage.Spawning?)
      && forall d :: Starts(s, d, i) ==> d == c
  }

  ghost predicate OverlapInv(s: State) {
    && (forall i :: 0 <= i < |s.loops| ==> LoopInv(s, i))
    && (forall c :: 0 <= c < |s.calls| ==> StartInv(s, c))
    && (s.tokenSlot.Some? ==> s.tokenSlot.value < |s.loops|)
    && (s.handleSlot.Some? ==> s.handleSlot.value < |s.loops|)
  }

  lemma TokenStepKeepsLoop(s: State, c: nat, i: nat)
    requires OverlapInv(s) && c < |s.calls| && (s.calls[c].stage.TakingToken? || s.calls[c].stage.StoringToken?)
    requires AdvanceCall(s, c).Some? && i < |AdvanceCall(s, c).value.loops|
    ensures LoopInv(AdvanceCall(s, c).value, i)
  {
    var t := AdvanceCall(s, c).value;
    if i < |s.loops| {
      assert LoopInv(s, i);
      if t.loops[i].handle.Held? {
        var d :| Starts(s, d, i);
        assert Starts(t, d, i);
      }
    } else {
      assert Starts(t, c, i);
    }
  }

  lemma SpawnKeepsLoop(s: State, c: nat, i: nat)
    requires OverlapInv(s) && c < |s.calls| && s.calls[c].stage.Spawning?
    requires AdvanceCall(s, c).Some? && i < |AdvanceCall(s, c).value.loops|
    ensures LoopInv(AdvanceCall(s, c).value, i)
  {
    var t := AdvanceCall(s, c).value;
    assert StartInv(s, c);
    assert LoopInv(s, i);
    if t.loops[i].handle.Held? {
      var d :| Starts(s, d, i);
      assert Starts(t, d, i);
    }
  }

  lemma HandleStepKeepsLoop(s: State, c: nat, i: nat)
    requires OverlapInv(s) && c < |s.calls| && (s.calls[c].stage.TakingHandle? || s.calls[c].stage.StoringHandle?)
    requires AdvanceCall(s, c).Some? && i < |AdvanceCall(s, c).value.loops|
    ensures LoopInv(AdvanceCall(s, c).value, i)
  {
    var t := AdvanceCall(s, c).value;
    assert StartInv(s, c);
    assert LoopInv(s, i);
    if t.loops[i].handle.Held? {
      var d :| Starts(s, d, i);
      assert Starts(t, d, i);
    }
  }

  lemma StepKeepsLoop(serial: bool, s: State, e: Event, i: nat)
    requires OverlapInv(s) && Next(serial, s, e).Some? && i < |Next(serial, s, e).value.loops|
    ensures LoopInv(Next(serial, s, e).value, i)
  {
    var t := Next(serial, s, e).value;
    if e.Advance? {
      if s.calls[e.call].stage.TakingToken? || s.calls[e.call].stage.StoringToken? {
        TokenStepKeepsLoop(s, e.call, i);
      } else if s.calls[e.call].stage.Spawning? {
        SpawnKeepsLoop(s, e.call, i);
      } else {
        HandleStepKeepsLoop(s, e.call, i);
      }
    } else {
      assert LoopInv(s, i);
      if t.loops[i].handle.Held? {
        var d :| Starts(s, d, i);
        assert Starts(t, d, i);
      }
    }
  }

  /** A call keeps its loop from spawning it until its handle is stored; a new loop is nobody else's. */
  lemma AdvanceStarts(s: State, c: nat, d: int, i: nat)
    requires c < |s.calls| && AdvanceCall(s, c).Some? && Starts(AdvanceCall(s, c).value, d, i)
    ensures Starts(s, d, i) || (d == c && i == |s.loops| && s.calls[c].stage.StoringToken?)
  {
  }

  lemma OneStarter(s: State, c: nat, d: nat, b: int, i: nat)
    requires OverlapInv(s) && c < |s.calls| && AdvanceCall(s, c).Some?
    requires Starts(AdvanceCall(s, c).value, d, i) && Starts(AdvanceCall(s, c).value, b, i)
    ensures b == d
  {
    AdvanceStarts(s, c, d, i);
    AdvanceStarts(s, c, b, i);
    assert Starts(s, b, i) ==> StartInv(s, b);
    assert Starts(s, d, i) ==> StartInv(s, d);
  }

  lemma AdvanceKeepsStart(s: State, c: nat, d: nat)
    requires OverlapInv(s) && c < |s.calls| && AdvanceCall(s, c).Some? && d < |s.calls|
    ensures StartInv(AdvanceCall(s, c).value, d)
  {
    var t := AdvanceCall(s, c).value;
    if LoopOf(t.calls[d].stage).Some? {
      var i := LoopOf(t.calls[d].stage).value;
      StartedIsHeld(s, c, d, i);
      forall b | Starts(t, b, i) ensures b == d {
        OneStarter(s, c, d, b, i);
      }
    }
  }

  lemma StartedIsHeld(s: State, c: nat, d: nat, i: nat)
    requires OverlapInv(s) && c < |s.calls| && AdvanceCall(s, c).Some? && Starts(AdvanceCall(s, c).value, d, i)
    ensures var t := AdvanceCall(s, c).value;
      i < |t.loops| && t.loops[i].handle.Held? && (t.loops[i].stage.Unborn? <==> t.calls[d].stage.Spawning?)
  {
    AdvanceStarts(s, c, d, i);
    assert StartInv(s, c) && StartInv(s, d);
    assert i < |s.loops| ==> LoopInv(s, i);
  }

  lemma StepKeepsStart(serial: bool, s: State, e: Event, c: nat)
    requires OverlapInv(s) && Next(serial, s, e).Some? && c < |Next(serial, s, e).value.calls|
    ensures StartInv(Next(serial, s, e).value, c)
  {
    var t := Next(serial, s, e).value;
    if e.Advance? {
      AdvanceKeepsStart(s, e.call, c);
    } else if LoopOf(t.calls[c].stage).Some? {
      var i := LoopOf(t.calls[c].stage).value;
      assert StartInv(s, c);
      forall d | Starts(t, d, i) ensures d == c {
        assert Starts(s, d, i);
      }
    }
  }

  lemma StepKeepsOverlap(serial: bool, s: State, e: Event)
    requires OverlapInv(s) && Next(serial, s, e).Some?
    ensures OverlapInv(Next(serial, s, e).value)
  {
    var t := Next(serial, s, e).value;
    forall i | 0 <= i < |t.loops| ensures LoopInv(t, i) {
      StepKeepsLoop(serial, s, e, i);
    }
    forall c | 0 <= c < |t.calls| ensures StartInv(t, c) {
      StepKeepsStart(serial, s, e, c);
    }
  }

  lemma {:induction false} RunKeepsOverlap(serial: bool, start: int, events: seq<Event>)
    requires Run(serial, Init(start), events).Some?
    ensures OverlapInv(Run(serial, Init(start), events).value)
  {
    if events != [] {
      RunKeepsOverlap(serial, start, events[..|events| - 1]);
      StepKeepsOverlap(serial, Run(serial, Init(start), events[..|events| - 1]).value, events[|events| - 1]);
    }
  }

  /**
   * However restarts overlap: once all have returned, a loop is live exactly if
   * neither its token nor its handle was taken. Hence a loop that is in neither slot
   * stays live exactly if both were stored over.
   */
  lemma LiveIffStoredOver(serial: bool, s: State, i: nat)
    requires Reachable(serial, s) && AllFinished(s) && i < |s.loops|
    ensures IsLive(s.loops[i]) <==> !s.loops[i].token.Taken? && !s.loops[i].handle.Taken?
    ensures s.tokenSlot != Some(i) && s.handleSlot != Some(i) ==>
      (IsLive(s.loops[i]) <==> s.loops[i].token.Lost? && s.loops[i].handle.Lost?)
  {
    var start, events :| Run(serial, Init(start), events) == Some(s);
    RunKeepsOverlap(serial, start, events);
    assert LoopInv(s, i);
  }

  // ------------------------------------------------------------------
  // Restarts return, and loops that have ended stay so
  // ------------------------------------------------------------------

  /** A call without a configuration gets no further than emptying the slots. */
  ghost predicate CallsInv(s: State) {
    forall c :: 0 <= c < |s.calls| && s.calls[c].cfg.None? ==>
      s.calls[c].stage in {TakingToken, TakingHandle, Finished}
  }

  lemma {:induction false} RunKeepsCalls(serial: bool, start: int, events: seq<Event>)
    requires Run(serial, Init(start), events).Some?
    ensures CallsInv(Run(serial, Init(start), events).value)
  {
    if events != [] {
      RunKeepsCalls(serial, start, events[..|events| - 1]);
      StepKeepsCalls(serial, Run(serial, Init(start), events[..|events| - 1]).value, events[|events| - 1]);
    }
  }

  lemma StepKeepsCalls(serial: bool, s: State, e: Event)
    requires CallsInv(s) && Next(serial, s, e).Some?
    ensures CallsInv(Next(serial, s, e).value)
  {
    if e.Advance? {
      AdvanceKeepsCalls(s, e.call);
    }
  }

  lemma AdvanceKeepsCalls(s: State, c: nat)
    requires CallsInv(s) && c < |s.calls| && AdvanceCall(s, c).Some?
    ensures CallsInv(AdvanceCall(s, c).value)
  {
    var t := AdvanceCall(s, c).value;
    forall d | 0 <= d < |t.calls| && t.calls[d].cfg.None?
      ensures t.calls[d].stage in {TakingToken, TakingHandle, Finished}
    {
      assert d < |s.calls| && s.calls[d].cfg == t.calls[d].cfg;
    }
  }

  function Remaining(stage: CallStage): nat {
    match stage
    case TakingToken => 5
    case TakingHandle => 4
    case StoringToken => 3
    case Spawning(_) => 2
    case StoringHandle(_) => 1
    case Finished => 0
  }

  lemma AdvancesCloser(s: State, c: nat)
    requires OverlapInv(s) && CallsInv(s) && c < |s.calls| && !s.calls[c].stage.Finished?
    ensures AdvanceCall(s, c).Some?
    ensures var t := AdvanceCall(s, c).value;
      && |t.calls| == |s.calls| && Remaining(t.calls[c].stage) < Remaining(s.calls[c].stage)
      && |s.loops| <= |t.loops| && (s.calls[c].cfg.None? ==> |t.loops| == |s.loops|)
      && t.calls[c].cfg == s.calls[c].cfg
  {
    assert StartInv(s, c);
  }

  lemma {:induction false} CallGoesOn(serial: bool, s: State, events: seq<Event>, t: State, c: nat)
    returns (more: seq<Event>, u: State)
    requires Run(serial, s, events) == Some(t) && OverlapInv(t) && CallsInv(t) && c < |t.calls|
    ensures Run(serial, s, more) == Some(u) && c < |u.calls| && u.calls[c].stage.Finished?
    ensures |more| <= |events| + Remaining(t.calls[c].stage)
    ensures forall e :: e in more ==> e in events || e == Advance(c)
    ensures t.calls[c].cfg.None? ==> |u.loops| == |t.loops|
    decreases Remaining(t.calls[c].stage)
  {
    more, u := events, t;
    if !t.calls[c].stage.Finished? {
      AdvancesCloser(t, c);
      StepKeepsOverlap(serial, t, Advance(c));
      StepKeepsCalls(serial, t, Advance(c));
      more, u := OneMore(serial, s, events, t, Advance(c));
      more, u := CallGoesOn(serial, s, more, u, c);
    }
  }

  /** A restart can always return, by at most five steps of its own, and without a configuration starts no loop. */
  lemma RestartCanReturn(serial: bool, s: State, c: nat) returns (more: seq<Event>, t: State)
    requires Reachable(serial, s) && c < |s.calls|
    ensures Run(serial, s, more) == Some(t) && c < |t.calls| && t.calls[c].stage.Finished?
    ensures |more| <= 5 && forall e :: e in more ==> e == Advance(c)
    ensures s.calls[c].cfg.None? ==> |t.loops| == |s.loops|
  {
    var start, events :| Run(serial, Init(start), events) == Some(s);
    RunKeepsOverlap(serial, start, events);
    RunKeepsCalls(serial, start, events);
    more, t := CallGoesOn(serial, s, [], s, c);
  }

  predicate HasEnded(l: Loop) {
    l.aborted || l.stage.Returned?
  }

  lemma AdvanceKeepsEnded(s: State, c: nat, i: nat)
    requires c < |s.calls| && AdvanceCall(s, c).Some? && i < |s.loops| && HasEnded(s.loops[i])
    ensures var t := AdvanceCall(s, c).value;
      i < |t.loops| && HasEnded(t.loops[i]) && t.loops[i].fired == s.loops[i].fired
  {
  }

  lemma StepKeepsEnded(serial: bool, s: State, e: Event, i: nat)
    requires Next(serial, s, e).Some? && i < |s.loops| && HasEnded(s.loops[i])
    ensures var t := Next(serial, s, e).value;
      i < |t.loops| && HasEnded(t.loops[i]) && t.loops[i].fired == s.loops[i].fired
  {
    if e.Advance? {
      AdvanceKeepsEnded(s, e.call, i);
    }
  }

  lemma {:induction false} EndedStays(serial: bool, s: State, more: seq<Event>, i: nat)
    requires Run(serial, s, more).Some? && i < |s.loops| && HasEnded(s.loops[i])
    ensures var t := Run(serial, s, more).value;
      i < |t.loops| && HasEnded(t.loops[i]) && t.loops[i].fired == s.loops[i].fired
  {
    if more != [] {
      var init := more[..|more| - 1];
      EndedStays(serial, s, init, i);
      StepKeepsEnded(serial, Run(serial, s, init).value, more[|more| - 1], i);
    }
  }

  /** A loop that sees that it was cancelled, or that is aborted, never ticks again. */
  lemma NeverTicksAgain(serial: bool, s: State, e: Event, i: nat, more: seq<Event>)
    requires Next(serial, s, e).Some? && i < |s.loops| && Run(serial, Next(serial, s, e).value, more).Some?
    requires e == Return(i) || (e.Advance? && s.calls[e.call].stage.TakingHandle? && s.handleSlot == Some(i))
    ensures var t := Run(serial, Next(serial, s, e).value, more).value;
      && i < |t.loops| && t.loops[i].fired == s.loops[i].fired
      && Next(serial, t, Fire(i)).None? && Next(serial, t, Compute(i)).None?
  {
    EndedStays(serial, Next(serial, s, e).value, more, i);
  }

  lemma Then(s: State, e: Event) returns (t: State)
    requires Reachable(false, s) && Next(false, s, e).Some?
    ensures t == Next(false, s, e).value && Reachable(false, t)
  {
    t := Next(false, s, e).value;
    var start, events :| Run(false, Init(start), events) == Some(s);
    assert (events + [e])[..|events|] == events;
    assert Run(false, Init(start), events + [e]) == Some(t);
  }

  /** Two calls that have both found the slots empty. */
  lemma BothFoundNothing(cfg: Config) returns (s: State)
    ensures Reachable(false, s)
    ensures s == State([], None, None, [Call(Some(cfg), StoringToken), Call(Some(cfg), StoringToken)], 0)
  {
    s := Init(0);
    assert Run(false, Init(0), []) == Some(s);
    s := Then(s, Restart(Some(cfg)));
    s := Then(s, Restart(Some(cfg)));
    s := Then(s, Advance(0));
    s := Then(s, Advance(0));
    s := Then(s, Advance(1));
    s := Then(s, Advance(1));
  }

  /** The first of them has then filled the slots. */
  lemma FirstFinished(cfg: Config) returns (s: State)
    ensures Reachable(false, s)
    ensures s == State(
      [Loop(cfg, false, false, Spawned, 0, [], Stored, Stored)], Some(0), Some(0),
      [Call(Some(cfg), Finished), Call(Some(cfg), StoringToken)], 0)
  {
    s := BothFoundNothing(cfg);
    s := Then(s, Advance(0));
    s := Then(s, Advance(0));
    s := Then(s, Advance(0));
  }

  /** When two restarts overlap, both of their loops may stay live, and only one of them is in the slots. */
  lemma OverlappingRestartsLeaveTwoLoops(cfg: Config) returns (s: State)
    ensures Reachable(false, s) && AllFinished(s)
    ensures |s.loops| == 2 && IsLive(s.loops[0]) && IsLive(s.loops[1]) && s.tokenSlot == s.handleSlot == Some(1)
    ensures s.loops[0].token.Lost? && s.loops[0].handle.Lost?
  {
    s := FirstFinished(cfg);
    s := Then(s, Advance(1));
    s := Then(s, Advance(1));
    s := Then(s, Advance(1));
  }
}
