/**
 * The life of pairing windows as a concurrent step system: `start_pairing`, stop
 * requests, expiry timers and serve threads
 * (crates/backrd/src/ipc/handlers.rs, crates/backr-core/src/pairing/mod.rs and
 * listener.rs, crates/backrd/src/daemon_state.rs).
 *
 * Calls of `start_pairing` do not overlap. Every access to a slot is one step: its
 * lock is released in the same statement, except that a serve thread keeps the
 * session lock while it processes a request. Timers are prompt: time does not pass
 * while one is due, nor between storing a window and starting its timer.
 */
module PairingWindow {
  import opened Wrappers

  const PAIRING_TTL: nat := 180

  // ------------------------------------------------------------------
  // States
  // ------------------------------------------------------------------

  datatype Fate = Unstored | InSlot | TakenByServe | TakenByStop | Overwritten

  datatype Thread = NotStarted | Serving | Processing | TakingRuntime | ClearingSession | Exited

  /** One runtime with its thread; `takes` counts how often it left the slot to be torn down. */
  datatype Window = Window(fate: Fate, thread: Thread, unblocked: bool, storedAt: nat, takes: nat)

  datatype Starter =
    | Idle | TakingOld | JoiningOld(w: nat) | ClearingOld | Opening
    | StoringSession | StartingThread | StoringRuntime | StartingTimer

  /** While clearing, a closer knows the window that it has closed, if there was one. */
  datatype Stage = Asleep | Checking | Taking | Joining(w: nat) | Clearing(own: Option<nat>) | Gone

  /** A stop request, or the timer of window `timerOf`. */
  datatype Closer = Closer(timerOf: Option<nat>, deadline: nat, stage: Stage)

  datatype State = State(
    windows: seq<Window>,
    slot: Option<nat>,
    session: Option<nat>,
    sessionOwner: Option<nat>,
    starter: Starter,
    closers: seq<Closer>,
    now: nat
  )

  const INIT: State := State([], None, None, None, Idle, [], 0)

  datatype Event =
    | Begin | StartTake | StartJoined | StartClear | Fail | Open
    | StoreSession | StartThread | StoreRuntime | StartTimer
    | Stop | Wake(c: nat) | Check(c: nat) | Take(c: nat) | Joined(c: nat) | Clear(c: nat)
    | Lock(w: nat) | Respond(w: nat, paired: bool) | Leave(w: nat) | ThreadTake(w: nat) | ThreadClear(w: nat)
    | Tick(seconds: nat)

  /** Takes the runtime out of its slot; a stopper also unblocks its server. */
  function TakeSlot(s: State, fate: Fate, unblock: bool): State {
    match s.slot
    case None => s
    case Some(w) =>
      if w >= |s.windows| then s
      else
        var win := s.windows[w];
        s.(slot := None,
           windows := s.windows[w := win.(fate := fate, takes := win.takes + 1, unblocked := win.unblocked || unblock)])
  }

  function SetThread(s: State, w: nat, t: Thread): State
    requires w < |s.windows|
  {
    s.(windows := s.windows[w := s.windows[w].(thread := t)])
  }

  function SetStage(s: State, c: nat, stage: Stage): State
    requires c < |s.closers|
  {
    s.(closers := s.closers[c := s.closers[c].(stage := stage)])
  }

  predicate HasExited(s: State, w: nat) {
    w < |s.windows| && s.windows[w].thread.Exited?
  }

  predicate ThreadIs(s: State, w: nat, t: Thread) {
    w < |s.windows| && s.windows[w].thread == t
  }

  predicate StageIs(s: State, c: nat, stage: Stage) {
    c < |s.closers| && s.closers[c].stage == stage
  }

  /** A timer that is due has not yet looked at the slot, or not yet emptied it. */
  predicate IsDue(s: State, c: Closer) {
    c.timerOf.Some? && ((c.stage.Asleep? && s.now >= c.deadline) || c.stage.Checking? || c.stage.Taking?)
  }

  function StartStep(s: State, e: Event): Option<State> {
    match e
    case Begin => if s.starter.Idle? then Some(s.(starter := TakingOld)) else None
    case StartTake =>
      if !s.starter.TakingOld? then None
      else
        var t := TakeSlot(s, TakenByStop, true);
        Some(t.(starter := if s.slot.Some? then JoiningOld(s.slot.value) else ClearingOld))
    case StartJoined =>
      if s.starter.JoiningOld? && HasExited(s, s.starter.w) then Some(s.(starter := ClearingOld)) else None
    case StartClear =>
      if s.starter.ClearingOld? && s.sessionOwner.None? then Some(s.(starter := Opening, session := None)) else None
    case Fail => if s.starter.Opening? then Some(s.(starter := Idle)) else None
    case Open =>
      if s.starter.Opening?
      then Some(s.(starter := StoringSession, windows := s.windows + [Window(Unstored, NotStarted, false, 0, 0)]))
      else None
    case StoreSession =>
      if s.starter.StoringSession? && s.windows != [] && s.sessionOwner.None?
      then Some(s.(starter := StartingThread, session := Some(|s.windows| - 1)))
      else None
    case StartThread =>
      if s.starter.StartingThread? && s.windows != []
      then Some(SetThread(s, |s.windows| - 1, Serving).(starter := StoringRuntime))
      else None
    case StoreRuntime =>
      if !(s.starter.StoringRuntime? && s.windows != []) then None
      else
        // Assigning over a runtime that is still in the slot would drop it unclosed.
        var kept := if s.slot.Some? && s.slot.value < |s.windows|
          then s.windows[s.slot.value := s.windows[s.slot.value].(fate := Overwritten)] else s.windows;
        var w := |s.windows| - 1;
        Some(s.(
          starter := StartingTimer, slot := Some(w),
          windows := kept[w := kept[w].(fate := InSlot, storedAt := s.now)]))
    case StartTimer =>
      if s.starter.StartingTimer? && s.windows != []
      then Some(s.(
        starter := Idle, closers := s.closers + [Closer(Some(|s.windows| - 1), s.now + PAIRING_TTL, Asleep)]))
      else None
    case _ => None
  }

  function CloserStep(s: State, e: Event): Option<State> {
    match e
    case Stop => Some(s.(closers := s.closers + [Closer(None, 0, Taking)]))
    case Wake(c) =>
      if StageIs(s, c, Asleep) && s.now >= s.closers[c].deadline then Some(SetStage(s, c, Checking)) else None
    case Check(c) =>
      if StageIs(s, c, Checking) then Some(SetStage(s, c, if s.slot.Some? then Taking else Gone)) else None
    case Take(c) =>
      if StageIs(s, c, Taking)
      then
        Some(SetStage(
          TakeSlot(s, TakenByStop, true), c, if s.slot.Some? then Joining(s.slot.value) else Clearing(None)))
      else None
    case Joined(c) =>
      if c < |s.closers| && s.closers[c].stage.Joining? && HasExited(s, s.closers[c].stage.w)
      then Some(SetStage(s, c, Clearing(Some(s.closers[c].stage.w))))
      else None
    case Clear(c) =>
      if c < |s.closers| && s.closers[c].stage.Clearing? && s.sessionOwner.None?
      then Some(SetStage(s, c, Gone).(session := None))
      else None
    case _ => None
  }

  function ThreadStep(s: State, e: Event): Option<State> {
    match e
    case Lock(w) =>
      if ThreadIs(s, w, Serving) && s.sessionOwner.None?
      then Some(SetThread(s, w, Processing).(sessionOwner := Some(w)))
      else None
    case Respond(w, paired) =>
      if ThreadIs(s, w, Processing) && (paired ==> s.session.Some?)
      then Some(SetThread(s, w, if paired then TakingRuntime else Serving).(sessionOwner := None))
      else None
    case Leave(w) =>
      if ThreadIs(s, w, Serving) && s.windows[w].unblocked then Some(SetThread(s, w, Exited)) else None
    case ThreadTake(w) =>
      if ThreadIs(s, w, TakingRuntime)
      then Some(SetThread(TakeSlot(s, TakenByServe, false), w, ClearingSession))
      else None
    case ThreadClear(w) =>
      if ThreadIs(s, w, ClearingSession) && s.sessionOwner.None?
      then Some(SetThread(s, w, Exited).(session := None))
      else None
    case _ => None
  }

  function Next(s: State, e: Event): Option<State> {
    match e
    case Tick(seconds) =>
      if !s.starter.StartingTimer? && forall i :: 0 <= i < |s.closers| ==>
           && !IsDue(s, s.closers[i])
           && (s.closers[i].stage.Asleep? ==> s.now + seconds <= s.closers[i].deadline)
      then Some(s.(now := s.now + seconds))
      else None
    case Stop => CloserStep(s, e)
    case Wake(_) => CloserStep(s, e)
    case Check(_) => CloserStep(s, e)
    case Take(_) => CloserStep(s, e)
    case Joined(_) => CloserStep(s, e)
    case Clear(_) => CloserStep(s, e)
    case Lock(_) => ThreadStep(s, e)
    case Respond(_, _) => ThreadStep(s, e)
    case Leave(_) => ThreadStep(s, e)
    case ThreadTake(_) => ThreadStep(s, e)
    case ThreadClear(_) => ThreadStep(s, e)
    case _ => StartStep(s, e)
  }

  function Run(s: State, events: seq<Event>): Option<State> {
    if events == [] then Some(s)
    else
      match Run(s, events[..|events| - 1])
      case None => None
      case Some(t) => Next(t, events[|events| - 1])
  }

  // ------------------------------------------------------------------
  // Invariants
  // ------------------------------------------------------------------

  /** The starter has emptied the slot and not stored its own window yet. */
  predicate BeforeStore(st: Starter) {
    st.JoiningOld? || st.ClearingOld? || st.Opening? || st.StoringSession? || st.StartingThread? || st.StoringRuntime?
  }

  /** The newest window is not stored yet. */
  predicate HasUnstored(st: Starter) {
    st.StoringSession? || st.StartingThread? || st.StoringRuntime?
  }

  ghost predicate WindowInv(s: State, w: nat)
    requires w < |s.windows|
  {
    var win := s.windows[w];
    && (win.fate.InSlot? <==> s.slot == Some(w))
    && (win.fate.Unstored? <==> HasUnstored(s.starter) && w == |s.windows| - 1)
    && !win.fate.Overwritten?
    && win.takes == (if win.fate.TakenByServe? || win.fate.TakenByStop? then 1 else 0)
    && (win.thread.NotStarted? <==> win.fate.Unstored? && !s.starter.StoringRuntime?)
  }

  ghost predicate SlotInv(s: State) {
    && (forall w :: 0 <= w < |s.windows| ==> WindowInv(s, w))
    && (s.slot.Some? ==> s.slot.value < |s.windows|)
    && (BeforeStore(s.starter) ==> s.slot.None?)
    && (HasUnstored(s.starter) || s.starter.StartingTimer? ==> s.windows != [])
  }

  /** The session lock is held exactly by the thread that is processing a request. */
  ghost predicate LockInv(s: State) {
    && (s.sessionOwner.Some? ==> ThreadIs(s, s.sessionOwner.value, Processing))
    && forall w :: 0 <= w < |s.windows| && s.windows[w].thread.Processing? ==> s.sessionOwner == Some(w)
  }

  /** Whoever joins a thread has unblocked its server. */
  ghost predicate JoinInv(s: State) {
    && (s.starter.JoiningOld? ==> IsUnblocked(s, s.starter.w))
    && forall c :: 0 <= c < |s.closers| && s.closers[c].stage.Joining? ==> IsUnblocked(s, s.closers[c].stage.w)
  }

  predicate IsUnblocked(s: State, w: nat) {
    w < |s.windows| && s.windows[w].unblocked && !s.windows[w].thread.NotStarted?
  }

  /** A timer that has not run yet. */
  predicate IsPending(c: Closer) {
    c.timerOf.Some? && (c.stage.Asleep? || c.stage.Checking? || c.stage.Taking?)
  }

  /** A timer of `w` that has yet to empty the slot. */
  ghost predicate Guards(s: State, c: int, w: nat) {
    && 0 <= c < |s.closers| && w < |s.windows|
    && s.closers[c].timerOf == Some(w) && s.closers[c].deadline == s.windows[w].storedAt + PAIRING_TTL
    && (s.closers[c].stage.Asleep? || s.closers[c].stage.Checking? || s.closers[c].stage.Taking?)
  }

  ghost predicate CloserInTime(now: nat, c: Closer) {
    && (c.stage.Asleep? ==> c.timerOf.Some? && now <= c.deadline)
    && (c.stage.Checking? ==> c.timerOf.Some?)
    && (c.timerOf.Some? && (c.stage.Checking? || c.stage.Taking?) ==> now == c.deadline)
  }

  /** The window in the slot is guarded by its own timer, or its timer is about to start. */
  ghost predicate SlotGuarded(s: State) {
    s.slot.Some? && s.slot.value < |s.windows| ==>
      if s.starter.StartingTimer? && s.slot.value == |s.windows| - 1
      then s.windows[s.slot.value].storedAt == s.now
      else exists c :: Guards(s, c, s.slot.value)
  }

  ghost predicate TimerInv(s: State) {
    ClosersInTime(s) && SlotGuarded(s)
  }

  /** A session is that of the newest window; there is none while a window is being opened. */
  ghost predicate SessionInv(s: State) {
    && (s.starter.Opening? || s.starter.StoringSession? ==> s.session.None?)
    && (s.session.Some? ==> s.session.value + 1 == |s.windows|)
    && (s.slot.Some? ==> s.slot.value + 1 == |s.windows|)
  }

  /** Closer `c` has emptied the slot, or found it empty, and has yet to clear the session. */
  predicate HasToClear(s: State, c: int) {
    0 <= c < |s.closers| && (s.closers[c].stage.Joining? || s.closers[c].stage.Clearing?)
  }

  /** Somebody who has emptied the slot has yet to clear the session. */
  ghost predicate WillClear(s: State) {
    || s.starter.JoiningOld? || s.starter.ClearingOld?
    || (exists c :: HasToClear(s, c))
    || (exists w: nat :: ThreadIs(s, w, ClearingSession))
  }

  /** A session is there only with a runtime, before its runtime is stored, or until somebody clears it. */
  ghost predicate SessionKept(s: State) {
    s.session.Some? ==> s.slot.Some? || s.starter.StartingThread? || s.starter.StoringRuntime? || WillClear(s)
  }

  /** Every timer ends 180 seconds after its window was stored. */
  ghost predicate DeadlineInv(s: State, c: nat)
    requires c < |s.closers|
  {
    s.closers[c].timerOf.Some? ==>
      && s.closers[c].timerOf.value < |s.windows|
      && !s.windows[s.closers[c].timerOf.value].fate.Unstored?
      && s.closers[c].deadline == s.windows[s.closers[c].timerOf.value].storedAt + PAIRING_TTL
  }

  ghost predicate TimesInv(s: State) {
    && (forall c :: 0 <= c < |s.closers| ==> DeadlineInv(s, c))
    && (forall w :: 0 <= w < |s.windows| && !s.windows[w].fate.Unstored? ==> s.windows[w].storedAt <= s.now)
    && (s.starter.StartingTimer? ==> s.windows != [] && s.windows[|s.windows| - 1].storedAt == s.now)
  }

  ghost predicate Inv(s: State) {
    SlotInv(s) && LockInv(s) && JoinInv(s) && TimerInv(s) && SessionInv(s) && SessionKept(s) && TimesInv(s)
  }

  // ------------------------------------------------------------------
  // Every step keeps them
  // ------------------------------------------------------------------

  predicate IsStart(e: Event) {
    e.Begin? || e.StartTake? || e.StartJoined? || e.StartClear? || e.Fail? || e.Open?
    || e.StoreSession? || e.StartThread? || e.StoreRuntime? || e.StartTimer?
  }

  predicate IsCloser(e: Event) {
    e.Stop? || e.Wake? || e.Check? || e.Take? || e.Joined? || e.Clear?
  }

  predicate IsThread(e: Event) {
    e.Lock? || e.Respond? || e.Leave? || e.ThreadTake? || e.ThreadClear?
  }

  /** What taking the runtime out of the slot changes. */
  lemma Taken(s: State, fate: Fate, unblock: bool)
    requires SlotInv(s)
    ensures var t := TakeSlot(s, fate, unblock);
      && t == s.(slot := None, windows := t.windows) && |t.windows| == |s.windows|
      && forall w :: 0 <= w < |s.windows| ==>
           t.windows[w] ==
             if s.slot == Some(w)
             then Window(fate, s.windows[w].thread, s.windows[w].unblocked || unblock, s.windows[w].storedAt, 1)
             else s.windows[w]
  {
    if s.slot.Some? {
      assert WindowInv(s, s.slot.value);
    }
  }

  lemma StartKeepsSlot(s: State, e: Event)
    requires SlotInv(s) && IsStart(e) && StartStep(s, e).Some?
    ensures SlotInv(StartStep(s, e).value)
  {
    var t := StartStep(s, e).value;
    Taken(s, TakenByStop, true);
    forall w | 0 <= w < |t.windows| ensures WindowInv(t, w) {
      if w < |s.windows| {
        assert WindowInv(s, w);
      }
    }
  }

  lemma CloserKeepsSlot(s: State, e: Event)
    requires SlotInv(s) && IsCloser(e) && CloserStep(s, e).Some?
    ensures SlotInv(CloserStep(s, e).value)
  {
    var t := CloserStep(s, e).value;
    Taken(s, TakenByStop, true);
    forall w | 0 <= w < |t.windows| ensures WindowInv(t, w) {
      assert WindowInv(s, w);
    }
  }

  lemma ThreadTakeKeepsSlot(s: State, w: nat)
    requires SlotInv(s) && ThreadStep(s, ThreadTake(w)).Some?
    ensures SlotInv(ThreadStep(s, ThreadTake(w)).value)
  {
    var t := ThreadStep(s, ThreadTake(w)).value;
    Taken(s, TakenByServe, false);
    forall v | 0 <= v < |t.windows| ensures WindowInv(t, v) {
      assert WindowInv(s, v);
    }
  }

  lemma ThreadKeepsSlot(s: State, e: Event)
    requires SlotInv(s) && IsThread(e) && !e.ThreadTake? && ThreadStep(s, e).Some?
    ensures SlotInv(ThreadStep(s, e).value)
  {
    var t := ThreadStep(s, e).value;
    forall w | 0 <= w < |t.windows| ensures WindowInv(t, w) {
      assert WindowInv(s, w);
    }
  }

  lemma TickKeepsSlot(s: State, e: Event)
    requires SlotInv(s) && e.Tick? && Next(s, e).Some?
    ensures SlotInv(Next(s, e).value)
  {
    var t := Next(s, e).value;
    forall w | 0 <= w < |t.windows| ensures WindowInv(t, w) {
      assert WindowInv(s, w);
    }
  }

  lemma StepKeepsSlot(s: State, e: Event)
    requires SlotInv(s) && Next(s, e).Some?
    ensures SlotInv(Next(s, e).value)
  {
    if IsStart(e) {
      StartKeepsSlot(s, e);
    } else if IsCloser(e) {
      CloserKeepsSlot(s, e);
    } else if e.ThreadTake? {
      ThreadTakeKeepsSlot(s, e.w);
    } else if IsThread(e) {
      ThreadKeepsSlot(s, e);
    } else {
      TickKeepsSlot(s, e);
    }
  }

  /** Windows keep their number, and all but the last one the state of their thread. */
  lemma StartKeepsThreads(s: State, e: Event)
    requires SlotInv(s) && (IsStart(e) || IsCloser(e) || e.Tick?) && Next(s, e).Some?
    ensures var t := Next(s, e).value;
      && |s.windows| <= |t.windows| && t.sessionOwner == s.sessionOwner
      && (forall w :: 0 <= w < |s.windows| ==>
            t.windows[w].thread == s.windows[w].thread
            || (s.windows[w].thread.NotStarted? && t.windows[w].thread.Serving?))
      && (forall w :: |s.windows| <= w < |t.windows| ==> t.windows[w].thread.NotStarted?)
  {
    Taken(s, TakenByStop, true);
    if e.StartThread? {
      assert WindowInv(s, |s.windows| - 1);
    }
  }

  lemma ThreadKeepsLock(s: State, e: Event)
    requires LockInv(s) && SlotInv(s) && IsThread(e) && ThreadStep(s, e).Some?
    ensures LockInv(ThreadStep(s, e).value)
  {
    Taken(s, TakenByServe, false);
  }

  lemma StepKeepsLock(s: State, e: Event)
    requires LockInv(s) && SlotInv(s) && Next(s, e).Some?
    ensures LockInv(Next(s, e).value)
  {
    if IsThread(e) {
      ThreadKeepsLock(s, e);
    } else {
      StartKeepsThreads(s, e);
    }
  }

  lemma StartKeepsUnblocked(s: State, e: Event, w: nat)
    requires SlotInv(s) && StartStep(s, e).Some? && IsUnblocked(s, w)
    ensures IsUnblocked(StartStep(s, e).value, w)
  {
    Taken(s, TakenByStop, true);
  }

  lemma CloserKeepsUnblocked(s: State, e: Event, w: nat)
    requires SlotInv(s) && CloserStep(s, e).Some? && IsUnblocked(s, w)
    ensures IsUnblocked(CloserStep(s, e).value, w)
  {
    Taken(s, TakenByStop, true);
  }

  lemma ThreadKeepsUnblocked(s: State, e: Event, w: nat)
    requires SlotInv(s) && ThreadStep(s, e).Some? && IsUnblocked(s, w)
    ensures IsUnblocked(ThreadStep(s, e).value, w)
  {
    Taken(s, TakenByServe, false);
  }

  /** An unblocked server stays unblocked. */
  lemma UnblockedStays(s: State, e: Event, w: nat)
    requires SlotInv(s) && Next(s, e).Some? && IsUnblocked(s, w)
    ensures IsUnblocked(Next(s, e).value, w)
  {
    if IsStart(e) {
      StartKeepsUnblocked(s, e, w);
    } else if IsCloser(e) {
      CloserKeepsUnblocked(s, e, w);
    } else if IsThread(e) {
      ThreadKeepsUnblocked(s, e, w);
    }
  }

  /** Emptying the slot to close a window unblocks it. */
  lemma TakenIsUnblocked(s: State)
    requires SlotInv(s) && s.slot.Some?
    ensures IsUnblocked(TakeSlot(s, TakenByStop, true), s.slot.value)
  {
    assert WindowInv(s, s.slot.value);
  }

  lemma StepKeepsJoin(s: State, e: Event)
    requires JoinInv(s) && SlotInv(s) && Next(s, e).Some?
    ensures JoinInv(Next(s, e).value)
  {
    var t := Next(s, e).value;
    if t.starter.JoiningOld? {
      StarterKeepsJoin(s, e);
    }
    forall c | 0 <= c < |t.closers| && t.closers[c].stage.Joining? ensures IsUnblocked(t, t.closers[c].stage.w) {
      CloserKeepsJoin(s, e, c);
    }
  }

  lemma StarterKeepsJoin(s: State, e: Event)
    requires JoinInv(s) && SlotInv(s) && Next(s, e).Some? && Next(s, e).value.starter.JoiningOld?
    ensures IsUnblocked(Next(s, e).value, Next(s, e).value.starter.w)
  {
    if e.StartTake? {
      TakenIsUnblocked(s);
    } else {
      KeepsStarter(s, e);
      UnblockedStays(s, e, s.starter.w);
    }
  }

  /** Only the starter's own steps move it. */
  lemma KeepsStarter(s: State, e: Event)
    requires SlotInv(s) && Next(s, e).Some? && !e.StartTake? && Next(s, e).value.starter.JoiningOld?
    ensures Next(s, e).value.starter == s.starter
  {
    if IsCloser(e) {
      Taken(s, TakenByStop, true);
    } else if IsThread(e) {
      Taken(s, TakenByServe, false);
    }
  }

  lemma CloserKeepsJoin(s: State, e: Event, c: nat)
    requires JoinInv(s) && SlotInv(s) && Next(s, e).Some?
    requires c < |Next(s, e).value.closers| && Next(s, e).value.closers[c].stage.Joining?
    ensures IsUnblocked(Next(s, e).value, Next(s, e).value.closers[c].stage.w)
  {
    if e == Take(c) {
      TakenIsUnblocked(s);
    } else {
      KeepsJoining(s, e, c);
      UnblockedStays(s, e, s.closers[c].stage.w);
    }
  }

  /** A closer begins to join only by taking a window. */
  lemma KeepsJoining(s: State, e: Event, c: nat)
    requires SlotInv(s) && Next(s, e).Some? && e != Take(c)
    requires c < |Next(s, e).value.closers| && Next(s, e).value.closers[c].stage.Joining?
    ensures c < |s.closers| && s.closers[c] == Next(s, e).value.closers[c]
  {
    if IsThread(e) {
      ThreadKeepsClosers(s, e);
    } else if IsStart(e) {
      StartKeepsClosers(s, e);
    } else if IsCloser(e) {
      CloserKeepsJoining(s, e, c);
    }
  }

  lemma CloserKeepsJoining(s: State, e: Event, c: nat)
    requires SlotInv(s) && CloserStep(s, e).Some? && e != Take(c)
    requires c < |CloserStep(s, e).value.closers| && CloserStep(s, e).value.closers[c].stage.Joining?
    ensures c < |s.closers| && s.closers[c] == CloserStep(s, e).value.closers[c]
  {
    Taken(s, TakenByStop, true);
  }

  ghost predicate ClosersInTime(s: State) {
    forall c :: 0 <= c < |s.closers| ==> CloserInTime(s.now, s.closers[c])
  }

  lemma CloserStepKeepsTime(s: State, e: Event)
    requires ClosersInTime(s) && SlotInv(s) && IsCloser(e) && Next(s, e).Some?
    ensures ClosersInTime(Next(s, e).value)
  {
    var t := Next(s, e).value;
    Taken(s, TakenByStop, true);
    forall c | 0 <= c < |t.closers| ensures CloserInTime(t.now, t.closers[c]) {
      if c < |s.closers| {
        assert CloserInTime(s.now, s.closers[c]);
      }
    }
  }

  lemma StartKeepsClosers(s: State, e: Event)
    requires SlotInv(s) && StartStep(s, e).Some?
    ensures var t := StartStep(s, e).value;
      && t.now == s.now
      && t.closers == s.closers +
           if e.StartTimer? then [Closer(Some(|s.windows| - 1), s.now + PAIRING_TTL, Asleep)] else []
  {
    Taken(s, TakenByStop, true);
  }

  lemma ThreadKeepsClosers(s: State, e: Event)
    requires SlotInv(s) && ThreadStep(s, e).Some?
    ensures ThreadStep(s, e).value.now == s.now && ThreadStep(s, e).value.closers == s.closers
  {
    Taken(s, TakenByServe, false);
  }

  /** Starters and threads leave the closers alone, but for the timer that is started. */
  lemma OthersKeepClosers(s: State, e: Event)
    requires SlotInv(s) && (IsStart(e) || IsThread(e)) && Next(s, e).Some?
    ensures var t := Next(s, e).value;
      && t.now == s.now
      && t.closers == s.closers +
           if e.StartTimer? then [Closer(Some(|s.windows| - 1), s.now + PAIRING_TTL, Asleep)] else []
  {
    if IsStart(e) {
      StartKeepsClosers(s, e);
    } else {
      ThreadKeepsClosers(s, e);
    }
  }

  lemma StepKeepsClosersInTime(s: State, e: Event)
    requires ClosersInTime(s) && SlotInv(s) && Next(s, e).Some?
    ensures ClosersInTime(Next(s, e).value)
  {
    if IsCloser(e) {
      CloserStepKeepsTime(s, e);
    } else if IsStart(e) || IsThread(e) {
      OthersKeepClosers(s, e);
    } else {
      assert forall c :: 0 <= c < |s.closers| ==> CloserInTime(s.now, s.closers[c]) && !IsDue(s, s.closers[c]);
    }
  }

  /** A guard stays one for as long as its window is in the slot. */
  lemma GuardStays(s: State, e: Event, c: nat, w: nat)
    requires SlotInv(s) && Next(s, e).Some? && Guards(s, c, w)
    requires s.slot == Some(w) && Next(s, e).value.slot == Some(w)
    ensures Guards(Next(s, e).value, c, w)
  {
    assert WindowInv(s, w);
    StoredStays(s, e, w);
    Grows(s, e);
    CloserStays(s, e, c);
    PendingStays(s, e, c);
  }

  /** A pending timer that does not take the slot's window stays pending. */
  lemma PendingStays(s: State, e: Event, c: nat)
    requires SlotInv(s) && Next(s, e).Some? && c < |s.closers| && IsPending(s.closers[c])
    requires s.slot.Some? && Next(s, e).value.slot == s.slot
    ensures c < |Next(s, e).value.closers| && IsPending(Next(s, e).value.closers[c])
  {
    if IsThread(e) {
      ThreadKeepsClosers(s, e);
    } else if IsStart(e) {
      StartKeepsClosers(s, e);
    } else if IsCloser(e) {
      CloserKeepsPending(s, e, c);
    }
  }

  lemma CloserKeepsPending(s: State, e: Event, c: nat)
    requires SlotInv(s) && CloserStep(s, e).Some? && c < |s.closers| && IsPending(s.closers[c])
    requires s.slot.Some? && CloserStep(s, e).value.slot == s.slot
    ensures c < |CloserStep(s, e).value.closers| && IsPending(CloserStep(s, e).value.closers[c])
  {
    Taken(s, TakenByStop, true);
  }

  /** Only storing puts a window in the slot. */
  lemma SlotChanges(s: State, e: Event)
    requires SlotInv(s) && Next(s, e).Some?
    ensures var t := Next(s, e).value; t.slot.Some? && !e.StoreRuntime? ==> t.slot == s.slot
    ensures var t := Next(s, e).value; t.slot.Some? && !e.StoreRuntime? && !e.StartTimer? ==>
      t.windows != [] && (t.starter.StartingTimer? && t.slot.value == |t.windows| - 1 ==>
        s.starter.StartingTimer? && s.slot.value == |s.windows| - 1
        && t.windows[t.slot.value].storedAt == s.windows[s.slot.value].storedAt && t.now == s.now)
  {
    if IsStart(e) && !e.StoreRuntime? && Next(s, e).value.slot.Some? {
      StartSlotChanges(s, e);
    } else if IsStart(e) {
    } else if !e.Tick? && Next(s, e).value.slot.Some? {
      OthersSlotChanges(s, e);
      OthersKeepStored(s, e);
    }
  }

  lemma StartSlotChanges(s: State, e: Event)
    requires SlotInv(s) && StartStep(s, e).Some? && !e.StoreRuntime? && StartStep(s, e).value.slot.Some?
    ensures var t := StartStep(s, e).value;
      t.slot == s.slot && (!e.StartTimer? ==> !t.starter.StartingTimer? && t.windows != [])
  {
    Taken(s, TakenByStop, true);
  }

  lemma OthersSlotChanges(s: State, e: Event)
    requires SlotInv(s) && (IsCloser(e) || IsThread(e)) && Next(s, e).Some? && Next(s, e).value.slot.Some?
    ensures Next(s, e).value.slot == s.slot
  {
    if IsCloser(e) {
      Taken(s, TakenByStop, true);
    } else {
      Taken(s, TakenByServe, false);
    }
  }

  lemma StepKeepsSlotGuarded(s: State, e: Event)
    requires TimerInv(s) && SlotInv(s) && Next(s, e).Some?
    ensures SlotGuarded(Next(s, e).value)
  {
    var t := Next(s, e).value;
    SlotChanges(s, e);
    if t.slot.Some? && !e.StoreRuntime? {
      var w := s.slot.value;
      if s.starter.StartingTimer? && w == |s.windows| - 1 {
        if e.StartTimer? {
          assert Guards(t, |s.closers|, w);
        }
      } else {
        var c :| Guards(s, c, w);
        GuardStays(s, e, c, w);
      }
    }
  }

  lemma StartKeepsSession(s: State, e: Event)
    requires SessionInv(s) && SlotInv(s) && StartStep(s, e).Some?
    ensures SessionInv(StartStep(s, e).value)
  {
    Taken(s, TakenByStop, true);
  }

  lemma CloserKeepsSession(s: State, e: Event)
    requires SessionInv(s) && SlotInv(s) && CloserStep(s, e).Some?
    ensures SessionInv(CloserStep(s, e).value)
  {
    Taken(s, TakenByStop, true);
  }

  lemma ThreadKeepsSession(s: State, e: Event)
    requires SessionInv(s) && SlotInv(s) && ThreadStep(s, e).Some?
    ensures SessionInv(ThreadStep(s, e).value)
  {
    Taken(s, TakenByServe, false);
  }

  lemma StepKeepsSession(s: State, e: Event)
    requires SessionInv(s) && SlotInv(s) && Next(s, e).Some?
    ensures SessionInv(Next(s, e).value)
  {
    if IsStart(e) {
      StartKeepsSession(s, e);
    } else if IsCloser(e) {
      CloserKeepsSession(s, e);
    } else if IsThread(e) {
      ThreadKeepsSession(s, e);
    }
  }

  lemma StartKeepsClearing(s: State, e: Event)
    requires SessionKept(s) && SessionInv(s) && SlotInv(s) && IsStart(e) && Next(s, e).Some?
    ensures SessionKept(Next(s, e).value)
  {
    var t := Next(s, e).value;
    StartKeepsClosers(s, e);
    StartKeepsThreads(s, e);
    if t.session.Some? {
      StartKeepsSlotFull(s, e);
    }
    if c :| HasToClear(s, c) {
      assert HasToClear(t, c);
    }
    if w: nat :| ThreadIs(s, w, ClearingSession) {
      assert ThreadIs(t, w, ClearingSession);
    }
  }

  /** The starter empties the slot only in order to clear the session. */
  lemma StartKeepsSlotFull(s: State, e: Event)
    requires SessionInv(s) && SlotInv(s) && StartStep(s, e).Some? && StartStep(s, e).value.session.Some?
    ensures var t := StartStep(s, e).value;
      || t.starter.JoiningOld? || t.starter.ClearingOld? || t.starter.StartingThread? || t.starter.StoringRuntime?
      || t.slot.Some?
      || (s.session.Some? && s.slot.None? && !s.starter.JoiningOld? && !s.starter.ClearingOld?
          && !s.starter.StartingThread? && !s.starter.StoringRuntime?)
  {
    Taken(s, TakenByStop, true);
  }

  lemma CloserKeepsClearing(s: State, e: Event)
    requires SessionKept(s) && SlotInv(s) && CloserStep(s, e).Some?
    ensures SessionKept(CloserStep(s, e).value)
  {
    var t := CloserStep(s, e).value;
    Taken(s, TakenByStop, true);
    if e.Take? || e.Joined? {
      assert HasToClear(t, e.c);
    }
    if c :| HasToClear(s, c) {
      assert t.session.Some? ==> HasToClear(t, c);
    }
    if w: nat :| ThreadIs(s, w, ClearingSession) {
      assert ThreadIs(t, w, ClearingSession);
    }
  }

  lemma ThreadKeepsClearing(s: State, e: Event)
    requires SessionKept(s) && SlotInv(s) && ThreadStep(s, e).Some?
    ensures SessionKept(ThreadStep(s, e).value)
  {
    var t := ThreadStep(s, e).value;
    Taken(s, TakenByServe, false);
    ThreadKeepsClosers(s, e);
    if e.ThreadTake? {
      assert ThreadIs(t, e.w, ClearingSession);
    }
    if c :| HasToClear(s, c) {
      assert HasToClear(t, c);
    }
    if w: nat :| ThreadIs(s, w, ClearingSession) {
      assert t.session.Some? ==> ThreadIs(t, w, ClearingSession);
    }
  }

  lemma StepKeepsClearing(s: State, e: Event)
    requires SessionKept(s) && SessionInv(s) && SlotInv(s) && Next(s, e).Some?
    ensures SessionKept(Next(s, e).value)
  {
    if IsStart(e) {
      StartKeepsClearing(s, e);
    } else if IsCloser(e) {
      CloserKeepsClearing(s, e);
    } else if IsThread(e) {
      ThreadKeepsClearing(s, e);
    } else {
      TickKeepsClearing(s, e);
    }
  }

  lemma TickKeepsClearing(s: State, e: Event)
    requires SessionKept(s) && e.Tick? && Next(s, e).Some?
    ensures SessionKept(Next(s, e).value)
  {
    var t := Next(s, e).value;
    if c :| HasToClear(s, c) {
      assert HasToClear(t, c);
    }
    if w: nat :| ThreadIs(s, w, ClearingSession) {
      assert ThreadIs(t, w, ClearingSession);
    }
  }

  /** The fields of windows that closers and threads leave as they were. */
  ghost predicate SameStored(s: State, t: State) {
    && t.starter == s.starter && t.now == s.now && |t.windows| == |s.windows|
    && forall w :: 0 <= w < |s.windows| ==>
        && t.windows[w].storedAt == s.windows[w].storedAt
        && (t.windows[w].fate.Unstored? <==> s.windows[w].fate.Unstored?)
  }

  lemma TakingKeepsStored(s: State, fate: Fate, unblock: bool)
    requires SlotInv(s) && !fate.Unstored?
    ensures SameStored(s, TakeSlot(s, fate, unblock))
  {
    Taken(s, fate, unblock);
    assert s.slot.Some? ==> WindowInv(s, s.slot.value);
  }

  lemma OthersKeepStored(s: State, e: Event)
    requires SlotInv(s) && (IsCloser(e) || IsThread(e)) && Next(s, e).Some?
    ensures SameStored(s, Next(s, e).value)
  {
    if IsCloser(e) {
      CloserKeepsStored(s, e);
    } else {
      ThreadKeepsStored(s, e);
    }
  }

  lemma CloserKeepsStored(s: State, e: Event)
    requires SlotInv(s) && CloserStep(s, e).Some?
    ensures SameStored(s, CloserStep(s, e).value)
  {
    if e.Take? {
      TakingKeepsStored(s, TakenByStop, true);
    }
  }

  lemma ThreadKeepsStored(s: State, e: Event)
    requires SlotInv(s) && ThreadStep(s, e).Some?
    ensures SameStored(s, ThreadStep(s, e).value)
  {
    if e.ThreadTake? {
      TakingKeepsStored(s, TakenByServe, false);
    }
  }

  lemma StartKeepsStored(s: State, e: Event, w: nat)
    requires SlotInv(s) && StartStep(s, e).Some? && w < |s.windows| && !s.windows[w].fate.Unstored?
    ensures var t := StartStep(s, e).value;
      w < |t.windows| && !t.windows[w].fate.Unstored? && t.windows[w].storedAt == s.windows[w].storedAt
  {
    assert WindowInv(s, w);
    Taken(s, TakenByStop, true);
  }

  /** Stored windows keep the time at which they were stored. */
  lemma StoredStays(s: State, e: Event, w: nat)
    requires SlotInv(s) && Next(s, e).Some? && w < |s.windows| && !s.windows[w].fate.Unstored?
    ensures var t := Next(s, e).value;
      w < |t.windows| && !t.windows[w].fate.Unstored? && t.windows[w].storedAt == s.windows[w].storedAt
  {
    if IsStart(e) {
      StartKeepsStored(s, e, w);
    } else if !e.Tick? {
      OthersKeepStored(s, e);
    }
  }

  lemma StartStoresNow(s: State, e: Event, w: nat)
    requires SlotInv(s) && StartStep(s, e).Some? && w < |StartStep(s, e).value.windows|
    requires !StartStep(s, e).value.windows[w].fate.Unstored? && (w < |s.windows| ==> s.windows[w].fate.Unstored?)
    ensures var t := StartStep(s, e).value;
      e.StoreRuntime? && w == |t.windows| - 1 && t.windows[w].storedAt == t.now == s.now
  {
    Taken(s, TakenByStop, true);
    assert w < |s.windows| ==> WindowInv(s, w);
  }

  /** A window that is stored by this step is stored now. */
  lemma StoredNow(s: State, e: Event, w: nat)
    requires SlotInv(s) && Next(s, e).Some? && w < |Next(s, e).value.windows|
    requires !Next(s, e).value.windows[w].fate.Unstored? && (w < |s.windows| ==> s.windows[w].fate.Unstored?)
    ensures var t := Next(s, e).value;
      e.StoreRuntime? && w == |t.windows| - 1 && t.windows[w].storedAt == t.now == s.now
  {
    if IsStart(e) {
      StartStoresNow(s, e, w);
    } else if !e.Tick? {
      OthersKeepStored(s, e);
    }
  }

  /** Closers keep their deadline, and only a new timer joins them. */
  lemma CloserStays(s: State, e: Event, c: nat)
    requires SlotInv(s) && Next(s, e).Some? && c < |Next(s, e).value.closers|
    ensures var t := Next(s, e).value;
      && (c < |s.closers| ==>
            && t.closers[c].timerOf == s.closers[c].timerOf && t.closers[c].deadline == s.closers[c].deadline
            && (IsPending(t.closers[c]) ==> IsPending(s.closers[c])))
      && (c >= |s.closers| && t.closers[c].timerOf.Some? ==>
            e.StartTimer? && t.windows == s.windows
            && t.closers[c] == Closer(Some(|s.windows| - 1), s.now + PAIRING_TTL, Asleep))
  {
    if IsStart(e) || IsThread(e) {
      OthersKeepClosers(s, e);
    } else {
      Taken(s, TakenByStop, true);
    }
  }

  lemma Grows(s: State, e: Event)
    requires SlotInv(s) && Next(s, e).Some?
    ensures var t := Next(s, e).value;
      s.now <= t.now && |s.windows| <= |t.windows| && |s.closers| <= |t.closers|
  {
    if IsStart(e) {
      StartGrows(s, e);
    } else if IsCloser(e) {
      CloserGrows(s, e);
    } else if IsThread(e) {
      ThreadKeepsClosers(s, e);
      ThreadKeepsStored(s, e);
    }
  }

  lemma StartGrows(s: State, e: Event)
    requires SlotInv(s) && StartStep(s, e).Some?
    ensures var t := StartStep(s, e).value;
      s.now == t.now && |s.windows| <= |t.windows| && |s.closers| <= |t.closers|
  {
    Taken(s, TakenByStop, true);
  }

  lemma CloserGrows(s: State, e: Event)
    requires SlotInv(s) && CloserStep(s, e).Some?
    ensures var t := CloserStep(s, e).value;
      s.now == t.now && |s.windows| == |t.windows| && |s.closers| <= |t.closers|
  {
    Taken(s, TakenByStop, true);
  }

  lemma StepKeepsStoredBefore(s: State, e: Event, w: nat)
    requires TimesInv(s) && SlotInv(s) && Next(s, e).Some?
    requires w < |Next(s, e).value.windows| && !Next(s, e).value.windows[w].fate.Unstored?
    ensures Next(s, e).value.windows[w].storedAt <= Next(s, e).value.now
  {
    if w < |s.windows| && !s.windows[w].fate.Unstored? {
      StoredStays(s, e, w);
      Grows(s, e);
    } else {
      StoredNow(s, e, w);
    }
  }

  lemma StepKeepsDeadline(s: State, e: Event, c: nat)
    requires TimesInv(s) && SlotInv(s) && Next(s, e).Some? && c < |Next(s, e).value.closers|
    ensures DeadlineInv(Next(s, e).value, c)
  {
    CloserStays(s, e, c);
    if Next(s, e).value.closers[c].timerOf.Some? {
      if c < |s.closers| {
        assert DeadlineInv(s, c);
        StoredStays(s, e, s.closers[c].timerOf.value);
      } else {
        assert WindowInv(s, |s.windows| - 1);
      }
    }
  }

  lemma StepKeepsTimes(s: State, e: Event)
    requires TimesInv(s) && SlotInv(s) && Next(s, e).Some?
    ensures TimesInv(Next(s, e).value)
  {
    var t := Next(s, e).value;
    forall w | 0 <= w < |t.windows| && !t.windows[w].fate.Unstored? ensures t.windows[w].storedAt <= t.now {
      StepKeepsStoredBefore(s, e, w);
    }
    forall c | 0 <= c < |t.closers| ensures DeadlineInv(t, c) {
      StepKeepsDeadline(s, e, c);
    }
    if t.starter.StartingTimer? {
      StartingKeepsTime(s, e);
    }
  }

  lemma StartKeepsTime(s: State, e: Event)
    requires TimesInv(s) && SlotInv(s) && StartStep(s, e).Some? && StartStep(s, e).value.starter.StartingTimer?
    ensures var t := StartStep(s, e).value; t.windows != [] && t.windows[|t.windows| - 1].storedAt == t.now
  {
  }

  lemma StartingKeepsTime(s: State, e: Event)
    requires TimesInv(s) && SlotInv(s) && Next(s, e).Some? && Next(s, e).value.starter.StartingTimer?
    ensures var t := Next(s, e).value; t.windows != [] && t.windows[|t.windows| - 1].storedAt == t.now
  {
    if IsStart(e) {
      StartKeepsTime(s, e);
    } else if !e.Tick? {
      OthersKeepStored(s, e);
    }
  }

  lemma {:induction false} RunKeepsInv(s: State, events: seq<Event>)
    requires Inv(s) && Run(s, events).Some?
    ensures Inv(Run(s, events).value)
  {
    if events != [] {
      RunKeepsInv(s, events[..|events| - 1]);
      var t, e := Run(s, events[..|events| - 1]).value, events[|events| - 1];
      StepKeepsSlot(t, e);
      StepKeepsLock(t, e);
      StepKeepsJoin(t, e);
      StepKeepsClosersInTime(t, e);
      StepKeepsSlotGuarded(t, e);
      StepKeepsSession(t, e);
      StepKeepsClearing(t, e);
      StepKeepsTimes(t, e);
    }
  }

  /** Some interleaving leads to `s`. */
  ghost predicate Reachable(s: State) {
    exists events :: Run(INIT, events) == Some(s)
  }

  lemma ReachableInv(s: State)
    requires Reachable(s)
    ensures Inv(s)
  {
    var events :| Run(INIT, events) == Some(s);
    RunKeepsInv(INIT, events);
  }

  // ------------------------------------------------------------------
  // The life of a window
  // ------------------------------------------------------------------

  /**
   * Every runtime is in the slot, was taken out of it exactly once by a serve
   * thread or a stopper, or is the one being opened; none is overwritten.
   */
  lemma EveryRuntimeIsAccountedFor(s: State, w: nat)
    requires Reachable(s) && w < |s.windows|
    ensures var win := s.windows[w];
      && win.fate in {Unstored, InSlot, TakenByServe, TakenByStop}
      && (win.fate == InSlot <==> s.slot == Some(w))
      && (win.fate == Unstored <==> HasUnstored(s.starter) && w == |s.windows| - 1)
      && win.takes == (if win.fate in {TakenByServe, TakenByStop} then 1 else 0)
  {
    ReachableInv(s);
    assert WindowInv(s, w);
  }

  function CountFate(windows: seq<Window>, fate: Fate): nat {
    if windows == [] then 0
    else CountFate(windows[..|windows| - 1], fate) + if windows[|windows| - 1].fate == fate then 1 else 0
  }

  lemma {:induction false} FatesAddUp(windows: seq<Window>)
    ensures |windows| ==
      CountFate(windows, Unstored) + CountFate(windows, InSlot) + CountFate(windows, TakenByServe)
      + CountFate(windows, TakenByStop) + CountFate(windows, Overwritten)
  {
    if windows != [] {
      FatesAddUp(windows[..|windows| - 1]);
    }
  }

  lemma {:induction false} NoSuchFate(windows: seq<Window>, fate: Fate)
    requires forall w :: 0 <= w < |windows| ==> windows[w].fate != fate
    ensures CountFate(windows, fate) == 0
  {
    if windows != [] {
      NoSuchFate(windows[..|windows| - 1], fate);
    }
  }

  lemma {:induction false} OneSuchFate(windows: seq<Window>, fate: Fate, i: nat)
    requires i < |windows| && forall w :: 0 <= w < |windows| ==> (windows[w].fate == fate <==> w == i)
    ensures CountFate(windows, fate) == 1
  {
    var init := windows[..|windows| - 1];
    if i == |windows| - 1 {
      NoSuchFate(init, fate);
    } else {
      OneSuchFate(init, fate, i);
    }
  }

  /** Runtimes created = the one being opened + the one in the slot + taken by serve + taken by stop. */
  lemma RuntimesConserved(s: State)
    requires Reachable(s)
    ensures |s.windows| ==
      (if HasUnstored(s.starter) then 1 else 0) + (if s.slot.Some? then 1 else 0)
      + CountFate(s.windows, TakenByServe) + CountFate(s.windows, TakenByStop)
  {
    ReachableInv(s);
    forall w | 0 <= w < |s.windows|
      ensures s.windows[w].fate != Overwritten
      ensures s.windows[w].fate == InSlot <==> s.slot == Some(w)
      ensures s.windows[w].fate == Unstored <==> HasUnstored(s.starter) && w == |s.windows| - 1
    {
      assert WindowInv(s, w);
    }
    FatesAddUp(s.windows);
    NoSuchFate(s.windows, Overwritten);
    if s.slot.Some? {
      OneSuchFate(s.windows, InSlot, s.slot.value);
    } else {
      NoSuchFate(s.windows, InSlot);
    }
    if HasUnstored(s.starter) {
      OneSuchFate(s.windows, Unstored, |s.windows| - 1);
    } else {
      NoSuchFate(s.windows, Unstored);
    }
  }

  /** A stored runtime leaves the slot within 180 seconds. */
  lemma WindowsExpire(s: State)
    requires Reachable(s) && s.slot.Some?
    ensures s.slot.value < |s.windows| && s.now <= s.windows[s.slot.value].storedAt + 180
  {
    ReachableInv(s);
    if !(s.starter.StartingTimer? && s.slot.value == |s.windows| - 1) {
      var c :| Guards(s, c, s.slot.value);
      assert CloserInTime(s.now, s.closers[c]);
    }
  }

  /**
   * The code of a window cannot outlive it: a session is there only while the newest
   * window is in the slot, at most 180 seconds after it was stored, before it is
   * stored, or as long as somebody who has emptied the slot has yet to clear.
   */
  lemma SessionsExpire(s: State)
    requires Reachable(s) && s.session.Some?
    ensures var w := s.session.value;
      && w + 1 == |s.windows|
      && (|| s.starter.StartingThread? || s.starter.StoringRuntime? || WillClear(s)
          || (s.slot == Some(w) && s.now <= s.windows[w].storedAt + 180))
  {
    ReachableInv(s);
    if s.slot.Some? {
      WindowsExpire(s);
    }
  }

  /** Once nobody is opening or closing a window and none is in the slot, there is no code to pair with. */
  lemma NoWindowNoSession(s: State)
    requires Reachable(s) && s.slot.None? && (s.starter.Idle? || s.starter.TakingOld?)
    requires forall c :: 0 <= c < |s.closers| ==> s.closers[c].stage in {Asleep, Checking, Taking, Gone}
    requires forall w :: 0 <= w < |s.windows| ==> s.windows[w].thread != ClearingSession
    ensures s.session.None?
  {
    ReachableInv(s);
  }

  // ------------------------------------------------------------------
  // Time never stands still
  // ------------------------------------------------------------------

  /** How many steps a timer takes before time passes again. */
  function Owed(c: Closer, now: nat): nat {
    if c.timerOf.None? then 0
    else if c.stage.Asleep? then if now >= c.deadline then 3 else 0
    else if c.stage.Checking? then 2
    else if c.stage.Taking? then 1 else 0
  }

  function AllOwed(closers: seq<Closer>, now: nat): nat {
    if closers == [] then 0 else AllOwed(closers[..|closers| - 1], now) + Owed(closers[|closers| - 1], now)
  }

  lemma {:induction false} OwedAfterUpdate(closers: seq<Closer>, c: nat, closer: Closer, now: nat)
    requires c < |closers|
    ensures AllOwed(closers[c := closer], now) == AllOwed(closers, now) - Owed(closers[c], now) + Owed(closer, now)
  {
    var init := closers[..|closers| - 1];
    if c == |closers| - 1 {
      assert closers[c := closer][..|closers| - 1] == init;
    } else {
      assert closers[c := closer][..|closers| - 1] == init[c := closer];
      OwedAfterUpdate(init, c, closer, now);
    }
  }

  lemma {:induction false} NothingOwed(closers: seq<Closer>, now: nat) returns (next: Option<nat>)
    requires forall c :: 0 <= c < |closers| ==> Owed(closers[c], now) == 0 && CloserInTime(now, closers[c])
    ensures forall c :: 0 <= c < |closers| && closers[c].stage.Asleep? ==>
      next.Some? && next.value <= closers[c].deadline
    ensures next.Some? ==> next.value > now
  {
    next := None;
    if closers != [] {
      var last := closers[|closers| - 1];
      next := NothingOwed(closers[..|closers| - 1], now);
      assert forall c :: 0 <= c < |closers| - 1 ==> closers[..|closers| - 1][c] == closers[c];
      if last.stage.Asleep? && (next.None? || last.deadline < next.value) {
        next := Some(last.deadline);
      }
    }
  }

  /** A timer that owes a step can take it, and owes less. */
  lemma StepOwed(t: State, c: nat) returns (e: Event)
    requires SlotInv(t) && c < |t.closers| && Owed(t.closers[c], t.now) > 0
    ensures IsTimerStep(e) && CloserStep(t, e).Some?
    ensures var u := CloserStep(t, e).value;
      && u.now == t.now && u.starter == t.starter && AllOwed(u.closers, u.now) < AllOwed(t.closers, t.now)
  {
    Taken(t, TakenByStop, true);
    e := if t.closers[c].stage.Asleep? then Wake(c) else if t.closers[c].stage.Checking? then Check(c) else Take(c);
    var u := CloserStep(t, e).value;
    OwedAfterUpdate(t.closers, c, u.closers[c], t.now);
  }

  lemma OneMoreOwed(closers: seq<Closer>, closer: Closer, now: nat)
    ensures AllOwed(closers + [closer], now) == AllOwed(closers, now) + Owed(closer, now)
  {
    assert (closers + [closer])[..|closers|] == closers;
  }

  predicate IsTimerStep(e: Event) {
    e.Wake? || e.Check? || e.Take?
  }

  /** How many steps timers and starter take before time passes again. */
  function Debt(t: State): nat {
    2 * AllOwed(t.closers, t.now) + if t.starter.StartingTimer? then 1 else 0
  }

  /** A timer takes a step that it owes. */
  lemma TimerSteps(s: State, events: seq<Event>, t: State, c: nat) returns (more: seq<Event>, u: State)
    requires SlotInv(t) && Run(s, events) == Some(t) && c < |t.closers| && Owed(t.closers[c], t.now) > 0
    ensures Run(s, more) == Some(u) && u.now == t.now && Debt(u) < Debt(t)
    ensures forall e :: e in more ==> e in events || IsTimerStep(e)
  {
    var e := StepOwed(t, c);
    more, u := On(s, events, t, e);
  }

  /** The starter starts its timer. */
  lemma StarterSteps(s: State, events: seq<Event>, t: State) returns (more: seq<Event>, u: State)
    requires SlotInv(t) && Run(s, events) == Some(t) && t.starter.StartingTimer?
    ensures Run(s, more) == Some(u) && u.now == t.now && Debt(u) < Debt(t)
    ensures forall e :: e in more ==> e in events || e.StartTimer?
  {
    OneMoreOwed(t.closers, Closer(Some(|t.windows| - 1), t.now + PAIRING_TTL, Asleep), t.now);
    more, u := On(s, events, t, StartTimer);
  }

  lemma {:induction false} TimeGoesOn(s: State, events: seq<Event>, t: State, seconds: nat)
    returns (more: seq<Event>, u: State)
    requires Inv(s) && Run(s, events) == Some(t)
    ensures Run(s, more) == Some(u) && u.now == t.now + seconds
    ensures forall e :: e in more ==> e in events || IsTimerStep(e) || e.StartTimer? || e.Tick?
    decreases seconds, Debt(t)
  {
    RunKeepsInv(s, events);
    if c: nat :| c < |t.closers| && Owed(t.closers[c], t.now) > 0 {
      more, u := TimerSteps(s, events, t, c);
      more, u := TimeGoesOn(s, more, u, seconds);
    } else if t.starter.StartingTimer? {
      more, u := StarterSteps(s, events, t);
      more, u := TimeGoesOn(s, more, u, seconds);
    } else {
      more, u := Wait(s, events, t, seconds);
      if u.now < t.now + seconds {
        more, u := TimeGoesOn(s, more, u, t.now + seconds - u.now);
      }
    }
  }

  /** Time passes until the next timer wakes. */
  lemma Wait(s: State, events: seq<Event>, t: State, seconds: nat) returns (more: seq<Event>, u: State)
    requires Run(s, events) == Some(t) && ClosersInTime(t) && !t.starter.StartingTimer?
    requires forall c :: 0 <= c < |t.closers| ==> Owed(t.closers[c], t.now) == 0
    ensures Run(s, more) == Some(u) && (t.now < u.now <= t.now + seconds || u.now == t.now + seconds)
    ensures forall e :: e in more ==> e in events || e.Tick?
  {
    var next := NothingOwed(t.closers, t.now);
    var wait := if next.Some? && next.value < t.now + seconds then next.value - t.now else seconds;
    forall c | 0 <= c < |t.closers| ensures !IsDue(t, t.closers[c]) {
      assert Owed(t.closers[c], t.now) == 0;
    }
    more, u := On(s, events, t, Tick(wait));
  }

  /** In every reachable state any time can pass, timers closing windows meanwhile. */
  lemma TimeCanPass(s: State, seconds: nat) returns (more: seq<Event>, t: State)
    requires Reachable(s)
    ensures Run(s, more) == Some(t) && t.now == s.now + seconds
    ensures forall e :: e in more ==> IsTimerStep(e) || e.StartTimer? || e.Tick?
  {
    ReachableInv(s);
    more, t := TimeGoesOn(s, [], s, seconds);
  }

  // ------------------------------------------------------------------
  // Whose window is closed
  // ------------------------------------------------------------------

  /** After `events`, timer `c` is about to close the window that is open in `s`, before its time. */
  ghost predicate ClosesEarly(s: State, events: seq<Event>, c: nat)
    requires s.slot.Some? && s.slot.value < |s.windows|
  {
    && Run(s, events).Some?
    && var t := Run(s, events).value;
       && t.slot == s.slot
       && StageIs(t, c, Taking) && t.closers[c].timerOf.Some?
       && t.now < s.windows[s.slot.value].storedAt + PAIRING_TTL
  }

  /** Timer `c` belongs to a window that was stored before the open one, and has not run. */
  ghost predicate IsOlderTimer(s: State, c: nat)
    requires s.slot.Some? && s.slot.value < |s.windows|
  {
    && c < |s.closers| && IsPending(s.closers[c])
    && s.closers[c].timerOf.value < |s.windows|
    && s.windows[s.closers[c].timerOf.value].storedAt < s.windows[s.slot.value].storedAt
  }

  /** What happens to closers and stored windows in any continuation. */
  ghost predicate Extends(s: State, t: State) {
    && s.now <= t.now && |s.windows| <= |t.windows| && |s.closers| <= |t.closers|
    && (forall w :: 0 <= w < |s.windows| && !s.windows[w].fate.Unstored? ==>
          !t.windows[w].fate.Unstored? && t.windows[w].storedAt == s.windows[w].storedAt)
    && (forall c :: 0 <= c < |s.closers| ==>
          && t.closers[c].timerOf == s.closers[c].timerOf && t.closers[c].deadline == s.closers[c].deadline
          && (IsPending(t.closers[c]) ==> IsPending(s.closers[c])))
    && (forall c :: |s.closers| <= c < |t.closers| && t.closers[c].timerOf.Some? ==>
          t.closers[c].deadline >= s.now + PAIRING_TTL)
  }

  lemma StepExtends(s: State, t: State, e: Event)
    requires Extends(s, t) && SlotInv(t) && Next(t, e).Some?
    ensures Extends(s, Next(t, e).value)
  {
    var u := Next(t, e).value;
    Grows(t, e);
    forall w | 0 <= w < |s.windows| && !s.windows[w].fate.Unstored?
      ensures !u.windows[w].fate.Unstored? && u.windows[w].storedAt == s.windows[w].storedAt
    {
      StoredStays(t, e, w);
    }
    forall c | 0 <= c < |u.closers|
      ensures c < |s.closers| ==>
        && u.closers[c].timerOf == s.closers[c].timerOf && u.closers[c].deadline == s.closers[c].deadline
        && (IsPending(u.closers[c]) ==> IsPending(s.closers[c]))
      ensures c >= |s.closers| && u.closers[c].timerOf.Some? ==> u.closers[c].deadline >= s.now + PAIRING_TTL
    {
      CloserStays(t, e, c);
    }
  }

  lemma {:induction false} RunExtends(s: State, events: seq<Event>)
    requires Inv(s) && Run(s, events).Some?
    ensures Extends(s, Run(s, events).value)
  {
    if events != [] {
      var init := events[..|events| - 1];
      RunExtends(s, init);
      RunKeepsInv(s, init);
      StepExtends(s, Run(s, init).value, events[|events| - 1]);
    }
  }

  lemma EarlyIsOlder(s: State, events: seq<Event>, c: nat)
    requires Inv(s) && s.slot.Some? && ClosesEarly(s, events, c)
    ensures IsOlderTimer(s, c)
  {
    RunKeepsInv(s, events);
    RunExtends(s, events);
    var t := Run(s, events).value;
    assert CloserInTime(t.now, t.closers[c]) && DeadlineInv(t, c);
    assert WindowInv(s, s.slot.value);
    if c < |s.closers| {
      assert DeadlineInv(s, c);
    }
  }

  /** The pending timer whose time comes first. */
  lemma {:induction false} FirstPending(closers: seq<Closer>, c: nat) returns (first: nat)
    requires c < |closers| && IsPending(closers[c])
    ensures first < |closers| && IsPending(closers[first])
    ensures forall i :: 0 <= i < |closers| && IsPending(closers[i]) ==> closers[first].deadline <= closers[i].deadline
  {
    var init, last := closers[..|closers| - 1], |closers| - 1;
    if i :| 0 <= i < last && IsPending(closers[i]) {
      first := FirstPending(init, i);
      assert forall j :: 0 <= j < last ==> closers[j] == init[j];
      if IsPending(closers[last]) && closers[last].deadline < closers[first].deadline {
        first := last;
      }
    } else {
      first := c;
    }
  }

  lemma On(s: State, events: seq<Event>, t: State, e: Event) returns (more: seq<Event>, u: State)
    requires Run(s, events) == Some(t) && Next(t, e).Some?
    ensures more == events + [e] && u == Next(t, e).value && Run(s, more) == Some(u)
  {
    more, u := events + [e], Next(t, e).value;
    assert more[..|events|] == events;
  }

  /** A starter that is about to start its timer does so. */
  lemma SettleStarter(s: State) returns (events: seq<Event>, t: State)
    requires Inv(s)
    ensures Run(s, events) == Some(t) && !t.starter.StartingTimer?
    ensures t.slot == s.slot && t.windows == s.windows && t.now == s.now
    ensures |s.closers| <= |t.closers| && t.closers[..|s.closers|] == s.closers
    ensures forall c :: |s.closers| <= c < |t.closers| ==>
      t.closers[c].stage.Asleep? && t.closers[c].deadline == s.now + PAIRING_TTL
  {
    events, t := [], s;
    if s.starter.StartingTimer? {
      events, t := On(s, [], s, StartTimer);
    }
  }

  /** Nobody is due before the first pending timer. */
  lemma NobodyIsDue(s: State, t: State, first: nat)
    requires ClosersInTime(s) && first < |s.closers| && s.closers[first].stage.Asleep?
    requires s.now == t.now < s.closers[first].deadline <= s.now + PAIRING_TTL
    requires forall i :: 0 <= i < |s.closers| && IsPending(s.closers[i]) ==>
      s.closers[first].deadline <= s.closers[i].deadline
    requires |s.closers| <= |t.closers| && t.closers[..|s.closers|] == s.closers
    requires forall c :: |s.closers| <= c < |t.closers| ==>
      t.closers[c].stage.Asleep? && t.closers[c].deadline == s.now + PAIRING_TTL
    ensures forall i :: 0 <= i < |t.closers| ==>
      !IsDue(t, t.closers[i]) && (t.closers[i].stage.Asleep? ==> s.closers[first].deadline <= t.closers[i].deadline)
  {
    forall i | 0 <= i < |t.closers|
      ensures !IsDue(t, t.closers[i])
      ensures t.closers[i].stage.Asleep? ==> s.closers[first].deadline <= t.closers[i].deadline
    {
      if i < |s.closers| {
        assert t.closers[i] == t.closers[..|s.closers|][i] && CloserInTime(s.now, s.closers[i]);
      }
    }
  }

  /** Time passes until the first pending timer wakes. */
  lemma UntilFirst(s: State, first: nat) returns (events: seq<Event>, t: State)
    requires Inv(s) && first < |s.closers| && s.closers[first].stage.Asleep?
    requires s.now < s.closers[first].deadline <= s.now + PAIRING_TTL
    requires forall i :: 0 <= i < |s.closers| && IsPending(s.closers[i]) ==>
      s.closers[first].deadline <= s.closers[i].deadline
    ensures Run(s, events) == Some(t) && t.slot == s.slot && t.now == s.closers[first].deadline
    ensures first < |t.closers| && t.closers[first] == s.closers[first]
  {
    events, t := SettleStarter(s);
    NobodyIsDue(s, t, first);
    assert t.closers[first] == t.closers[..|s.closers|][first];
    events, t := On(s, events, t, Tick(s.closers[first].deadline - s.now));
  }

  /** The first pending timer gets to the point of taking the runtime. */
  lemma FirstCloses(s: State, first: nat) returns (events: seq<Event>)
    requires Inv(s) && s.slot.Some? && first < |s.closers| && IsPending(s.closers[first])
    requires s.closers[first].deadline <= s.now + PAIRING_TTL
    requires forall i :: 0 <= i < |s.closers| && IsPending(s.closers[i]) ==>
      s.closers[first].deadline <= s.closers[i].deadline
    ensures Run(s, events).Some?
    ensures var t := Run(s, events).value;
      && t.slot == s.slot && StageIs(t, first, Taking) && t.closers[first].timerOf.Some?
      && t.now == s.closers[first].deadline
  {
    var t := s;
    events := [];
    assert CloserInTime(s.now, s.closers[first]);
    if s.closers[first].stage.Asleep? {
      if s.now < s.closers[first].deadline {
        events, t := UntilFirst(s, first);
      }
      events, t := On(s, events, t, Wake(first));
    }
    if t.closers[first].stage.Checking? {
      events, t := On(s, events, t, Check(first));
    }
  }

  /**
   * Some timer can close the open window before its 180 seconds are over exactly if
   * the timer of a window stored earlier has not run yet.
   */
  lemma ClosesEarlyIff(s: State)
    requires Reachable(s) && s.slot.Some?
    ensures s.slot.value < |s.windows|
    ensures (exists events, c :: ClosesEarly(s, events, c)) <==> exists c :: IsOlderTimer(s, c)
  {
    ReachableInv(s);
    if events, c :| ClosesEarly(s, events, c) {
      EarlyIsOlder(s, events, c);
    }
    if c :| IsOlderTimer(s, c) {
      var first := FirstPending(s.closers, c);
      assert DeadlineInv(s, c) && WindowInv(s, s.slot.value);
      var events := FirstCloses(s, first);
      assert ClosesEarly(s, events, first);
    }
  }

  /** The step takes away the session of a window other than `own`. */
  predicate DiscardsOther(s: State, t: State, own: Option<nat>) {
    s.session.Some? && t.session.None? && s.session != own
  }

  lemma ClearStep(s: State, c: nat)
    requires SessionInv(s) && CloserStep(s, Clear(c)).Some?
    ensures s.closers[c].stage.Clearing?
    ensures DiscardsOther(s, CloserStep(s, Clear(c)).value, s.closers[c].stage.own) <==>
      s.session.Some? && s.closers[c].stage.own != Some(|s.windows| - 1)
  {
  }

  /**
   * A stopper discards the session of a window that it has not closed exactly if
   * there is a session and its own window is not the newest one.
   */
  lemma ClearDiscardsOtherIff(s: State, c: nat)
    requires Reachable(s) && Next(s, Clear(c)).Some?
    ensures s.closers[c].stage.Clearing?
    ensures DiscardsOther(s, Next(s, Clear(c)).value, s.closers[c].stage.own) <==>
      s.session.Some? && s.closers[c].stage.own != Some(|s.windows| - 1)
  {
    ReachableInv(s);
    ClearStep(s, c);
  }

  /** The step takes the runtime of window `v` out of the slot. */
  predicate TakesRuntimeOf(s: State, t: State, v: nat) {
    && v < |s.windows| && v < |t.windows|
    && s.windows[v].fate.InSlot? && t.windows[v].fate.TakenByServe?
  }

  /**
   * A thread that has paired takes the runtime of another window exactly if there
   * is one in the slot and its own has left it already.
   */
  lemma ThreadTakesOtherIff(s: State, w: nat)
    requires Reachable(s) && Next(s, ThreadTake(w)).Some?
    ensures w < |s.windows|
    ensures (exists v :: v != w && TakesRuntimeOf(s, Next(s, ThreadTake(w)).value, v)) <==>
      s.slot.Some? && !s.windows[w].fate.InSlot?
  {
    ReachableInv(s);
    var t := Next(s, ThreadTake(w)).value;
    Taken(s, TakenByServe, false);
    assert WindowInv(s, w);
    if s.slot.Some? && !s.windows[w].fate.InSlot? {
      assert WindowInv(s, s.slot.value);
      assert TakesRuntimeOf(s, t, s.slot.value);
    }
    if v :| v != w && TakesRuntimeOf(s, t, v) {
      assert WindowInv(s, v);
    }
  }

  lemma RobbedStays(s: State, e: Event, w: nat)
    requires SlotInv(s) && Next(s, e).Some? && w < |s.windows|
    requires s.windows[w].fate.TakenByServe? && !s.windows[w].unblocked
    ensures var t := Next(s, e).value;
      w < |t.windows| && t.windows[w].fate.TakenByServe? && !t.windows[w].unblocked
  {
    assert WindowInv(s, w);
    if IsStart(e) {
      StartKeepsRobbed(s, e, w);
    } else if IsCloser(e) {
      CloserKeepsRobbed(s, e, w);
    } else if IsThread(e) {
      ThreadKeepsRobbed(s, e, w);
    }
  }

  lemma CloserKeepsRobbed(s: State, e: Event, w: nat)
    requires SlotInv(s) && CloserStep(s, e).Some? && w < |s.windows|
    requires s.windows[w].fate.TakenByServe? && !s.windows[w].unblocked
    ensures var t := CloserStep(s, e).value;
      w < |t.windows| && t.windows[w].fate.TakenByServe? && !t.windows[w].unblocked
  {
    assert WindowInv(s, w);
    Taken(s, TakenByStop, true);
  }

  lemma ThreadKeepsRobbed(s: State, e: Event, w: nat)
    requires SlotInv(s) && ThreadStep(s, e).Some? && w < |s.windows|
    requires s.windows[w].fate.TakenByServe? && !s.windows[w].unblocked
    ensures var t := ThreadStep(s, e).value;
      w < |t.windows| && t.windows[w].fate.TakenByServe? && !t.windows[w].unblocked
  {
    assert WindowInv(s, w);
    Taken(s, TakenByServe, false);
  }

  lemma StartKeepsRobbed(s: State, e: Event, w: nat)
    requires SlotInv(s) && StartStep(s, e).Some? && w < |s.windows|
    requires s.windows[w].fate.TakenByServe? && !s.windows[w].unblocked
    ensures var t := StartStep(s, e).value;
      w < |t.windows| && t.windows[w].fate.TakenByServe? && !t.windows[w].unblocked
  {
    assert WindowInv(s, w);
    Taken(s, TakenByStop, true);
  }

  /**
   * A window whose runtime was taken by a serve thread without having been unblocked
   * is never unblocked: its own thread cannot leave its loop but by pairing.
   */
  lemma {:induction false} NeverUnblocked(s: State, events: seq<Event>, w: nat)
    requires Reachable(s) && w < |s.windows| && Run(s, events).Some?
    requires s.windows[w].fate.TakenByServe? && !s.windows[w].unblocked
    ensures var t := Run(s, events).value;
      && w < |t.windows| && t.windows[w].fate.TakenByServe? && !t.windows[w].unblocked
      && Next(t, Leave(w)).None?
  {
    ReachableInv(s);
    if events != [] {
      var init := events[..|events| - 1];
      NeverUnblocked(s, init, w);
      RunKeepsInv(s, init);
      RobbedStays(Run(s, init).value, events[|events| - 1], w);
    }
  }

  /** The thread of `w` leaves its loop only after a successful pair or once unblocked. */
  ghost predicate EndsForCause(s: State, w: nat, hasPaired: bool) {
    w < |s.windows| && !hasPaired ==>
      && !s.windows[w].thread.TakingRuntime? && !s.windows[w].thread.ClearingSession?
      && (s.windows[w].thread.Exited? ==> s.windows[w].unblocked)
  }

  lemma StepEndsForCause(s: State, e: Event, w: nat, hasPaired: bool)
    requires SlotInv(s) && EndsForCause(s, w, hasPaired) && Next(s, e).Some?
    ensures EndsForCause(Next(s, e).value, w, hasPaired || e == Respond(w, true))
  {
    if IsStart(e) {
      StartEndsForCause(s, e, w, hasPaired);
    } else if IsCloser(e) {
      CloserEndsForCause(s, e, w, hasPaired);
    } else if IsThread(e) {
      ThreadEndsForCause(s, e, w, hasPaired);
    }
  }

  lemma StartEndsForCause(s: State, e: Event, w: nat, hasPaired: bool)
    requires SlotInv(s) && EndsForCause(s, w, hasPaired) && StartStep(s, e).Some?
    ensures EndsForCause(StartStep(s, e).value, w, hasPaired)
  {
    Taken(s, TakenByStop, true);
  }

  lemma CloserEndsForCause(s: State, e: Event, w: nat, hasPaired: bool)
    requires SlotInv(s) && EndsForCause(s, w, hasPaired) && CloserStep(s, e).Some?
    ensures EndsForCause(CloserStep(s, e).value, w, hasPaired)
  {
    Taken(s, TakenByStop, true);
  }

  lemma ThreadEndsForCause(s: State, e: Event, w: nat, hasPaired: bool)
    requires SlotInv(s) && EndsForCause(s, w, hasPaired) && ThreadStep(s, e).Some?
    ensures EndsForCause(ThreadStep(s, e).value, w, hasPaired || e == Respond(w, true))
  {
    Taken(s, TakenByServe, false);
  }

  /**
   * Requests that do not pair never end a window: over every run, a thread that has
   * left its loop has paired or was unblocked, and it tears down after pairing only.
   */
  lemma OnlyPairingEndsServing(events: seq<Event>, w: nat)
    requires Run(INIT, events).Some? && w < |Run(INIT, events).value.windows|
    ensures var win := Run(INIT, events).value.windows[w];
      && (win.thread.TakingRuntime? || win.thread.ClearingSession? ==> Respond(w, true) in events)
      && (win.thread.Exited? ==> Respond(w, true) in events || win.unblocked)
  {
    EndsOnlyForCause(events, w);
  }

  lemma {:induction false} EndsOnlyForCause(events: seq<Event>, w: nat)
    requires Run(INIT, events).Some?
    ensures EndsForCause(Run(INIT, events).value, w, Respond(w, true) in events)
  {
    if events != [] {
      var init, e := events[..|events| - 1], events[|events| - 1];
      EndsOnlyForCause(init, w);
      RunKeepsInv(INIT, init);
      StepEndsForCause(Run(INIT, init).value, e, w, Respond(w, true) in init);
      assert events == init + [e];
    }
  }

  // ------------------------------------------------------------------
  // Joining never blocks for good
  // ------------------------------------------------------------------

  lemma Then(s: State, e: Event) returns (t: State)
    requires Reachable(s) && Next(s, e).Some?
    ensures t == Next(s, e).value && Reachable(t)
  {
    t := Next(s, e).value;
    var events :| Run(INIT, events) == Some(s);
    assert (events + [e])[..|events|] == events;
    assert Run(INIT, events + [e]) == Some(t);
  }

  /** `t` comes after `s` by steps of thread `w` and of whoever holds the session lock only. */
  ghost predicate Leads(s: State, events: seq<Event>, t: State, w: nat) {
    && Run(s, events) == Some(t)
    && forall i :: 0 <= i < |events| ==>
         events[i] in {Leave(w), ThreadTake(w), ThreadClear(w)} || (events[i].Respond? && !events[i].paired)
  }

  lemma LeadsOn(s: State, events: seq<Event>, t: State, w: nat, e: Event) returns (more: seq<Event>, u: State)
    requires Leads(s, events, t, w) && Next(t, e).Some?
    requires e in {Leave(w), ThreadTake(w), ThreadClear(w)} || (e.Respond? && !e.paired)
    ensures more == events + [e] && u == Next(t, e).value && Leads(s, more, u, w)
  {
    more, u := events + [e], Next(t, e).value;
    assert more[..|events|] == events;
  }

  /** Whoever holds the session lock can give it back by itself. */
  lemma LockIsReleased(s: State, w: nat) returns (events: seq<Event>, t: State)
    requires Inv(s) && IsUnblocked(s, w)
    ensures Leads(s, events, t, w) && t.sessionOwner.None? && SlotInv(t) && IsUnblocked(t, w)
    ensures !t.windows[w].thread.Processing?
  {
    events, t := [], s;
    if s.sessionOwner.Some? {
      StepKeepsSlot(s, Respond(s.sessionOwner.value, false));
      events, t := LeadsOn(s, events, t, w, Respond(s.sessionOwner.value, false));
    }
  }

  /** From outside request processing, at most two steps of its own end the thread. */
  lemma FinishesAlone(s: State, events: seq<Event>, t: State, w: nat) returns (more: seq<Event>, u: State)
    requires Leads(s, events, t, w) && SlotInv(t) && IsUnblocked(t, w)
    requires t.sessionOwner.None? && !t.windows[w].thread.Processing? && !t.windows[w].thread.TakingRuntime?
    ensures Leads(s, more, u, w) && HasExited(u, w)
  {
    more, u := events, t;
    if t.windows[w].thread.ClearingSession? {
      more, u := LeadsOn(s, events, t, w, ThreadClear(w));
    } else if t.windows[w].thread.Serving? {
      more, u := LeadsOn(s, events, t, w, Leave(w));
    }
  }

  lemma TakesRuntime(s: State, events: seq<Event>, t: State, w: nat) returns (more: seq<Event>, u: State)
    requires Leads(s, events, t, w) && SlotInv(t) && IsUnblocked(t, w)
    requires t.sessionOwner.None? && t.windows[w].thread.TakingRuntime?
    ensures Leads(s, more, u, w) && SlotInv(u) && IsUnblocked(u, w)
    ensures u.sessionOwner.None? && u.windows[w].thread.ClearingSession?
  {
    Taken(t, TakenByServe, false);
    StepKeepsSlot(t, ThreadTake(w));
    more, u := LeadsOn(s, events, t, w, ThreadTake(w));
  }

  /**
   * A thread that is being joined can always finish, whatever else is going on:
   * only itself and the holder of the session lock need to take steps.
   */
  lemma JoinedThreadCanFinish(s: State, w: nat) returns (events: seq<Event>, t: State)
    requires Reachable(s)
    requires s.starter == JoiningOld(w) || exists c :: 0 <= c < |s.closers| && s.closers[c].stage == Joining(w)
    ensures Leads(s, events, t, w) && HasExited(t, w)
  {
    ReachableInv(s);
    events, t := LockIsReleased(s, w);
    if t.windows[w].thread.TakingRuntime? {
      events, t := TakesRuntime(s, events, t, w);
    }
    events, t := FinishesAlone(s, events, t, w);
  }

  // ------------------------------------------------------------------
  // Nobody is stuck
  // ------------------------------------------------------------------

  lemma {:induction false} RunConcat(s: State, a: seq<Event>, b: seq<Event>)
    requires Run(s, a).Some?
    ensures Run(s, a + b) == Run(Run(s, a).value, b)
  {
    if b == [] {
      assert a + b == a;
    } else {
      RunConcat(s, a, b[..|b| - 1]);
      assert (a + b)[..|a + b| - 1] == a + b[..|b| - 1];
    }
  }

  lemma ThreadStepKeeps(s: State, e: Event)
    requires SlotInv(s) && ThreadStep(s, e).Some?
    ensures var t := ThreadStep(s, e).value;
      t.starter == s.starter && t.closers == s.closers && |t.windows| == |s.windows|
  {
    Taken(s, TakenByServe, false);
  }

  /** The steps that end a thread leave starter and closers where they are. */
  lemma {:induction false} LeadsKeeps(s: State, events: seq<Event>, t: State, w: nat)
    requires Inv(s) && Leads(s, events, t, w)
    ensures t.starter == s.starter && t.closers == s.closers && |t.windows| == |s.windows|
  {
    if events != [] {
      var init, e := events[..|events| - 1], events[|events| - 1];
      var between := Run(s, init).value;
      assert forall i :: 0 <= i < |init| ==> init[i] == events[i];
      LeadsKeeps(s, init, between, w);
      RunKeepsInv(s, init);
      assert e == events[|events| - 1] && IsThread(e);
      ThreadStepKeeps(between, e);
    }
  }

  /** A run can go on until the session lock is free. */
  lemma LockFreed(s: State, events: seq<Event>, t: State) returns (more: seq<Event>, u: State)
    requires Inv(s) && Run(s, events) == Some(t)
    ensures Run(s, more) == Some(u) && u.sessionOwner.None?
    ensures u.starter == t.starter && u.closers == t.closers && |u.windows| == |t.windows|
    ensures forall w: nat :: HasExited(t, w) ==> HasExited(u, w)
  {
    more, u := events, t;
    RunKeepsInv(s, events);
    if t.sessionOwner.Some? {
      more, u := On(s, events, t, Respond(t.sessionOwner.value, false));
    }
  }

  /** A run can go on until the thread that is joined has ended, and the session lock is free. */
  lemma ThreadEnded(s: State, events: seq<Event>, t: State, w: nat) returns (more: seq<Event>, u: State)
    requires Inv(s) && Run(s, events) == Some(t) && Reachable(t)
    requires t.starter == JoiningOld(w) || exists c :: 0 <= c < |t.closers| && t.closers[c].stage == Joining(w)
    ensures Run(s, more) == Some(u) && u.sessionOwner.None? && HasExited(u, w)
    ensures u.starter == t.starter && u.closers == t.closers && |u.windows| == |t.windows|
  {
    RunKeepsInv(s, events);
    var ending, between := JoinedThreadCanFinish(t, w);
    LeadsKeeps(t, ending, between, w);
    RunConcat(s, events, ending);
    more, u := LockFreed(s, events + ending, between);
  }

  /** How many steps a start call is away from its end. */
  function Remaining(st: Starter): nat {
    match st
    case TakingOld => 8
    case JoiningOld(_) => 7
    case ClearingOld => 6
    case Opening => 5
    case StoringSession => 4
    case StartingThread => 3
    case StoringRuntime => 2
    case StartingTimer => 1
    case Idle => 0
  }

  /** Whether the window of the start call is yet to be opened. */
  predicate IsBeforeOpening(st: Starter) {
    st.TakingOld? || st.JoiningOld? || st.ClearingOld? || st.Opening?
  }

  /** How a start call goes on; at the point of opening it may also fail. */
  function StarterNext(st: Starter, opens: bool): Event {
    match st
    case TakingOld => StartTake
    case JoiningOld(_) => StartJoined
    case ClearingOld => StartClear
    case Opening => if opens then Open else Fail
    case StoringSession => StoreSession
    case StartingThread => StartThread
    case StoringRuntime => StoreRuntime
    case StartingTimer => StartTimer
    case Idle => Begin
  }

  lemma StarterStep(t: State, opens: bool)
    requires SlotInv(t) && !t.starter.Idle? && t.sessionOwner.None?
    requires t.starter.JoiningOld? ==> HasExited(t, t.starter.w)
    ensures var e := StarterNext(t.starter, opens);
      && IsStart(e) && StartStep(t, e).Some?
      && var u := StartStep(t, e).value;
         && Remaining(u.starter) < Remaining(t.starter)
         && |u.windows| + (if IsBeforeOpening(u.starter) && opens then 1 else 0) ==
            |t.windows| + if IsBeforeOpening(t.starter) && opens then 1 else 0
  {
    Taken(t, TakenByStop, true);
  }

  lemma ReachedBy(s: State, events: seq<Event>, t: State)
    requires Reachable(s) && Run(s, events) == Some(t)
    ensures Reachable(t)
  {
    var start :| Run(INIT, start) == Some(s);
    RunConcat(INIT, start, events);
  }

  lemma {:induction false} StarterGoesOn(s: State, events: seq<Event>, t: State, opens: bool)
    returns (more: seq<Event>, u: State)
    requires Reachable(s) && Run(s, events) == Some(t)
    ensures Run(s, more) == Some(u) && u.starter.Idle?
    ensures |u.windows| == |t.windows| + if IsBeforeOpening(t.starter) && opens then 1 else 0
    decreases Remaining(t.starter)
  {
    ReachableInv(s);
    if t.starter.Idle? {
      more, u := events, t;
    } else {
      if t.starter.JoiningOld? {
        ReachedBy(s, events, t);
        more, u := ThreadEnded(s, events, t, t.starter.w);
      } else {
        more, u := LockFreed(s, events, t);
      }
      RunKeepsInv(s, more);
      StarterStep(u, opens);
      more, u := On(s, more, u, StarterNext(t.starter, opens));
      more, u := StarterGoesOn(s, more, u, opens);
    }
  }

  /** A start call can always return, whatever else is going on, with or without having opened its window. */
  lemma StartCanReturn(s: State, opens: bool) returns (more: seq<Event>, t: State)
    requires Reachable(s)
    ensures Run(s, more) == Some(t) && t.starter.Idle?
    ensures |t.windows| == |s.windows| + if IsBeforeOpening(s.starter) && opens then 1 else 0
  {
    more, t := StarterGoesOn(s, [], s, opens);
  }

  lemma FinishClearing(s: State, events: seq<Event>, t: State, c: nat) returns (more: seq<Event>, u: State)
    requires Inv(s) && Run(s, events) == Some(t) && c < |t.closers| && t.closers[c].stage.Clearing?
    ensures Run(s, more) == Some(u) && StageIs(u, c, Gone) && u.session.None?
  {
    more, u := LockFreed(s, events, t);
    more, u := On(s, more, u, Clear(c));
  }

  lemma FinishJoining(s: State, events: seq<Event>, t: State, c: nat) returns (more: seq<Event>, u: State)
    requires Reachable(s) && Run(s, events) == Some(t) && c < |t.closers| && t.closers[c].stage.Joining?
    ensures Run(s, more) == Some(u) && StageIs(u, c, Gone) && u.session.None?
  {
    ReachableInv(s);
    ReachedBy(s, events, t);
    more, u := ThreadEnded(s, events, t, t.closers[c].stage.w);
    more, u := On(s, more, u, Joined(c));
    more, u := FinishClearing(s, more, u, c);
  }

  lemma FinishTaking(s: State, events: seq<Event>, t: State, c: nat) returns (more: seq<Event>, u: State)
    requires Reachable(s) && Run(s, events) == Some(t) && StageIs(t, c, Taking)
    ensures Run(s, more) == Some(u) && StageIs(u, c, Gone) && u.session.None?
  {
    ReachableInv(s);
    RunKeepsInv(s, events);
    Taken(t, TakenByStop, true);
    more, u := On(s, events, t, Take(c));
    if u.closers[c].stage.Joining? {
      more, u := FinishJoining(s, more, u, c);
    } else {
      more, u := FinishClearing(s, more, u, c);
    }
  }

  /**
   * A stop request, or a timer that is running, can always finish, and leaves no
   * session, unless it is a timer that finds no window.
   */
  lemma CloserCanFinish(s: State, c: nat) returns (more: seq<Event>, t: State)
    requires Reachable(s) && c < |s.closers| && !s.closers[c].stage.Asleep? && !s.closers[c].stage.Gone?
    ensures Run(s, more) == Some(t) && StageIs(t, c, Gone)
    ensures (s.closers[c].stage.Checking? && s.slot.None?) || t.session.None?
  {
    ReachableInv(s);
    more, t := [], s;
    match s.closers[c].stage
    case Checking =>
      more, t := On(s, more, t, Check(c));
      if s.slot.Some? {
        more, t := FinishTaking(s, more, t, c);
      }
    case Taking => more, t := FinishTaking(s, more, t, c);
    case Joining(_) => more, t := FinishJoining(s, more, t, c);
    case Clearing(_) => more, t := FinishClearing(s, more, t, c);
    case _ =>
  }

  // ------------------------------------------------------------------
  // Runs that show what does not hold
  // ------------------------------------------------------------------

  lemma By(s: State, e: Event, t: State)
    requires Reachable(s) && Next(s, e) == Some(t)
    ensures Reachable(t)
  {
    var u := Then(s, e);
  }

  lemma ByStart(s: State, e: Event, t: State)
    requires Reachable(s) && IsStart(e) && StartStep(s, e) == Some(t)
    ensures Reachable(t)
  {
    By(s, e, t);
  }

  lemma ByCloser(s: State, e: Event, t: State)
    requires Reachable(s) && IsCloser(e) && CloserStep(s, e) == Some(t)
    ensures Reachable(t)
  {
    By(s, e, t);
  }

  lemma ByThread(s: State, e: Event, t: State)
    requires Reachable(s) && IsThread(e) && ThreadStep(s, e) == Some(t)
    ensures Reachable(t)
  {
    By(s, e, t);
  }

  /** An idle daemon in which windows were opened, and closers are at work. */
  function Quiet(windows: seq<Window>, slot: Option<nat>, session: Option<nat>, closers: seq<Closer>, now: nat): State {
    State(windows, slot, session, None, Idle, closers, now)
  }

  /** A start call up to the point where it opens its own window. */
  lemma PrepareWindow(windows: seq<Window>, session: Option<nat>, closers: seq<Closer>, now: nat)
    requires Reachable(Quiet(windows, None, session, closers, now))
    ensures Reachable(State(
      windows + [Window(Unstored, NotStarted, false, 0, 0)], None, None, None, StoringSession, closers, now))
  {
    ByStart(Quiet(windows, None, session, closers, now), Begin,
            State(windows, None, session, None, TakingOld, closers, now));
    ByStart(State(windows, None, session, None, TakingOld, closers, now), StartTake,
            State(windows, None, session, None, ClearingOld, closers, now));
    ByStart(State(windows, None, session, None, ClearingOld, closers, now), StartClear,
            State(windows, None, None, None, Opening, closers, now));
    ByStart(State(windows, None, None, None, Opening, closers, now), Open,
            State(
              windows + [Window(Unstored, NotStarted, false, 0, 0)], None, None, None, StoringSession, closers, now));
  }

  lemma StartWindow(windows: seq<Window>, closers: seq<Closer>, now: nat)
    requires Reachable(State(
      windows + [Window(Unstored, NotStarted, false, 0, 0)], None, None, None, StoringSession, closers, now))
    ensures Reachable(State(
      windows + [Window(Unstored, Serving, false, 0, 0)], None, Some(|windows|), None, StoringRuntime, closers, now))
  {
    var w := |windows|;
    var unstored := windows + [Window(Unstored, NotStarted, false, 0, 0)];
    var started := windows + [Window(Unstored, Serving, false, 0, 0)];
    assert unstored[w := Window(Unstored, Serving, false, 0, 0)] == started;
    ByStart(State(unstored, None, None, None, StoringSession, closers, now), StoreSession,
            State(unstored, None, Some(w), None, StartingThread, closers, now));
    ByStart(State(unstored, None, Some(w), None, StartingThread, closers, now), StartThread,
            State(started, None, Some(w), None, StoringRuntime, closers, now));
  }

  lemma StoreWindow(windows: seq<Window>, closers: seq<Closer>, now: nat)
    requires Reachable(State(
      windows + [Window(Unstored, Serving, false, 0, 0)], None, Some(|windows|), None, StoringRuntime, closers, now))
    ensures Reachable(State(
      windows + [Window(InSlot, Serving, false, now, 0)],
      Some(|windows|), Some(|windows|), None, StartingTimer, closers, now))
  {
    var w := |windows|;
    var started := windows + [Window(Unstored, Serving, false, 0, 0)];
    var stored := windows + [Window(InSlot, Serving, false, now, 0)];
    assert started[w := Window(InSlot, Serving, false, now, 0)] == stored;
    ByStart(State(started, None, Some(w), None, StoringRuntime, closers, now), StoreRuntime,
            State(stored, Some(w), Some(w), None, StartingTimer, closers, now));
  }

  lemma TimeWindow(windows: seq<Window>, w: nat, closers: seq<Closer>, now: nat)
    requires |windows| == w + 1
    requires Reachable(State(windows, Some(w), Some(w), None, StartingTimer, closers, now))
    ensures Reachable(Quiet(windows, Some(w), Some(w), closers + [Closer(Some(w), now + PAIRING_TTL, Asleep)], now))
  {
    ByStart(State(windows, Some(w), Some(w), None, StartingTimer, closers, now), StartTimer,
            Quiet(windows, Some(w), Some(w), closers + [Closer(Some(w), now + PAIRING_TTL, Asleep)], now));
  }

  /** Opens a window while no other is open. */
  lemma OpenWindow(windows: seq<Window>, session: Option<nat>, closers: seq<Closer>, now: nat)
    requires Reachable(Quiet(windows, None, session, closers, now))
    ensures Reachable(Quiet(
      windows + [Window(InSlot, Serving, false, now, 0)], Some(|windows|), Some(|windows|),
      closers + [Closer(Some(|windows|), now + PAIRING_TTL, Asleep)], now))
  {
    PrepareWindow(windows, session, closers, now);
    StartWindow(windows, closers, now);
    StoreWindow(windows, closers, now);
    TimeWindow(windows + [Window(InSlot, Serving, false, now, 0)], |windows|, closers, now);
  }

  const TIMER0: Closer := Closer(Some(0), PAIRING_TTL, Asleep)

  /** Only the first window is open, its thread being at `thread`. */
  function FirstOpen(thread: Thread, owner: Option<nat>, closers: seq<Closer>): State {
    State([Window(InSlot, thread, false, 0, 0)], Some(0), Some(0), owner, Idle, closers, 0)
  }

  lemma FirstOpened()
    ensures Reachable(FirstOpen(Serving, None, [TIMER0]))
  {
    assert Run(INIT, []) == Some(INIT);
    OpenWindow([], None, [], 0);
    assert [] + [Window(InSlot, Serving, false, 0, 0)] == [Window(InSlot, Serving, false, 0, 0)];
    assert [] + [TIMER0] == [TIMER0];
  }

  /** The first window's thread has just answered a successful pair. */
  lemma FirstPaired()
    ensures Reachable(FirstOpen(TakingRuntime, None, [TIMER0]))
  {
    FirstOpened();
    var serving, processing, paired :=
      Window(InSlot, Serving, false, 0, 0), Window(InSlot, Processing, false, 0, 0),
      Window(InSlot, TakingRuntime, false, 0, 0);
    assert [serving][0 := processing] == [processing] && [processing][0 := paired] == [paired];
    ByThread(FirstOpen(Serving, None, [TIMER0]), Lock(0), FirstOpen(Processing, Some(0), [TIMER0]));
    ByThread(FirstOpen(Processing, Some(0), [TIMER0]), Respond(0, true), FirstOpen(TakingRuntime, None, [TIMER0]));
  }

  /** The first window, taken by a stop request that is joining its thread. */
  function FirstJoined(thread: Thread): State {
    Quiet([Window(TakenByStop, thread, true, 0, 1)], None, Some(0), [TIMER0, Closer(None, 0, Joining(0))], 0)
  }

  lemma FirstStopped(thread: Thread)
    requires Reachable(FirstOpen(thread, None, [TIMER0]))
    ensures Reachable(FirstJoined(thread))
  {
    var stopper, joiner := Closer(None, 0, Taking), Closer(None, 0, Joining(0));
    assert [TIMER0] + [stopper] == [TIMER0, stopper];
    ByCloser(FirstOpen(thread, None, [TIMER0]), Stop, FirstOpen(thread, None, [TIMER0, stopper]));
    assert [TIMER0, stopper][1 := joiner] == [TIMER0, joiner];
    assert [Window(InSlot, thread, false, 0, 0)][0 := Window(TakenByStop, thread, true, 0, 1)]
        == [Window(TakenByStop, thread, true, 0, 1)];
    ByCloser(FirstOpen(thread, None, [TIMER0, stopper]), Take(1), FirstJoined(thread));
  }

  /** A stop request on its way, after the thread of the window it took. */
  function Stopping(
      thread: Thread, stage: Stage, rest: seq<Window>, slot: Option<nat>, session: Option<nat>,
      more: seq<Closer>): State
  {
    Quiet([Window(TakenByStop, thread, true, 0, 1)] + rest, slot, session, [TIMER0, Closer(None, 0, stage)] + more, 0)
  }

  lemma NextStage(stage: Stage, stage': Stage, more: seq<Closer>)
    ensures ([TIMER0, Closer(None, 0, stage)] + more)[1 := Closer(None, 0, stage')] ==
      [TIMER0, Closer(None, 0, stage')] + more
  {
  }

  /** The joined thread leaves. */
  lemma JoinFirst(rest: seq<Window>, slot: Option<nat>, session: Option<nat>, more: seq<Closer>)
    requires Reachable(Stopping(Serving, Joining(0), rest, slot, session, more))
    ensures Reachable(Stopping(Exited, Clearing(Some(0)), rest, slot, session, more))
  {
    assert ([Window(TakenByStop, Serving, true, 0, 1)] + rest)[0 := Window(TakenByStop, Exited, true, 0, 1)]
        == [Window(TakenByStop, Exited, true, 0, 1)] + rest;
    ByThread(Stopping(Serving, Joining(0), rest, slot, session, more), Leave(0),
             Stopping(Exited, Joining(0), rest, slot, session, more));
    NextStage(Joining(0), Clearing(Some(0)), more);
    ByCloser(Stopping(Exited, Joining(0), rest, slot, session, more), Joined(1),
             Stopping(Exited, Clearing(Some(0)), rest, slot, session, more));
  }

  /** The joined thread leaves, and the stopper clears the session. */
  lemma FinishStop(rest: seq<Window>, slot: Option<nat>, session: Option<nat>, more: seq<Closer>)
    requires Reachable(Stopping(Serving, Joining(0), rest, slot, session, more))
    ensures Reachable(Stopping(Exited, Gone, rest, slot, None, more))
  {
    JoinFirst(rest, slot, session, more);
    NextStage(Clearing(Some(0)), Gone, more);
    ByCloser(Stopping(Exited, Clearing(Some(0)), rest, slot, session, more), Clear(1),
             Stopping(Exited, Gone, rest, slot, None, more));
  }

  lemma FirstClosed()
    ensures Reachable(Quiet([Window(TakenByStop, Exited, true, 0, 1)], None, None, [TIMER0, Closer(None, 0, Gone)], 0))
  {
    FirstOpened();
    FirstStopped(Serving);
    assert [Window(TakenByStop, Serving, true, 0, 1)] + [] == [Window(TakenByStop, Serving, true, 0, 1)];
    assert [TIMER0, Closer(None, 0, Joining(0))] + [] == [TIMER0, Closer(None, 0, Joining(0))];
    FinishStop([], None, Some(0), []);
    assert [Window(TakenByStop, Exited, true, 0, 1)] + [] == [Window(TakenByStop, Exited, true, 0, 1)];
    assert [TIMER0, Closer(None, 0, Gone)] + [] == [TIMER0, Closer(None, 0, Gone)];
  }

  /** A window was opened and stopped; a hundred seconds later the next one is opened. */
  lemma SecondWindowLater()
    ensures Reachable(Quiet(
      [Window(TakenByStop, Exited, true, 0, 1)] + [Window(InSlot, Serving, false, 100, 0)], Some(1), Some(1),
      [TIMER0, Closer(None, 0, Gone)] + [Closer(Some(1), 280, Asleep)], 100))
  {
    FirstClosed();
    var windows, closers := [Window(TakenByStop, Exited, true, 0, 1)], [TIMER0, Closer(None, 0, Gone)];
    By(Quiet(windows, None, None, closers, 0), Tick(100), Quiet(windows, None, None, closers, 100));
    OpenWindow(windows, None, closers, 100);
  }

  /** The timer of the first window, which was stopped, is about to close the second one after 80 seconds. */
  lemma OldTimerClosesNewWindow() returns (s: State, c: nat)
    ensures Reachable(s) && s.slot == Some(1) && |s.windows| == 2
    ensures StageIs(s, c, Taking) && s.closers[c].timerOf == Some(0) && s.windows[0].fate.TakenByStop?
    ensures s.now == s.windows[1].storedAt + 80
    ensures Next(s, Take(c)).Some? && Next(s, Take(c)).value.slot.None?
  {
    SecondWindowLater();
    var windows := [Window(TakenByStop, Exited, true, 0, 1)] + [Window(InSlot, Serving, false, 100, 0)];
    var closers := [TIMER0, Closer(None, 0, Gone)] + [Closer(Some(1), 280, Asleep)];
    By(Quiet(windows, Some(1), Some(1), closers, 100), Tick(80), Quiet(windows, Some(1), Some(1), closers, 180));
    c := 0;
    s := Expire(Quiet(windows, Some(1), Some(1), closers, 180), c);
  }

  lemma Expire(s: State, c: nat) returns (t: State)
    requires Reachable(s) && StageIs(s, c, Asleep) && s.now >= s.closers[c].deadline && s.slot.Some?
    ensures Reachable(t) && t == SetStage(s, c, Taking)
  {
    t := Then(s, Wake(c));
    t := Then(t, Check(c));
  }

  /** The first window is being closed by a stop request while the second one is opened. */
  function BothWindows(thread: Thread): State {
    Quiet([Window(TakenByStop, thread, true, 0, 1)] + [Window(InSlot, Serving, false, 0, 0)], Some(1), Some(1),
          [TIMER0, Closer(None, 0, Joining(0))] + [Closer(Some(1), 180, Asleep)], 0)
  }

  lemma SecondWindowMeanwhile(thread: Thread)
    requires Reachable(FirstJoined(thread))
    ensures Reachable(BothWindows(thread))
  {
    OpenWindow([Window(TakenByStop, thread, true, 0, 1)], Some(0), [TIMER0, Closer(None, 0, Joining(0))], 0);
  }

  /** A stopper is about to discard the session of a window that is open and that it has not closed. */
  lemma LateStopperClearsNewSession() returns (s: State, c: nat)
    ensures Reachable(s) && StageIs(s, c, Clearing(Some(0)))
    ensures s.slot == s.session == Some(1) && |s.windows| == 2 && s.windows[1].thread.Serving?
    ensures Next(s, Clear(c)).Some? && DiscardsOther(s, Next(s, Clear(c)).value, Some(0))
  {
    FirstOpened();
    FirstStopped(Serving);
    SecondWindowMeanwhile(Serving);
    JoinFirst([Window(InSlot, Serving, false, 0, 0)], Some(1), Some(1), [Closer(Some(1), 180, Asleep)]);
    s, c := Stopping(Exited, Clearing(Some(0)), [Window(InSlot, Serving, false, 0, 0)], Some(1), Some(1),
                     [Closer(Some(1), 180, Asleep)]), 1;
  }

  /**
   * A thread that has paired is about to take the runtime of a newer window, whose
   * own thread serves on and which nobody will unblock.
   */
  lemma PairedThreadTakesNewRuntime() returns (s: State, w: nat, v: nat)
    ensures Reachable(s) && v != w && v < |s.windows|
    ensures s.slot == Some(v) && s.windows[v].thread.Serving? && Next(s, ThreadTake(w)).Some?
    ensures var t := Next(s, ThreadTake(w)).value;
      && TakesRuntimeOf(s, t, v) && t.slot.None?
      && t.windows[v].thread.Serving? && !t.windows[v].unblocked
  {
    FirstPaired();
    FirstStopped(TakingRuntime);
    SecondWindowMeanwhile(TakingRuntime);
    s, w, v := BothWindows(TakingRuntime), 0, 1;
  }
}
