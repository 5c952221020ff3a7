/**
 * The pairing code and the serve loop of one pairing window
 * (crates/backr-core/src/pairing/code.rs and listener.rs).
 */
module Pairing {
  import opened Wrappers
  import opened AuthorizedKeys
  import opened Sequences
  import Text

  const MAX_ATTEMPTS: nat := 5

  // The bytes of a submitted or displayed code.
  type Code = seq<bv8>

  // ------------------------------------------------------------------
  // Comparing codes
  // ------------------------------------------------------------------

  /** One fold step loses no difference and invents none. */
  lemma FoldStep(diff: bv8, x: bv8, y: bv8)
    ensures diff | (x ^ y) == 0 <==> diff == 0 && x == y
  {
    assert x ^ y == 0 <==> x == y;
  }

  method ConstantTimeEq(a: Code, b: Code) returns (equal: bool)
    ensures equal <==> a == b
  {
    if |a| != |b| {
      return false;
    }
    var diff: bv8 := 0;
    for n := 0 to |a|
      invariant diff == 0 <==> a[..n] == b[..n]
    {
      FoldStep(diff, a[n], b[n]);
      assert a[..n + 1] == a[..n] + [a[n]] && b[..n + 1] == b[..n] + [b[n]];
      diff := diff | (a[n] ^ b[n]);
    }
    assert a[..|a|] == a && b[..|b|] == b;
    return diff == 0;
  }

  // ------------------------------------------------------------------
  // What a session answers
  // ------------------------------------------------------------------

  datatype CodeValidation =
    | Valid
    | Invalid(attemptsLeft: nat)
    | Locked
    | AlreadyUsed

  /** The wrong codes among those tried. */
  function Mismatches(code: Code, tried: seq<Code>): nat {
    if tried == [] then 0
    else Mismatches(code, tried[..|tried| - 1]) + if tried[|tried| - 1] == code then 0 else 1
  }

  /** The right code was among them before the attempts were used up. */
  predicate WasAccepted(code: Code, tried: seq<Code>) {
    tried != [] &&
    var init, last := tried[..|tried| - 1], tried[|tried| - 1];
    WasAccepted(code, init) || (last == code && Mismatches(code, init) < MAX_ATTEMPTS)
  }

  /** The answer to `input` after the codes in `tried`. */
  function Expected(code: Code, tried: seq<Code>, input: Code): CodeValidation {
    if WasAccepted(code, tried) then AlreadyUsed
    else if Mismatches(code, tried) >= MAX_ATTEMPTS then Locked
    else if input == code then Valid
    else Invalid(MAX_ATTEMPTS - 1 - Mismatches(code, tried))
  }

  lemma AcceptedAfterOneMore(code: Code, tried: seq<Code>, input: Code)
    ensures WasAccepted(code, tried + [input]) <==>
      WasAccepted(code, tried) || (input == code && Mismatches(code, tried) < MAX_ATTEMPTS)
  {
    assert (tried + [input])[..|tried|] == tried;
  }

  lemma {:induction false} AcceptedStays(code: Code, tried: seq<Code>, more: seq<Code>)
    requires WasAccepted(code, tried)
    ensures WasAccepted(code, tried + more)
  {
    if more == [] {
      assert tried + more == tried;
    } else {
      var init, last := more[..|more| - 1], more[|more| - 1];
      AcceptedStays(code, tried, init);
      AcceptedAfterOneMore(code, tried + init, last);
      assert tried + more == tried + init + [last];
    }
  }

  /** In closed form: one of the codes was right and had fewer than five wrong ones before it. */
  lemma {:induction false} AcceptedIff(code: Code, tried: seq<Code>)
    ensures WasAccepted(code, tried) <==>
      exists i :: 0 <= i < |tried| && tried[i] == code && Mismatches(code, tried[..i]) < 5
  {
    if tried != [] {
      var init, n := tried[..|tried| - 1], |tried| - 1;
      AcceptedIff(code, init);
      assert forall i :: 0 <= i < n ==> init[i] == tried[i] && init[..i] == tried[..i];
    }
  }

  lemma MismatchesAfterOneMore(code: Code, tried: seq<Code>, input: Code)
    ensures Mismatches(code, tried + [input]) == Mismatches(code, tried) + if input == code then 0 else 1
  {
    assert (tried + [input])[..|tried|] == tried;
  }

  /** Whatever is tried in between, a session says Valid at most once, and nothing but AlreadyUsed after. */
  lemma ValidAtMostOnce(code: Code, tried: seq<Code>, input: Code, more: seq<Code>, next: Code)
    requires Expected(code, tried, input) == Valid
    ensures Expected(code, tried + [input] + more, next) == AlreadyUsed
  {
    AcceptedAfterOneMore(code, tried, input);
    AcceptedStays(code, tried + [input], more);
  }

  /** After five wrong codes and no right one before, a session stays locked. */
  lemma {:induction false} LockedForGood(code: Code, tried: seq<Code>, more: seq<Code>, input: Code)
    requires !WasAccepted(code, tried) && Mismatches(code, tried) >= 5
    ensures Expected(code, tried + more, input) == Locked
  {
    if more == [] {
      assert tried + more == tried;
    } else {
      var init, last := more[..|more| - 1], more[|more| - 1];
      LockedForGood(code, tried, init, input);
      AcceptedAfterOneMore(code, tried + init, last);
      MismatchesAfterOneMore(code, tried + init, last);
      assert tried + more == tried + init + [last];
    }
  }

  class PairingSession {
    const code: Code
    var attemptsLeft: nat
    var consumed: bool
    // Which of the daemon's sessions this is, and every code submitted so far.
    ghost const id: nat
    ghost var tried: seq<Code>

    constructor (code: Code, ghost id: nat)
      ensures Sound() && tried == [] && this.code == code && this.id == id
    {
      this.code, this.id := code, id;
      attemptsLeft, consumed, tried := MAX_ATTEMPTS, false, [];
    }

    ghost predicate Sound() reads this {
      && (consumed <==> WasAccepted(code, tried))
      && (!consumed ==>
            attemptsLeft ==
              if Mismatches(code, tried) >= MAX_ATTEMPTS then 0 else MAX_ATTEMPTS - Mismatches(code, tried))
    }

    method Validate(input: Code) returns (r: CodeValidation)
      requires Sound()
      modifies this
      ensures Sound() && tried == old(tried) + [input]
      ensures r == Expected(code, old(tried), input)
    {
      AcceptedAfterOneMore(code, tried, input);
      MismatchesAfterOneMore(code, tried, input);
      tried := tried + [input];
      if consumed {
        return AlreadyUsed;
      }
      if attemptsLeft == 0 {
        return Locked;
      }
      var equal := ConstantTimeEq(input, code);
      if equal {
        consumed := true;
        return Valid;
      }
      attemptsLeft := attemptsLeft - 1;
      return Invalid(attemptsLeft);
    }
  }

  // ------------------------------------------------------------------
  // Pair requests
  // ------------------------------------------------------------------

  datatype PairRequest = PairRequest(pubkey: string, code: Code)

  datatype PairRejection = BadCode(validation: CodeValidation) | BadPubkey | AppendFailed

  /** What arrives at the listener. */
  datatype Incoming = NotPair | BadBody | BadJson | Pair(request: PairRequest)

  // Which normalized lines are public keys: `AuthorizedKeys.IsPubkeyLine`.
  type Recognizer = string -> bool

  function PairLine(isKey: Recognizer, pubkey: string): Option<string> {
    var normalized := NormalizePubkeyLine(pubkey);
    if normalized.Ok? && isKey(normalized.value) then Some(normalized.value) else None
  }

  /** What is handed to `append` is a valid key line in normal form. */
  lemma PairLineIsUsable(pubkey: string)
    requires PairLine(IsPubkeyLine, pubkey).Some?
    ensures IsNormalized(PairLine(IsPubkeyLine, pubkey).value) && IsPubkeyLine(PairLine(IsPubkeyLine, pubkey).value)
  {
    NormalizedLines(pubkey);
  }

  /** A valid key gets through whatever white space is around it, such as a newline at its end. */
  lemma PaddedKeyIsUsable(before: string, line: string, after: string)
    requires IsNormalized(line) && IsPubkeyLine(line) && Text.AllWhitespace(before) && Text.AllWhitespace(after)
    ensures PairLine(IsPubkeyLine, before + line + after) == Some(line)
  {
    Text.TrimSurrounded(before, line, after);
    NormalizeIsIdempotent(line);
    Text.TrimOfTrimmed(line);
  }

  /** A request that is turned away at once, or a key, usable or not, with a code. */
  datatype Offer = Refused(status: nat) | Offered(line: Option<string>, code: Code)

  function OfferOf(isKey: Recognizer, incoming: Incoming): Offer {
    match incoming
    case NotPair => Refused(404)
    case BadBody => Refused(400)
    case BadJson => Refused(400)
    case Pair(request) => Offered(PairLine(isKey, request.pubkey), request.code)
  }

  function Offers(isKey: Recognizer, incoming: seq<Incoming>): (r: seq<Offer>)
    ensures |r| == |incoming| && forall i :: 0 <= i < |r| ==> r[i] == OfferOf(isKey, incoming[i])
  {
    seq(|incoming|, i requires 0 <= i < |incoming| => OfferOf(isKey, incoming[i]))
  }

  /** The code of a request with a usable key reaches the session, no other does. */
  function Submits(offer: Offer): seq<Code> {
    if offer.Offered? && offer.line.Some? then [offer.code] else []
  }

  /** The HTTP status, by whether the session was gone and whether the key could be written. */
  function StatusOf(code: Code, tried: seq<Code>, offer: Offer, gone: bool, written: bool): nat {
    match offer
    case Refused(status) => status
    case Offered(line, input) =>
      if gone then 409
      else if line.None? then 400
      else if Expected(code, tried, input) != Valid then 403
      else if written then 200 else 500
  }

  /** The statuses of a request whose code was accepted. */
  predicate Reached(status: nat) {
    status == 200 || status == 500
  }

  // ------------------------------------------------------------------
  // All requests of all serve loops
  // ------------------------------------------------------------------

  /** A request that some loop has answered, with the session that was in the slot. */
  datatype Turn = Turn(session: Option<nat>, offer: Offer, status: nat)

  /** The codes that reached session `id`. */
  function TriedIn(log: seq<Turn>, id: nat): seq<Code> {
    if log == [] then []
    else
      var n := |log| - 1;
      TriedIn(log[..n], id) + if log[n].session == Some(id) then Submits(log[n].offer) else []
  }

  /** The turn gets the status that belongs to the codes tried before it in its session. */
  predicate Answers(codes: seq<Code>, log: seq<Turn>, turn: Turn) {
    && (turn.offer.Refused? ==> !Reached(turn.offer.status))
    && (turn.session.None? ==> turn.status == StatusOf([], [], turn.offer, true, false))
    && (turn.session.Some? ==>
          && turn.session.value < |codes|
          && turn.status == StatusOf(codes[turn.session.value], TriedIn(log, turn.session.value), turn.offer,
                                     false, turn.status == 200))
  }

  /** The line of a request whose code was accepted is handed to `append`. */
  function HandedBy(offer: Offer, status: nat): seq<string> {
    if Reached(status) && offer.Offered? && offer.line.Some? then [offer.line.value] else []
  }

  /**
   * Every turn is answered rightly, and `appends` are the lines handed over;
   * `codes` are those of all sessions.
   */
  predicate History(codes: seq<Code>, log: seq<Turn>, appends: seq<string>)
    decreases |log|, 1
  {
    if log == [] then appends == [] else EndsWithTurn(codes, log, appends)
  }

  predicate EndsWithTurn(codes: seq<Code>, log: seq<Turn>, appends: seq<string>)
    requires log != []
    decreases |log|, 0
  {
    var n := |log| - 1;
    var lines := HandedBy(log[n].offer, log[n].status);
    && |lines| <= |appends| && appends[|appends| - |lines|..] == lines
    && History(codes, log[..n], appends[..|appends| - |lines|])
    && Answers(codes, log[..n], log[n])
  }

  lemma OneTurnMore(codes: seq<Code>, log: seq<Turn>, appends: seq<string>, turn: Turn)
    requires History(codes, log, appends) && Answers(codes, log, turn)
    ensures History(codes, log + [turn], appends + HandedBy(turn.offer, turn.status))
    ensures forall id: nat ::
      TriedIn(log + [turn], id) == TriedIn(log, id) + if turn.session == Some(id) then Submits(turn.offer) else []
  {
    var lines := HandedBy(turn.offer, turn.status);
    assert (log + [turn])[..|log|] == log && (appends + lines)[..|appends|] == appends;
    assert (appends + lines)[|appends|..] == lines;
    assert EndsWithTurn(codes, log + [turn], appends + lines);
  }

  /** A new session has no part in what has happened. */
  lemma {:induction false} NewSession(codes: seq<Code>, log: seq<Turn>, appends: seq<string>, code: Code)
    requires History(codes, log, appends)
    ensures History(codes + [code], log, appends) && TriedIn(log, |codes|) == []
  {
    if log != [] {
      var n := |log| - 1;
      assert EndsWithTurn(codes, log, appends);
      NewSession(codes, log[..n], appends[..|appends| - |HandedBy(log[n].offer, log[n].status)|], code);
      assert EndsWithTurn(codes + [code], log, appends);
    }
  }

  lemma {:induction false} AnsweredAt(codes: seq<Code>, log: seq<Turn>, appends: seq<string>, i: nat)
    requires History(codes, log, appends) && i < |log|
    ensures Answers(codes, log[..i], log[i])
  {
    assert EndsWithTurn(codes, log, appends);
    if i < |log| - 1 {
      var init, last := log[..|log| - 1], log[|log| - 1];
      AnsweredAt(codes, init, appends[..|appends| - |HandedBy(last.offer, last.status)|], i);
      assert init[..i] == log[..i];
    }
  }

  lemma {:induction false} TriedGrows(log: seq<Turn>, i: nat, k: nat, id: nat)
    requires i <= k <= |log|
    ensures TriedIn(log[..i], id) <= TriedIn(log[..k], id)
  {
    if i < k {
      TriedGrows(log, i, k - 1, id);
      assert log[..k][..k - 1] == log[..k - 1];
    }
  }

  /** Only an accepted code reaches `append`. */
  lemma ReachedMeansValid(codes: seq<Code>, log: seq<Turn>, turn: Turn)
    requires Answers(codes, log, turn) && Reached(turn.status)
    ensures turn.session.Some? && turn.session.value < |codes| && turn.offer.Offered? && turn.offer.line.Some?
    ensures Expected(codes[turn.session.value], TriedIn(log, turn.session.value), turn.offer.code) == Valid
  {
  }

  /** A code tried in turn `i` stays among those tried. */
  lemma TriedAfter(log: seq<Turn>, i: nat, k: nat, id: nat) returns (more: seq<Code>)
    requires i < k <= |log| && log[i].session == Some(id)
    ensures TriedIn(log[..k], id) == TriedIn(log[..i], id) + Submits(log[i].offer) + more
  {
    assert log[..i + 1][..i] == log[..i];
    TriedGrows(log, i + 1, k, id);
    more := TriedIn(log[..k], id)[|TriedIn(log[..i + 1], id)|..];
  }

  /**
   * Of all requests that meet the same session, in whichever loops, at most one
   * gets as far as `append`.
   */
  lemma AtMostOncePerSession(codes: seq<Code>, log: seq<Turn>, appends: seq<string>, i: nat, k: nat)
    requires History(codes, log, appends) && i < k < |log| && log[i].session == log[k].session
    requires Reached(log[i].status)
    ensures !Reached(log[k].status)
  {
    AnsweredAt(codes, log, appends, i);
    ReachedMeansValid(codes, log[..i], log[i]);
    if Reached(log[k].status) {
      AnsweredAt(codes, log, appends, k);
      ReachedMeansValid(codes, log[..k], log[k]);
      var id := log[i].session.value;
      var more := TriedAfter(log, i, k, id);
      ValidAtMostOnce(codes[id], TriedIn(log[..i], id), log[i].offer.code, more, log[k].offer.code);
    }
  }

  ghost predicate OncePerSession(log: seq<Turn>) {
    forall i, k :: 0 <= i < k < |log| && Reached(log[i].status) && Reached(log[k].status) ==>
      log[i].session != log[k].session
  }

  lemma HistoryIsOncePerSession(codes: seq<Code>, log: seq<Turn>, appends: seq<string>)
    requires History(codes, log, appends)
    ensures OncePerSession(log)
  {
    forall i, k | 0 <= i < k < |log| && Reached(log[i].status) && Reached(log[k].status)
      ensures log[i].session != log[k].session
    {
      if log[i].session == log[k].session {
        AtMostOncePerSession(codes, log, appends, i, k);
      }
    }
  }

  /**
   * Two requests of one loop may both get there: after a failed `append` the next
   * window's session may be in the slot.
   */
  lemma TwiceWithAnotherSession(a: Code, b: Code, line: string)
    ensures var offers := [Offered(Some(line), a), Offered(Some(line), b)];
      var log := [Turn(Some(0), offers[0], 500), Turn(Some(1), offers[1], 200)];
      History([a, b], log, [line, line]) && Own(log, [0, 1], offers, [500, 200])
  {
    TwoTurns(a, b, line);
    var offers := [Offered(Some(line), a), Offered(Some(line), b)];
    TwoOwn(Turn(Some(0), offers[0], 500), Turn(Some(1), offers[1], 200), offers);
  }

  lemma TwoOwn(first: Turn, second: Turn, offers: seq<Offer>)
    requires offers == [first.offer, second.offer]
    ensures Own([first, second], [0, 1], offers, [first.status, second.status])
  {
  }

  lemma TwoTurns(a: Code, b: Code, line: string)
    ensures var log := [Turn(Some(0), Offered(Some(line), a), 500), Turn(Some(1), Offered(Some(line), b), 200)];
      History([a, b], log, [line, line])
  {
    var first, second := Turn(Some(0), Offered(Some(line), a), 500), Turn(Some(1), Offered(Some(line), b), 200);
    FirstTry([a, b], [], 0, line, 500);
    OneTurnMore([a, b], [], [], first);
    assert [] + [first] == [first] && [] + [line] == [line];
    NotTriedBy(first, 1);
    FirstTry([a, b], [first], 1, line, 200);
    OneTurnMore([a, b], [first], [line], second);
    assert [first] + [second] == [first, second] && [line] + [line] == [line, line];
  }

  lemma NotTriedBy(turn: Turn, id: nat)
    requires turn.session != Some(id)
    ensures TriedIn([turn], id) == []
  {
    assert [turn][..0] == [];
  }

  /** The right code is accepted by a session that has seen none before. */
  lemma FirstTry(codes: seq<Code>, log: seq<Turn>, id: nat, line: string, status: nat)
    requires id < |codes| && TriedIn(log, id) == [] && Reached(status)
    ensures Answers(codes, log, Turn(Some(id), Offered(Some(line), codes[id]), status))
  {
    assert Expected(codes[id], [], codes[id]) == Valid;
  }

  /** The turns at `mine` are those of one loop, which has got the first of `offers` and answered `statuses`. */
  ghost predicate Own(log: seq<Turn>, mine: seq<nat>, offers: seq<Offer>, statuses: seq<nat>) {
    && |mine| == |statuses| <= |offers|
    && (forall i, k :: 0 <= i < k < |mine| ==> mine[i] < mine[k])
    && (forall i :: 0 <= i < |mine| ==>
          mine[i] < |log| && log[mine[i]].offer == offers[i] && log[mine[i]].status == statuses[i])
  }

  lemma OwnOneMore(
      log: seq<Turn>, more: seq<Turn>, mine: seq<nat>, offers: seq<Offer>, statuses: seq<nat>, status: nat)
    requires Own(log, mine, offers, statuses) && |statuses| < |offers| && more != []
    requires more[|more| - 1].offer == offers[|statuses|] && more[|more| - 1].status == status
    ensures Own(log + more, mine + [|log + more| - 1], offers, statuses + [status])
  {
  }

  /** The last request has paired and none before it. */
  predicate EndsWithPairing(statuses: seq<nat>) {
    statuses != [] && statuses[|statuses| - 1] == 200 && 200 !in statuses[..|statuses| - 1]
  }

  lemma OneStatusMore(statuses: seq<nat>, status: nat)
    requires 200 !in statuses
    ensures if status == 200 then EndsWithPairing(statuses + [status]) else 200 !in statuses + [status]
  {
    assert (statuses + [status])[..|statuses|] == statuses;
  }

  /** No key was added by these turns. */
  ghost predicate NoneAdded(turns: seq<Turn>) {
    forall k :: 0 <= k < |turns| ==> turns[k].status != 200
  }

  // ------------------------------------------------------------------
  // One window
  // ------------------------------------------------------------------

  /** What a serve loop works on; the slot and the file are shared with other loops. */
  class Window {
    // The session slot and the file of trusted keys.
    var session: PairingSession?
    const store: TrustStore
    const isKey: Recognizer
    // The codes of all sessions, all requests answered, and every line handed to `append`.
    ghost var codes: seq<Code>
    ghost var log: seq<Turn>
    ghost var appends: seq<string>
    // How often the file could not be read.
    ghost var faults: nat

    constructor (code: Code, store: TrustStore, isKey: Recognizer)
      ensures Consistent() && session != null && fresh(session) && session.code == code
      ensures this.store == store && this.isKey == isKey && log == [] && faults == 0
    {
      session := new PairingSession(code, 0);
      this.store := store;
      this.isKey := isKey;
      codes, log, appends := [code], [], [];
      faults := 0;
    }

    ghost predicate Consistent() reads this, session {
      && History(codes, log, appends)
      && (session != null ==>
            && session.Sound() && session.id < |codes|
            && session.code == codes[session.id] && session.tried == TriedIn(log, session.id))
    }

    ghost function SessionId(): Option<nat> reads this {
      if session == null then None else Some(session.id)
    }

    /** `append_pubkey_for_pairing`: handing out a snippet is a failure here. */
    method AppendForPairing(line: string) returns (ok: bool)
      requires IsNormalized(line)
      modifies store`file, this`appends, this`faults
      ensures appends == old(appends) + [line]
      ensures ok ==> line in Text.TrimmedLines(store.Contents()) && faults == old(faults)
      ensures !ok ==> store.file == old(store.file)
      ensures !ok ==> faults > old(faults) || !store.writable || !IsPubkeyLine(line)
    {
      NormalizeIsIdempotent(line);
      appends := appends + [line];
      var readable: bool := *;
      if !readable {
        faults := faults + 1;
        return false;
      }
      var report := store.Append(line);
      ok := report.Ok? && !report.value.NotWritable?;
    }

    /** `process_pair`: the key is checked before the code is used up. */
    method ProcessPair(request: PairRequest) returns (r: Result<(), PairRejection>)
      requires session != null && session.Sound()
      modifies session, store`file, this`appends, this`faults
      ensures session == old(session) && session.Sound()
      ensures PairLine(isKey, request.pubkey).None? ==>
        && r == Err(BadPubkey) && store.file == old(store.file) && appends == old(appends)
        && session.tried == old(session.tried)
      ensures PairLine(isKey, request.pubkey).Some? ==>
        var line := PairLine(isKey, request.pubkey).value;
        var answer := Expected(session.code, old(session.tried), request.code);
        && session.tried == old(session.tried) + [request.code]
        && (answer != Valid ==>
              r == Err(BadCode(answer)) && store.file == old(store.file) && appends == old(appends))
        && (answer == Valid ==>
              && appends == old(appends) + [line]
              && (r.Ok? ==> line in Text.TrimmedLines(store.Contents()) && faults == old(faults))
              && (r.Err? ==>
                    && r == Err(AppendFailed) && store.file == old(store.file)
                    && (faults > old(faults) || !store.writable || !IsPubkeyLine(line))))
    {
      var line := PairLine(isKey, request.pubkey);
      if line.None? {
        return Err(BadPubkey);
      }
      NormalizedLines(request.pubkey);
      var answer := session.Validate(request.code);
      if answer != Valid {
        return Err(BadCode(answer));
      }
      var ok := AppendForPairing(line.value);
      return if ok then Ok(()) else Err(AppendFailed);
    }

    /** `handle_request`: the HTTP status. */
    method Respond(incoming: Incoming, ghost offer: Offer) returns (status: nat)
      requires offer == OfferOf(isKey, incoming)
      requires session != null ==> session.Sound()
      modifies session, store`file, this`appends, this`faults
      ensures session == old(session) && (session != null ==> session.Sound())
      ensures session == null ==> status == StatusOf([], [], offer, true, false)
      ensures session != null ==>
        && session.tried == old(session.tried) + Submits(offer)
        && status == StatusOf(session.code, old(session.tried), offer, false, status == 200)
      ensures offer.Refused? ==> !Reached(offer.status)
      ensures appends == old(appends) + HandedBy(offer, status)
      ensures status != 200 ==> store.file == old(store.file)
      ensures status == 200 ==> HasLine(offer)
    {
      match incoming
      case NotPair => return 404;
      case BadBody => return 400;
      case BadJson => return 400;
      case Pair(request) =>
        if session == null {
          return 409;
        }
        var r := ProcessPair(request);
        match r
        case Ok(_) => return 200;
        case Err(BadCode(_)) => return 403;
        case Err(BadPubkey) => return 400;
        case Err(AppendFailed) => return 500;
    }

    /** The offered key is a line of the file. */
    ghost predicate HasLine(offer: Offer) reads store {
      offer.Offered? && offer.line.Some? && offer.line.value in Text.TrimmedLines(store.Contents())
    }

    /** One request of any loop. */
    method HandleRequest(incoming: Incoming, ghost offer: Offer) returns (status: nat)
      requires Consistent() && offer == OfferOf(isKey, incoming)
      modifies session, store`file, this`appends, this`faults, this`log
      ensures Consistent() && session == old(session)
      ensures log == old(log) + [Turn(SessionId(), offer, status)]
      ensures status != 200 ==> store.file == old(store.file)
      ensures status == 200 ==> HasLine(offer)
    {
      status := Respond(incoming, offer);
      OneTurnMore(codes, log, old(appends), Turn(SessionId(), offer, status));
      log := log + [Turn(SessionId(), offer, status)];
    }

    /** Another task clears the slot, puts in the next window's session, or answers a request. */
    method OtherStep()
      requires Consistent()
      modifies this`session, this`codes, this`log, this`appends, this`faults, session, store`file
      ensures Consistent() && old(log) <= log
      ensures session == null || session == old(session) || fresh(session)
      ensures NoneAdded(log[|old(log)|..]) ==> store.file == old(store.file)
    {
      if * {
        session := null;
      } else if * {
        var code: Code := *;
        NewSession(codes, log, appends, code);
        session := new PairingSession(code, |codes|);
        codes := codes + [code];
      } else {
        var incoming: Incoming := *;
        var status := HandleRequest(incoming, OfferOf(isKey, incoming));
        assert log[|old(log)|..][0].status == status;
      }
    }

    /** Between two requests others may do any number of things. */
    method Others()
      requires Consistent()
      modifies this`session, this`codes, this`log, this`appends, this`faults, session, store`file
      ensures Consistent() && old(log) <= log
      ensures session == null || session == old(session) || fresh(session)
      ensures NoneAdded(log[|old(log)|..]) ==> store.file == old(store.file)
    {
      var steps: nat := *;
      while steps > 0
        invariant Consistent() && old(log) <= log
        invariant session == null || session == old(session) || fresh(session)
        invariant NoneAdded(log[|old(log)|..]) ==> store.file == old(store.file)
      {
        steps := steps - 1;
        ghost var log1 := log;
        OtherStep();
        NoneAddedBefore(log1[|old(log)|..], log[|log1|..]);
        SinceBoth(old(log), log1, log);
      }
    }

    /** The next request of this loop, after whatever others do. */
    method ServeNext(incoming: Incoming, ghost offer: Offer) returns (status: nat)
      requires Consistent() && offer == OfferOf(isKey, incoming)
      modifies this`session, this`codes, this`log, this`appends, this`faults, session, store`file
      ensures Consistent() && old(log) < log && log[|log| - 1].offer == offer && log[|log| - 1].status == status
      ensures session == null || session == old(session) || fresh(session)
      ensures NoneAdded(log[|old(log)|..]) ==> store.file == old(store.file)
      ensures status == 200 ==> HasLine(offer)
    {
      Others();
      ghost var log1 := log;
      status := HandleRequest(incoming, offer);
      SinceBoth(old(log), log1, log);
      NoneAddedBefore(log1[|old(log)|..], log[|log1|..]);
    }

    /** The loop of `serve`. */
    method ServeUntilPaired(ghost offers: seq<Offer>, incoming: seq<Incoming>)
      returns (paired: bool, statuses: seq<nat>, ghost mine: seq<nat>)
      requires Consistent()
      requires |offers| == |incoming| && forall i :: 0 <= i < |offers| ==> offers[i] == OfferOf(isKey, incoming[i])
      modifies this`session, this`codes, this`log, this`appends, this`faults, session, store`file
      ensures Consistent() && old(log) <= log && Own(log[|old(log)|..], mine, offers, statuses)
      ensures NoneAdded(log[|old(log)|..]) ==> store.file == old(store.file)
      ensures !paired ==> |statuses| == |incoming| && 200 !in statuses
      ensures paired ==> EndsWithPairing(statuses) && HasLine(offers[|statuses| - 1])
    {
      ghost var turns: seq<Turn> := [];
      paired, statuses, mine := false, [], [];
      while |statuses| < |incoming|
        invariant Consistent() && log == old(log) + turns && Own(turns, mine, offers, statuses)
        invariant session == null || session == old(session) || fresh(session)
        invariant NoneAdded(turns) ==> store.file == old(store.file)
        invariant 200 !in statuses
        decreases |incoming| - |statuses|
      {
        var n := |statuses|;
        ghost var log1 := log;
        var status := ServeNext(incoming[n], offers[n]);
        mine := TurnTaken(old(log), turns, log1, log, mine, offers, statuses, status);
        turns := log[|old(log)|..];
        statuses := statuses + [status];
        if status == 200 {
          return true, statuses, mine;
        }
      }
      AppendedSince(old(log), turns);
    }

    /**
     * `serve`: answers requests until one has paired, which closes the window. All
     * sessions that come and go meanwhile hand at most one line each to `append`.
     * The session that was `left` when the loop ended goes only after a pair.
     */
    method Serve(incoming: seq<Incoming>)
      returns (paired: bool, statuses: seq<nat>, ghost mine: seq<nat>, ghost left: PairingSession?)
      requires Consistent()
      modifies this`session, this`codes, this`log, this`appends, this`faults, session, store`file
      ensures Consistent() && old(log) <= log && Own(log[|old(log)|..], mine, Offers(isKey, incoming), statuses)
      ensures OncePerSession(log)
      ensures NoneAdded(log[|old(log)|..]) ==> store.file == old(store.file)
      ensures !paired ==> |statuses| == |incoming| && 200 !in statuses
      ensures paired ==> EndsWithPairing(statuses) && HasLine(Offers(isKey, incoming)[|statuses| - 1])
      ensures session == if paired then null else left
    {
      ghost var offers := Offers(isKey, incoming);
      paired, statuses, mine := ServeUntilPaired(offers, incoming);
      left := session;
      HistoryIsOncePerSession(codes, log, appends);
      if paired {
        session := null;
      }
    }
  }

  /** What one more turn of a loop does to its books. */
  lemma TurnTaken(
      log0: seq<Turn>, turns: seq<Turn>, log1: seq<Turn>, log: seq<Turn>, mine: seq<nat>, offers: seq<Offer>,
      statuses: seq<nat>, status: nat)
    returns (own: seq<nat>)
    requires log1 == log0 + turns && log1 < log && Own(turns, mine, offers, statuses) && 200 !in statuses
    requires |statuses| < |offers|
    requires log[|log| - 1].offer == offers[|statuses|] && log[|log| - 1].status == status
    ensures log == log0 + log[|log0|..] && Own(log[|log0|..], own, offers, statuses + [status])
    ensures NoneAdded(log[|log0|..]) ==> NoneAdded(turns) && NoneAdded(log[|log1|..])
    ensures if status == 200 then EndsWithPairing(statuses + [status]) else 200 !in statuses + [status]
  {
    var more := log[|log1|..];
    AppendedTwice(log0, turns, log1, log);
    NoneAddedBefore(turns, more);
    OwnOneMore(turns, more, mine, offers, statuses, status);
    OneStatusMore(statuses, status);
    own := mine + [|turns + more| - 1];
  }

  lemma NoneAddedBefore(a: seq<Turn>, b: seq<Turn>)
    ensures NoneAdded(a + b) <==> NoneAdded(a) && NoneAdded(b)
  {
    assert forall k :: 0 <= k < |a| ==> (a + b)[k] == a[k];
    assert forall k :: 0 <= k < |b| ==> (a + b)[|a| + k] == b[k];
  }
}
