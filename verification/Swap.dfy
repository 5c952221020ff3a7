/**
 * Transactional replacement of the installed binaries
 * (crates/backr-core/src/update/swap.rs).
 *
 * The file system and the service manager are one `Host` object. Every
 * operation on them may fail, and every file-system state that another process
 * could observe is appended to `history`.
 */
module Swap {
  import opened Wrappers

  // A path as its components below the root; the last one is the file name.
  type Path = seq<string>

  datatype File = File(bytes: Bytes, mode: nat)

  type Files = map<Path, File>

  datatype ServiceCall = Stop | Start | HealthCheck

  /** A call of the service manager and whether it succeeded. */
  datatype Called = Called(call: ServiceCall, ok: bool)

  datatype BinarySwap = BinarySwap(target: Path, staged: Path)

  datatype Outcome =
    | Applied
    | Refused          // pre-flight or stop failed; nothing was changed
    | RolledBack       // a later step failed

  const EXECUTABLE: nat := 0x1ED // 0o755

  predicate IsFilePath(p: Path) {
    |p| > 0
  }

  function Parent(p: Path): Path
    requires IsFilePath(p)
  {
    p[..|p| - 1]
  }

  function FileName(p: Path): string
    requires IsFilePath(p)
  {
    p[|p| - 1]
  }

  function BakPath(target: Path): Path
    requires IsFilePath(target)
  {
    Parent(target) + [FileName(target) + ".bak"]
  }

  function TmpPath(target: Path): Path
    requires IsFilePath(target)
  {
    Parent(target) + ["." + FileName(target) + ".new"]
  }

  function At(files: Files, p: Path): Option<File> {
    if p in files then Some(files[p]) else None
  }

  // ------------------------------------------------------------------
  // What one swap, and its undoing, mean for the paths it touches
  // ------------------------------------------------------------------

  ghost predicate SamePath(a: Files, b: Files, p: Path) {
    At(a, p) == At(b, p)
  }

  /** `a` and `b` agree everywhere except, possibly, on `paths`. */
  ghost predicate AgreeOutside(a: Files, b: Files, paths: set<Path>) {
    forall p :: p !in paths ==> SamePath(a, b, p)
  }

  lemma AgreeOutsideTrans(a: Files, b: Files, c: Files, ab: set<Path>, bc: set<Path>)
    requires AgreeOutside(a, b, ab) && AgreeOutside(b, c, bc)
    ensures AgreeOutside(a, c, ab + bc)
  {
    forall p | p !in ab + bc ensures SamePath(a, c, p) {
      assert SamePath(a, b, p) && SamePath(b, c, p);
    }
  }

  ghost function Touched(s: BinarySwap): set<Path>
    requires IsFilePath(s.target)
  {
    {s.target, BakPath(s.target), TmpPath(s.target)}
  }

  ghost predicate WellFormed(swaps: seq<BinarySwap>) {
    forall i :: 0 <= i < |swaps| ==> IsFilePath(swaps[i].target)
  }

  /** Every staged file and every target directory is there. */
  ghost predicate Ready(files: Files, dirs: set<Path>, swaps: seq<BinarySwap>) {
    forall j :: 0 <= j < |swaps| ==>
      swaps[j].staged in files && |swaps[j].target| > 0 && Parent(swaps[j].target) in dirs
  }

  /** No swap touches a path of another one, and none touches a staged file. */
  ghost predicate Disjoint(swaps: seq<BinarySwap>)
    requires WellFormed(swaps)
  {
    && (forall i, j :: 0 <= i < j < |swaps| ==> Touched(swaps[i]) !! Touched(swaps[j]))
    && (forall i, j :: 0 <= i < |swaps| && 0 <= j < |swaps| ==> swaps[i].staged !in Touched(swaps[j]))
  }

  /** The three paths of one swap always differ from one another. */
  lemma TouchedPathsDiffer(target: Path)
    requires IsFilePath(target)
    ensures target != BakPath(target) && target != TmpPath(target) && BakPath(target) != TmpPath(target)
  {
    var n := FileName(target);
    var bak, tmp := n + ".bak", "." + n + ".new";
    assert |bak| == |n| + 4 && |tmp| == |n| + 5;
    assert FileName(BakPath(target)) == bak && FileName(TmpPath(target)) == tmp;
  }

  ghost function AllTouched(swaps: seq<BinarySwap>): set<Path>
    requires WellFormed(swaps)
  {
    set i, p | 0 <= i < |swaps| && p in Touched(swaps[i]) :: p
  }

  ghost function AllTmp(swaps: seq<BinarySwap>): set<Path>
    requires WellFormed(swaps)
  {
    set i | 0 <= i < |swaps| :: TmpPath(swaps[i].target)
  }

  ghost function NewBinary(files: Files, s: BinarySwap): Option<File> {
    if s.staged in files then Some(File(files[s.staged].bytes, EXECUTABLE)) else None
  }

  /** `now` holds the replacement of `s`, the displaced file being its backup. */
  ghost predicate Swapped(before: Files, now: Files, s: BinarySwap)
    requires IsFilePath(s.target)
  {
    && s.staged in before
    && At(now, s.target) == NewBinary(before, s)
    && At(now, BakPath(s.target)) ==
         (if s.target in before then At(before, s.target) else At(before, BakPath(s.target)))
    && At(now, TmpPath(s.target)) == None
  }

  /** Neither the target nor its backup differ from `before`. */
  ghost predicate Untouched(before: Files, now: Files, s: BinarySwap)
    requires IsFilePath(s.target)
  {
    SamePath(before, now, s.target) && SamePath(before, now, BakPath(s.target))
  }

  /**
   * What undoing leaves at the target: the previous binary if there was one,
   * else a stale backup if there was one, else whatever is there.
   */
  ghost function Recovered(before: Files, s: BinarySwap, otherwise: Option<File>): Option<File>
    requires IsFilePath(s.target)
  {
    if s.target in before then At(before, s.target)
    else if BakPath(s.target) in before then At(before, BakPath(s.target))
    else otherwise
  }

  ghost predicate Undone(before: Files, now: Files, s: BinarySwap, otherwise: Option<File>)
    requires IsFilePath(s.target)
  {
    && At(now, s.target) == Recovered(before, s, otherwise)
    && At(now, BakPath(s.target)) == None
  }

  /**
   * Every state a swap, its undoing or its cleanup may pass through while the old
   * binary must stay recoverable.
   */
  ghost predicate Recoverable(before: Files, now: Files, s: BinarySwap)
    requires IsFilePath(s.target)
  {
    s.target in before ==>
      At(now, s.target) == At(before, s.target) || At(now, BakPath(s.target)) == At(before, s.target)
  }

  /** The target is absent, completely old or completely new; never partial. */
  ghost predicate NeverPartial(before: Files, now: Files, s: BinarySwap)
    requires IsFilePath(s.target)
  {
    || At(now, s.target) == None
    || At(now, s.target) == At(before, s.target)
    || At(now, s.target) == At(before, BakPath(s.target))
    || At(now, s.target) == NewBinary(before, s)
  }

  /** What holds of every state from the start of a swap of `s` to its end. */
  ghost predicate InFlight(before: Files, now: Files, s: BinarySwap)
    requires IsFilePath(s.target)
  {
    AgreeOutside(before, now, Touched(s)) && Recoverable(before, now, s) && NeverPartial(before, now, s)
  }

  /** The target, if it was there, has become its own backup. */
  ghost predicate Displaced(before: Files, moved: Files, s: BinarySwap)
    requires IsFilePath(s.target)
  {
    && AgreeOutside(before, moved, {s.target, BakPath(s.target)})
    && At(moved, s.target) == None
    && At(moved, BakPath(s.target)) == At(before, if s.target in before then s.target else BakPath(s.target))
  }

  /** Once the target is displaced, writing the temporary file and renaming it keep the swap in flight. */
  lemma InstallingIsInFlight(before: Files, moved: Files, now: Files, s: BinarySwap, installed: bool)
    requires IsFilePath(s.target) && s.staged !in Touched(s)
    requires Displaced(before, moved, s)
    requires AgreeOutside(moved, now, if installed then {s.target, TmpPath(s.target)} else {TmpPath(s.target)})
    requires installed ==> At(now, s.target) == NewBinary(moved, s)
    ensures InFlight(before, now, s)
  {
    var bak, tmp := BakPath(s.target), TmpPath(s.target);
    TouchedPathsDiffer(s.target);
    AgreeOutsideTrans(before, moved, now, {s.target, bak}, {s.target, tmp});
    assert SamePath(moved, now, bak);
    assert SamePath(before, moved, s.staged);
    assert NewBinary(moved, s) == NewBinary(before, s);
    if !installed {
      assert SamePath(moved, now, s.target);
    }
  }

  /** The new binary over the displaced one completes the swap. */
  lemma InstalledIsSwapped(before: Files, moved: Files, now: Files, s: BinarySwap)
    requires IsFilePath(s.target) && s.staged !in Touched(s) && s.staged in moved
    requires Displaced(before, moved, s)
    requires AgreeOutside(moved, now, {s.target, TmpPath(s.target)})
    requires At(now, s.target) == NewBinary(moved, s) && At(now, TmpPath(s.target)) == None
    ensures Swapped(before, now, s)
  {
    TouchedPathsDiffer(s.target);
    assert SamePath(before, moved, s.staged) && SamePath(moved, now, BakPath(s.target));
  }

  /** What holds for every swap in every state until the new daemon is healthy. */
  ghost predicate Safe(before: Files, now: Files, swaps: seq<BinarySwap>)
    requires WellFormed(swaps)
  {
    forall j :: 0 <= j < |swaps| ==> Recoverable(before, now, swaps[j]) && NeverPartial(before, now, swaps[j])
  }

  /** A change confined to the paths of swap `i` leaves the other swaps' paths alone. */
  lemma OthersUnaffected(a: Files, b: Files, swaps: seq<BinarySwap>, i: nat)
    requires WellFormed(swaps) && Disjoint(swaps) && i < |swaps|
    requires AgreeOutside(a, b, Touched(swaps[i]))
    ensures forall j :: 0 <= j < |swaps| && j != i ==>
      Untouched(a, b, swaps[j]) && SamePath(a, b, TmpPath(swaps[j].target))
    ensures forall j :: 0 <= j < |swaps| ==> SamePath(a, b, swaps[j].staged)
    ensures AgreeOutside(a, b, AllTouched(swaps))
  {
    forall j | 0 <= j < |swaps| && j != i
      ensures Untouched(a, b, swaps[j]) && SamePath(a, b, TmpPath(swaps[j].target))
    {
      assert Touched(swaps[i]) !! Touched(swaps[j]);
      assert swaps[j].target in Touched(swaps[j]) && BakPath(swaps[j].target) in Touched(swaps[j])
             && TmpPath(swaps[j].target) in Touched(swaps[j]);
    }
    assert Touched(swaps[i]) <= AllTouched(swaps);
  }

  /** Taking away the backup of swap `n` leaves all else as it was. */
  lemma BackupRemoved(before: Files, current: Files, now: Files, swaps: seq<BinarySwap>, n: nat)
    requires WellFormed(swaps) && Disjoint(swaps) && n < |swaps|
    requires AgreeOutside(before, current, AllTouched(swaps))
    requires AgreeOutside(current, now, {BakPath(swaps[n].target)})
    ensures AgreeOutside(before, now, AllTouched(swaps))
    ensures forall j :: 0 <= j < |swaps| ==>
      SamePath(current, now, swaps[j].target) && SamePath(current, now, TmpPath(swaps[j].target))
    ensures forall j :: 0 <= j < |swaps| && j != n ==> SamePath(current, now, BakPath(swaps[j].target))
  {
    TouchedPathsDiffer(swaps[n].target);
    assert AgreeOutside(current, now, Touched(swaps[n]));
    OthersUnaffected(current, now, swaps, n);
    AgreeOutsideTrans(before, current, now, AllTouched(swaps), AllTouched(swaps));
  }

  /** All new binaries are in place, and the backups of the first `n` are gone unless removing one failed. */
  ghost predicate Cleaned(before: Files, now: Files, swaps: seq<BinarySwap>, n: nat, undoFailed: bool)
    requires WellFormed(swaps) && n <= |swaps|
  {
    && AgreeOutside(before, now, AllTouched(swaps))
    && (forall j :: 0 <= j < |swaps| ==>
          At(now, swaps[j].target) == NewBinary(before, swaps[j]) && At(now, TmpPath(swaps[j].target)) == None)
    && (!undoFailed ==> forall j :: 0 <= j < n ==> At(now, BakPath(swaps[j].target)) == None)
  }

  lemma OneMoreCleaned(
      before: Files, current: Files, now: Files, swaps: seq<BinarySwap>, n: nat, was: bool, undoFailed: bool)
    requires WellFormed(swaps) && Disjoint(swaps) && n < |swaps|
    requires Cleaned(before, current, swaps, n, was) && (was ==> undoFailed)
    requires AgreeOutside(current, now, {BakPath(swaps[n].target)})
    requires !undoFailed ==> At(now, BakPath(swaps[n].target)) == None
    ensures Cleaned(before, now, swaps, n + 1, undoFailed)
  {
    BackupRemoved(before, current, now, swaps, n);
    forall j | 0 <= j < |swaps|
      ensures At(now, swaps[j].target) == NewBinary(before, swaps[j]) && At(now, TmpPath(swaps[j].target)) == None
      ensures !undoFailed && j <= n ==> At(now, BakPath(swaps[j].target)) == None
    {
      assert SamePath(current, now, swaps[j].target) && SamePath(current, now, TmpPath(swaps[j].target));
      assert j != n ==> SamePath(current, now, BakPath(swaps[j].target));
    }
  }

  /** What rolling back leaves of swap `i` when the first `swapped` ones were done. */
  ghost predicate Reverted(before: Files, now: Files, s: BinarySwap, i: nat, swapped: nat)
    requires IsFilePath(s.target)
  {
    if i < swapped then Undone(before, now, s, NewBinary(before, s))
    else if i == swapped then
      Undone(before, now, s, None) || (s.target in before && Untouched(before, now, s))
    else Untouched(before, now, s)
  }

  /**
   * From a state with swaps `0..i` done and the others not begun, swapping `i`
   * keeps every swap safe and every other swap as it was.
   */
  lemma SwapStep(before: Files, current: Files, now: Files, swaps: seq<BinarySwap>, i: nat)
    requires WellFormed(swaps) && Disjoint(swaps) && i < |swaps|
    requires AgreeOutside(before, current, AllTouched(swaps)) && Safe(before, current, swaps)
    requires forall j :: 0 <= j < |swaps| ==> SamePath(before, current, swaps[j].staged)
    requires Untouched(before, current, swaps[i])
    requires InFlight(current, now, swaps[i])
    ensures Safe(before, now, swaps)
    ensures AgreeOutside(before, now, AllTouched(swaps))
    ensures forall j :: 0 <= j < |swaps| && j != i ==>
      Untouched(current, now, swaps[j]) && SamePath(current, now, TmpPath(swaps[j].target))
    ensures forall j :: 0 <= j < |swaps| ==> SamePath(before, now, swaps[j].staged)
  {
    OthersUnaffected(current, now, swaps, i);
    AgreeOutsideTrans(before, current, now, AllTouched(swaps), AllTouched(swaps));
    forall j | 0 <= j < |swaps| ensures SamePath(before, now, swaps[j].staged) {
      assert SamePath(before, current, swaps[j].staged) && SamePath(current, now, swaps[j].staged);
    }
  }

  lemma SwapStates(
      before: Files, current: Files, history: seq<Files>, since: nat, swaps: seq<BinarySwap>, i: nat)
    requires WellFormed(swaps) && Disjoint(swaps) && i < |swaps|
    requires AgreeOutside(before, current, AllTouched(swaps)) && Safe(before, current, swaps)
    requires forall j :: 0 <= j < |swaps| ==> SamePath(before, current, swaps[j].staged)
    requires Untouched(before, current, swaps[i])
    requires forall k :: since <= k < |history| ==> InFlight(current, history[k], swaps[i])
    ensures forall k :: since <= k < |history| ==> Safe(before, history[k], swaps)
  {
    forall k | since <= k < |history| ensures Safe(before, history[k], swaps) {
      SwapStep(before, current, history[k], swaps, i);
    }
  }

  /** Swaps `0..n` are done, the others not begun. */
  ghost predicate Progressed(before: Files, now: Files, swaps: seq<BinarySwap>, n: nat)
    requires WellFormed(swaps) && n <= |swaps|
  {
    && AgreeOutside(before, now, AllTouched(swaps)) && Safe(before, now, swaps)
    && (forall j :: 0 <= j < |swaps| ==> SamePath(before, now, swaps[j].staged))
    && (forall j :: 0 <= j < n ==> Swapped(before, now, swaps[j]))
    && (forall j :: n <= j < |swaps| ==>
          Untouched(before, now, swaps[j]) && SamePath(before, now, TmpPath(swaps[j].target)))
  }

  /** Swaps `0..n` are done, swap `n` has failed and was undone unless that failed too, the others are not begun. */
  ghost predicate Interrupted(before: Files, now: Files, swaps: seq<BinarySwap>, n: nat, undoFailed: bool)
    requires WellFormed(swaps)
  {
    && n < |swaps|
    && AgreeOutside(before, now, AllTouched(swaps)) && Safe(before, now, swaps)
    && (forall j :: 0 <= j < n ==> Swapped(before, now, swaps[j]))
    && (!undoFailed ==> Reverted(before, now, swaps[n], n, n))
    && (forall j :: n < j < |swaps| ==> Untouched(before, now, swaps[j]))
  }

  /** The states passed while the completed swap `s` is restored from `from`. */
  ghost predicate Restoring(from: Files, now: Files, s: BinarySwap)
    requires IsFilePath(s.target)
  {
    && AgreeOutside(from, now, {s.target, BakPath(s.target)})
    && (|| At(now, BakPath(s.target)) == At(from, BakPath(s.target))
        || At(now, s.target) == At(from, BakPath(s.target)))
    && At(now, s.target) in {None, At(from, s.target), At(from, BakPath(s.target))}
  }

  lemma RollbackStep(before: Files, current: Files, now: Files, swaps: seq<BinarySwap>, i: nat)
    requires WellFormed(swaps) && Disjoint(swaps) && i < |swaps|
    requires AgreeOutside(before, current, AllTouched(swaps)) && Safe(before, current, swaps)
    requires Swapped(before, current, swaps[i])
    requires Restoring(current, now, swaps[i])
    ensures Safe(before, now, swaps)
    ensures AgreeOutside(before, now, AllTouched(swaps))
    ensures forall j :: 0 <= j < |swaps| && j != i ==>
      Untouched(current, now, swaps[j]) && SamePath(current, now, TmpPath(swaps[j].target))
  {
    assert AgreeOutside(current, now, Touched(swaps[i]));
    OthersUnaffected(current, now, swaps, i);
    AgreeOutsideTrans(before, current, now, AllTouched(swaps), AllTouched(swaps));
  }

  ghost predicate HistoryExtends(old_: seq<Files>, new_: seq<Files>) {
    |old_| <= |new_| && new_[..|old_|] == old_
  }

  /** Where one more swap leads, done or not. */
  lemma SwapOutcome(
      before: Files, current: Files, now: Files, swaps: seq<BinarySwap>, n: nat, ok: bool, undoFailed: bool)
    requires WellFormed(swaps) && Disjoint(swaps) && n < |swaps| && Progressed(before, current, swaps, n)
    requires InFlight(current, now, swaps[n])
    requires ok ==> Swapped(current, now, swaps[n])
    requires !ok && !undoFailed ==> Reverted(current, now, swaps[n], 0, 0)
    ensures ok ==> Progressed(before, now, swaps, n + 1)
    ensures !ok ==> Interrupted(before, now, swaps, n, undoFailed)
  {
    SwapStep(before, current, now, swaps, n);
    if ok {
      OneMoreSwapped(before, current, now, swaps, n);
    }
  }

  lemma OneMoreSwapped(before: Files, current: Files, now: Files, swaps: seq<BinarySwap>, n: nat)
    requires WellFormed(swaps) && n < |swaps| && Progressed(before, current, swaps, n)
    requires Swapped(current, now, swaps[n]) && Safe(before, now, swaps) && AgreeOutside(before, now, AllTouched(swaps))
    requires forall j :: 0 <= j < |swaps| && j != n ==>
      Untouched(current, now, swaps[j]) && SamePath(current, now, TmpPath(swaps[j].target))
    requires forall j :: 0 <= j < |swaps| ==> SamePath(before, now, swaps[j].staged)
    ensures Progressed(before, now, swaps, n + 1)
  {
    assert SamePath(before, current, swaps[n].staged) && Untouched(before, current, swaps[n]);
  }

  /** The swaps `n..swapped` are undone, unless an undo failed; those before are done, those after as in `reached`. */
  ghost predicate UndoneFrom(
      before: Files, reached: Files, now: Files, swaps: seq<BinarySwap>, n: nat, swapped: nat, undoFailed: bool)
    requires WellFormed(swaps) && n <= swapped <= |swaps|
  {
    && AgreeOutside(before, now, AllTouched(swaps)) && Safe(before, now, swaps)
    && (forall j :: 0 <= j < n ==> Swapped(before, now, swaps[j]))
    && (!undoFailed ==> forall j :: n <= j < swapped ==> Undone(before, now, swaps[j], NewBinary(before, swaps[j])))
    && (forall j :: swapped <= j < |swaps| ==> Untouched(reached, now, swaps[j]))
  }

  lemma OneMoreUndone(
      before: Files, reached: Files, current: Files, now: Files, swaps: seq<BinarySwap>, n: nat, swapped: nat,
      undoFailed: bool)
    requires WellFormed(swaps) && n < swapped <= |swaps|
    requires UndoneFrom(before, reached, current, swaps, n + 1, swapped, undoFailed)
    requires AgreeOutside(before, now, AllTouched(swaps)) && Safe(before, now, swaps)
    requires !undoFailed ==> Undone(before, now, swaps[n], NewBinary(before, swaps[n]))
    requires forall j :: 0 <= j < |swaps| && j != n ==>
      Untouched(current, now, swaps[j]) && SamePath(current, now, TmpPath(swaps[j].target))
    ensures UndoneFrom(before, reached, now, swaps, n, swapped, undoFailed)
  {
  }

  // ------------------------------------------------------------------
  // What a rollback means
  // ------------------------------------------------------------------

  ghost predicate Restored(before: Files, now: Files, swaps: seq<BinarySwap>)
    requires WellFormed(swaps)
  {
    forall i :: 0 <= i < |swaps| ==> SamePath(before, now, swaps[i].target)
  }

  ghost predicate AllReverted(before: Files, now: Files, swaps: seq<BinarySwap>, swapped: nat)
    requires WellFormed(swaps)
  {
    && AgreeOutside(before, now, AllTouched(swaps))
    && (forall i :: 0 <= i < |swaps| ==> Reverted(before, now, swaps[i], i, swapped))
  }

  /** The failed swap and the undone ones together: nothing is left half way. */
  lemma RollbackReverts(
      before: Files, reached: Files, now: Files, swaps: seq<BinarySwap>, swapped: nat, undoFailed: bool)
    requires WellFormed(swaps) && swapped <= |swaps|
    requires !undoFailed ==>
      forall j :: 0 <= j < swapped ==> Undone(before, now, swaps[j], NewBinary(before, swaps[j]))
    requires !undoFailed && swapped < |swaps| ==> Reverted(before, reached, swaps[swapped], swapped, swapped)
    requires forall j :: swapped < j < |swaps| ==> Untouched(before, reached, swaps[j])
    requires forall j :: swapped <= j < |swaps| ==> Untouched(reached, now, swaps[j])
    requires AgreeOutside(before, now, AllTouched(swaps))
    ensures !undoFailed ==> AllReverted(before, now, swaps, swapped)
  {
  }

  /**
   * All or nothing: when every target existed and no `.bak` was left over, a
   * rolled-back update differs from the state before it in temporary files only.
   */
  lemma RollbackLeavesOnlyTemporaries(before: Files, now: Files, swaps: seq<BinarySwap>, swapped: nat)
    requires WellFormed(swaps) && swapped <= |swaps|
    requires forall i :: 0 <= i < |swaps| ==> swaps[i].target in before && BakPath(swaps[i].target) !in before
    requires AllReverted(before, now, swaps, swapped)
    ensures Restored(before, now, swaps)
    ensures AgreeOutside(before, now, AllTmp(swaps))
  {
    forall p | p !in AllTmp(swaps) ensures SamePath(before, now, p) {
      if p in AllTouched(swaps) {
        var i :| 0 <= i < |swaps| && p in Touched(swaps[i]);
        assert Reverted(before, now, swaps[i], i, swapped);
      }
    }
  }

  /**
   * The targets are all back exactly when each completed swap replaced an
   * existing binary and the one that failed, if any, did not find a stale `.bak`
   * in place of a missing binary.
   */
  lemma RestoredIff(before: Files, now: Files, swaps: seq<BinarySwap>, swapped: nat)
    requires WellFormed(swaps) && swapped <= |swaps|
    requires forall i :: 0 <= i < |swaps| ==> swaps[i].staged in before
    requires AllReverted(before, now, swaps, swapped)
    ensures Restored(before, now, swaps) <==>
      && (forall i :: 0 <= i < swapped ==> swaps[i].target in before)
      && (swapped < |swaps| ==> swaps[swapped].target in before || BakPath(swaps[swapped].target) !in before)
  {
    forall i | 0 <= i < |swaps|
      ensures SamePath(before, now, swaps[i].target) <==>
        || swaps[i].target in before
        || i > swapped
        || (i == swapped && BakPath(swaps[i].target) !in before)
    {
      assert Reverted(before, now, swaps[i], i, swapped);
    }
  }

  /** A state that undoing the first `n` swaps, all of them done, may lead to. */
  lemma {:induction false} UndoneState(before: Files, swaps: seq<BinarySwap>, n: nat) returns (now: Files)
    requires WellFormed(swaps) && Disjoint(swaps) && n <= |swaps|
    requires forall i :: 0 <= i < |swaps| ==> swaps[i].staged in before
    ensures AgreeOutside(before, now, AllTouched(swaps))
    ensures forall i :: 0 <= i < n ==> Undone(before, now, swaps[i], NewBinary(before, swaps[i]))
    ensures forall i :: n <= i < |swaps| ==> Untouched(before, now, swaps[i])
  {
    if n == 0 {
      now := before;
    } else {
      var s := swaps[n - 1];
      var reached := UndoneState(before, swaps, n - 1);
      now := reached[s.target := Recovered(before, s, NewBinary(before, s)).value] - {BakPath(s.target)};
      TouchedPathsDiffer(s.target);
      assert AgreeOutside(reached, now, Touched(s));
      OthersUnaffected(reached, now, swaps, n - 1);
      AgreeOutsideTrans(before, reached, now, AllTouched(swaps), AllTouched(swaps));
    }
  }

  /** Rolling back restores all targets, however far the update got, exactly if every binary was installed. */
  lemma AlwaysRestoredIff(before: Files, swaps: seq<BinarySwap>)
    requires WellFormed(swaps) && Disjoint(swaps)
    requires forall i :: 0 <= i < |swaps| ==> swaps[i].staged in before
    ensures
      (forall now, swapped: nat :: swapped <= |swaps| && AllReverted(before, now, swaps, swapped) ==>
        Restored(before, now, swaps))
      <==> forall i :: 0 <= i < |swaps| ==> swaps[i].target in before
  {
    forall now, swapped: nat | swapped <= |swaps| && AllReverted(before, now, swaps, swapped)
      ensures (forall i :: 0 <= i < |swaps| ==> swaps[i].target in before) ==> Restored(before, now, swaps)
    {
      RestoredIff(before, now, swaps, swapped);
    }
    var undone := UndoneState(before, swaps, |swaps|);
    assert AllReverted(before, undone, swaps, |swaps|);
    RestoredIff(before, undone, swaps, |swaps|);
  }

  /** A binary that was not installed before stays installed after a rollback. */
  lemma FreshInstallSurvivesRollback() returns (before: Files, now: Files, swaps: seq<BinarySwap>)
    ensures |swaps| == 1 && WellFormed(swaps) && Disjoint(swaps)
    ensures swaps[0].staged in before
    ensures AllReverted(before, now, swaps, 1)
    ensures !Restored(before, now, swaps)
  {
    var target, staged := ["bin", "backr"], ["staging", "backr"];
    before := map[staged := File([1], 0x1A4)];
    now := before[target := File([1], EXECUTABLE)];
    swaps := [BinarySwap(target, staged)];
    assert FileName(BakPath(target)) == "backr.bak" && FileName(TmpPath(target)) == ".backr.new";
    assert FileName(staged) == "backr" && staged[0] == "staging" && BakPath(target)[0] == TmpPath(target)[0] == "bin";
    assert target in Touched(swaps[0]);
    assert Undone(before, now, swaps[0], NewBinary(before, swaps[0]));
    assert Reverted(before, now, swaps[0], 0, 1);
    assert !SamePath(before, now, swaps[0].target);
  }

  // ------------------------------------------------------------------
  // The service
  // ------------------------------------------------------------------

  /** A successful update stops and starts the service once and finds it healthy. */
  const HEALTHY: seq<Called> := [Called(Stop, true), Called(Start, true), Called(HealthCheck, true)]

  lemma TracesJoin(earlier: seq<Called>)
    ensures earlier + [Called(Stop, true)] + [Called(Start, true), Called(HealthCheck, true)] == earlier + HEALTHY
  {
  }

  /** The last thing done is an attempt to start the service. */
  ghost predicate RestartedAfter(before: seq<Called>, now: seq<Called>) {
    |now| == |before| + 1 && before <= now && now[|before|].call == Start
  }

  /** The service calls of a rolled-back update after the stop; with all swaps done its start or health check failed. */
  ghost predicate RolledBackTrace(stopped: seq<Called>, now: seq<Called>, allSwapped: bool) {
    if allSwapped then
      || RestartedAfter(stopped + [Called(Start, false)], now)
      || RestartedAfter(stopped + [Called(Start, true), Called(HealthCheck, false)], now)
    else RestartedAfter(stopped, now)
  }

  // ------------------------------------------------------------------
  // What an update leaves, and passes through
  // ------------------------------------------------------------------

  /** Every target holds its new binary; no temporary is left, and no backup unless removing one failed. */
  ghost predicate AllInstalled(before: Files, now: Files, swaps: seq<BinarySwap>, undoFailed: bool)
    requires WellFormed(swaps)
  {
    && (forall i :: 0 <= i < |swaps| ==>
          swaps[i].staged in before && At(now, swaps[i].target) == NewBinary(before, swaps[i]))
    && (forall i :: 0 <= i < |swaps| ==> At(now, TmpPath(swaps[i].target)) == None)
    && (!undoFailed ==> forall i :: 0 <= i < |swaps| ==> At(now, BakPath(swaps[i].target)) == None)
  }

  /** No target is ever partial, and up to `committed` every old binary can be recovered. */
  ghost predicate SafeUntil(before: Files, history: seq<Files>, since: nat, committed: nat, swaps: seq<BinarySwap>)
    requires WellFormed(swaps) && committed <= |history|
  {
    && (forall k :: since <= k < committed ==> Safe(before, history[k], swaps))
    && (forall k, i :: since <= k < |history| && 0 <= i < |swaps| ==> NeverPartial(before, history[k], swaps[i]))
  }

  lemma SafeJoined(
      before: Files, done: seq<Files>, history: seq<Files>, since: nat, committed: nat, swaps: seq<BinarySwap>)
    requires WellFormed(swaps) && HistoryExtends(done, history) && |done| <= committed <= |history|
    requires forall k :: since <= k < |done| ==> Safe(before, done[k], swaps)
    requires forall k :: |done| <= k < committed ==> Safe(before, history[k], swaps)
    requires forall k, i :: committed <= k < |history| && 0 <= i < |swaps| ==>
      NeverPartial(before, history[k], swaps[i])
    ensures SafeUntil(before, history, since, committed, swaps)
  {
    assert forall k :: 0 <= k < |done| ==> done[k] == history[k];
  }

  // ------------------------------------------------------------------
  // The host: file system and service manager
  // ------------------------------------------------------------------

  class Host {
    var files: Files
    const dirs: set<Path>
    var trace: seq<Called>
    // Observable file-system states, oldest first; the last one is `files`.
    ghost var history: seq<Files>
    // A rename or removal that undoes or cleans up has failed.
    ghost var undoFailed: bool
    // The number of file operations that have failed, apart from renaming or removing what is not there.
    ghost var failures: nat

    constructor (files: Files, dirs: set<Path>)
      ensures this.files == files && this.dirs == dirs && trace == []
      ensures history == [files] && !undoFailed && failures == 0
    {
      this.files := files;
      this.dirs := dirs;
      trace := [];
      history := [files];
      undoFailed := false;
      failures := 0;
    }

    /** Atomic rename; on failure nothing changes. */
    method Rename(from: Path, to: Path) returns (ok: bool)
      modifies this`files, this`history, this`failures
      ensures ok ==> from in old(files) && files == (old(files) - {from})[to := old(files)[from]]
      ensures !ok ==> files == old(files)
      ensures history == old(history) + [files]
      ensures failures == old(failures) + if ok || from !in old(files) then 0 else 1
    {
      ok := *;
      failures := failures + if ok || from !in files then 0 else 1;
      ok := ok && from in files;
      if ok {
        files := (files - {from})[to := files[from]];
      }
      history := history + [files];
    }

    method Remove(p: Path) returns (ok: bool)
      modifies this`files, this`history, this`failures
      ensures ok ==> p in old(files) && files == old(files) - {p}
      ensures !ok ==> files == old(files)
      ensures history == old(history) + [files]
      ensures failures == old(failures) + if ok || p !in old(files) then 0 else 1
    {
      ok := *;
      failures := failures + if ok || p !in files then 0 else 1;
      ok := ok && p in files;
      if ok {
        files := files - {p};
      }
      history := history + [files];
    }

    /** Not atomic: the destination may be left partially written. */
    method Copy(from: Path, to: Path) returns (ok: bool)
      modifies this`files, this`history, this`failures
      ensures ok ==> from in old(files) && files == old(files)[to := old(files)[from]]
      ensures AgreeOutside(old(files), files, {to})
      ensures HistoryExtends(old(history), history)
      ensures forall k :: |old(history)| <= k < |history| ==> AgreeOutside(old(files), history[k], {to})
      ensures failures == old(failures) + if ok then 0 else 1
    {
      ghost var before := files;
      var source := At(files, from);
      var written :| 0 <= written;
      ok := *;
      ok := ok && source.Some?;
      if source.Some? && written <= |source.value.bytes| {
        files := files[to := File(source.value.bytes[..written], source.value.mode)];
        history := history + [files];
      }
      if ok {
        files := files[to := source.value];
        history := history + [files];
      }
      assert ok ==> files == before[to := before[from]];
      failures := failures + if ok then 0 else 1;
    }

    method SetExecutable(p: Path) returns (ok: bool)
      modifies this`files, this`history, this`failures
      ensures ok ==> p in old(files) && files == old(files)[p := File(old(files)[p].bytes, EXECUTABLE)]
      ensures !ok ==> files == old(files)
      ensures history == old(history) + [files]
      ensures failures == old(failures) + if ok then 0 else 1
    {
      ok := *;
      ok := ok && p in files;
      if ok {
        files := files[p := File(files[p].bytes, EXECUTABLE)];
      }
      history := history + [files];
      failures := failures + if ok then 0 else 1;
    }

    method Call(call: ServiceCall) returns (ok: bool)
      modifies this`trace
      ensures trace == old(trace) + [Called(call, ok)]
    {
      ok := *;
      trace := trace + [Called(call, ok)];
    }

    /**
     * Copies into a temporary file beside the target, makes it executable and
     * renames it over the target.
     */
    method InstallExecutable(staged: Path, target: Path) returns (ok: bool)
      requires IsFilePath(target) && staged !in Touched(BinarySwap(target, staged))
      modifies this`files, this`history, this`failures
      ensures ok ==> staged in old(files) && At(files, target) == NewBinary(old(files), BinarySwap(target, staged))
      ensures ok ==> At(files, TmpPath(target)) == None
      ensures AgreeOutside(old(files), files, if ok then {target, TmpPath(target)} else {TmpPath(target)})
      ensures HistoryExtends(old(history), history)
      ensures forall k :: |old(history)| <= k < |history| ==>
        || AgreeOutside(old(files), history[k], {TmpPath(target)})
        || history[k] == files
      ensures if ok then failures == old(failures) else failures > old(failures)
    {
      var tmp := TmpPath(target);
      TouchedPathsDiffer(target);
      ok := Copy(staged, tmp);
      if !ok {
        return;
      }
      ok := SetExecutable(tmp);
      if !ok {
        return;
      }
      ok := Rename(tmp, target);
    }

    /** Replaces one target, keeping the old binary as `.bak`. */
    method SwapOne(s: BinarySwap) returns (ok: bool)
      requires IsFilePath(s.target) && s.staged !in Touched(s)
      modifies this`files, this`history, this`failures, this`undoFailed
      ensures old(undoFailed) ==> undoFailed
      ensures ok ==> Swapped(old(files), files, s) && undoFailed == old(undoFailed)
      ensures !ok && !undoFailed ==> Reverted(old(files), files, s, 0, 0)
      ensures InFlight(old(files), files, s)
      ensures HistoryExtends(old(history), history)
      ensures forall k :: |old(history)| <= k < |history| ==> InFlight(old(files), history[k], s)
      ensures if ok then failures == old(failures) else failures > old(failures)
      ensures undoFailed && !old(undoFailed) ==> failures >= old(failures) + 2
    {
      ghost var before := files;
      ok := Displace(s);
      if !ok {
        return;
      }
      ghost var moved := files;
      ok := InstallOver(s, before);
      if !ok {
        TouchedPathsDiffer(s.target);
        assert SamePath(moved, files, s.target) && SamePath(moved, files, BakPath(s.target));
        RecoverBackup(s, before);
      }
    }

    /** Makes the target, if it is there, its own backup. */
    method Displace(s: BinarySwap) returns (ok: bool)
      requires IsFilePath(s.target)
      modifies this`files, this`history, this`failures
      ensures if ok then Displaced(old(files), files, s) else files == old(files)
      ensures !ok ==> s.target in files
      ensures HistoryExtends(old(history), history)
      ensures forall k :: |old(history)| <= k < |history| ==> InFlight(old(files), history[k], s)
      ensures if ok then failures == old(failures) else failures > old(failures)
    {
      TouchedPathsDiffer(s.target);
      ok := true;
      if s.target in files {
        ok := Rename(s.target, BakPath(s.target));
      }
    }

    /** Installs the new binary where the old one has been displaced from. */
    method InstallOver(s: BinarySwap, ghost before: Files) returns (ok: bool)
      requires IsFilePath(s.target) && s.staged !in Touched(s) && Displaced(before, files, s)
      modifies this`files, this`history, this`failures
      ensures ok ==> Swapped(before, files, s)
      ensures !ok ==> AgreeOutside(old(files), files, {TmpPath(s.target)})
      ensures InFlight(before, files, s)
      ensures HistoryExtends(old(history), history)
      ensures forall k :: |old(history)| <= k < |history| ==> InFlight(before, history[k], s)
      ensures if ok then failures == old(failures) else failures > old(failures)
    {
      ghost var moved, seen := files, history;
      ok := InstallExecutable(s.staged, s.target);
      InstallingIsInFlight(before, moved, files, s, ok);
      forall k | |seen| <= k < |history| ensures InFlight(before, history[k], s) {
        if AgreeOutside(moved, history[k], {TmpPath(s.target)}) {
          InstallingIsInFlight(before, moved, history[k], s, false);
        }
      }
      if ok {
        InstalledIsSwapped(before, moved, files, s);
      }
    }

    /** Renames the backup, if there is one, back over the target. */
    method RecoverBackup(s: BinarySwap, ghost before: Files)
      requires IsFilePath(s.target) && InFlight(before, files, s)
      requires At(files, s.target) == None
      requires At(files, BakPath(s.target)) == At(before, if s.target in before then s.target else BakPath(s.target))
      modifies this`files, this`history, this`failures, this`undoFailed
      ensures old(undoFailed) ==> undoFailed
      ensures !undoFailed ==> Undone(before, files, s, None)
      ensures InFlight(before, files, s)
      ensures HistoryExtends(old(history), history)
      ensures forall k :: |old(history)| <= k < |history| ==> InFlight(before, history[k], s)
      ensures failures >= old(failures)
      ensures undoFailed && !old(undoFailed) ==> failures > old(failures)
    {
      var bak := BakPath(s.target);
      TouchedPathsDiffer(s.target);
      if bak in files {
        var restored := Rename(bak, s.target);
        undoFailed := undoFailed || !restored;
      }
    }

    /** Restores one target from its `.bak`. */
    method RollbackOne(s: BinarySwap)
      requires IsFilePath(s.target)
      modifies this`files, this`history, this`failures, this`undoFailed
      ensures old(undoFailed) ==> undoFailed
      ensures !undoFailed ==>
        if BakPath(s.target) in old(files)
        then At(files, s.target) == At(old(files), BakPath(s.target)) && At(files, BakPath(s.target)) == None
        else files == old(files)
      ensures Restoring(old(files), files, s)
      ensures HistoryExtends(old(history), history)
      ensures forall k :: |old(history)| <= k < |history| ==> Restoring(old(files), history[k], s)
      ensures failures >= old(failures)
      ensures undoFailed && !old(undoFailed) ==> failures > old(failures)
    {
      var bak := BakPath(s.target);
      TouchedPathsDiffer(s.target);
      if bak in files {
        var _ := Remove(s.target);
        var restored := Rename(bak, s.target);
        undoFailed := undoFailed || !restored;
      }
    }

    /** Discards the `.bak` copies after a healthy restart (best effort). */
    method CleanUp(swaps: seq<BinarySwap>, ghost before: Files)
      requires WellFormed(swaps) && Disjoint(swaps)
      requires forall j :: 0 <= j < |swaps| ==> Swapped(before, files, swaps[j])
      requires AgreeOutside(before, files, AllTouched(swaps))
      modifies this`files, this`history, this`failures, this`undoFailed
      ensures old(undoFailed) ==> undoFailed
      ensures forall j :: 0 <= j < |swaps| ==>
        At(files, swaps[j].target) == NewBinary(before, swaps[j]) && At(files, TmpPath(swaps[j].target)) == None
      ensures !undoFailed ==> forall j :: 0 <= j < |swaps| ==> At(files, BakPath(swaps[j].target)) == None
      ensures AgreeOutside(before, files, AllTouched(swaps))
      ensures HistoryExtends(old(history), history)
      ensures forall k, j :: |old(history)| <= k < |history| && 0 <= j < |swaps| ==>
        NeverPartial(before, history[k], swaps[j])
      ensures failures >= old(failures)
      ensures undoFailed && !old(undoFailed) ==> failures > old(failures)
    {
      for n := 0 to |swaps|
        invariant old(undoFailed) ==> undoFailed
        invariant failures >= old(failures)
        invariant undoFailed && !old(undoFailed) ==> failures > old(failures)
        invariant Cleaned(before, files, swaps, n, undoFailed)
        invariant HistoryExtends(old(history), history)
        invariant forall k, j :: |old(history)| <= k < |history| && 0 <= j < |swaps| ==>
          NeverPartial(before, history[k], swaps[j])
      {
        ghost var current, was := files, undoFailed;
        var bak := BakPath(swaps[n].target);
        var present := bak in files;
        var removed := Remove(bak);
        undoFailed := undoFailed || (present && !removed);
        OneMoreCleaned(before, current, files, swaps, n, was, undoFailed);
      }
    }

    /** Restores one completed swap, the others staying as they are. */
    method RollbackNext(swaps: seq<BinarySwap>, ghost before: Files, n: nat)
      requires WellFormed(swaps) && Disjoint(swaps) && n < |swaps|
      requires AgreeOutside(before, files, AllTouched(swaps)) && Safe(before, files, swaps)
      requires Swapped(before, files, swaps[n])
      modifies this`files, this`history, this`failures, this`undoFailed
      ensures old(undoFailed) ==> undoFailed
      ensures !undoFailed ==> Undone(before, files, swaps[n], NewBinary(before, swaps[n]))
      ensures AgreeOutside(before, files, AllTouched(swaps)) && Safe(before, files, swaps)
      ensures forall j :: 0 <= j < |swaps| && j != n ==>
        Untouched(old(files), files, swaps[j]) && SamePath(old(files), files, TmpPath(swaps[j].target))
      ensures HistoryExtends(old(history), history)
      ensures forall k :: |old(history)| <= k < |history| ==> Safe(before, history[k], swaps)
      ensures failures >= old(failures)
      ensures undoFailed && !old(undoFailed) ==> failures > old(failures)
    {
      ghost var current, seen := files, history;
      RollbackOne(swaps[n]);
      RollbackStep(before, current, files, swaps, n);
      forall k | |seen| <= k < |history| ensures Safe(before, history[k], swaps) {
        RollbackStep(before, current, history[k], swaps, n);
      }
    }

    /** Restores the completed swaps in reverse order. */
    method Rollback(swaps: seq<BinarySwap>, ghost before: Files, swapped: nat)
      requires WellFormed(swaps) && Disjoint(swaps) && swapped <= |swaps|
      requires forall j :: 0 <= j < swapped ==> Swapped(before, files, swaps[j])
      requires AgreeOutside(before, files, AllTouched(swaps)) && Safe(before, files, swaps)
      modifies this`files, this`history, this`failures, this`undoFailed
      ensures old(undoFailed) ==> undoFailed
      ensures !undoFailed ==> forall j :: 0 <= j < swapped ==>
        Undone(before, files, swaps[j], NewBinary(before, swaps[j]))
      ensures forall j :: swapped <= j < |swaps| ==> Untouched(old(files), files, swaps[j])
      ensures AgreeOutside(before, files, AllTouched(swaps))
      ensures HistoryExtends(old(history), history)
      ensures forall k :: |old(history)| <= k < |history| ==> Safe(before, history[k], swaps)
      ensures failures >= old(failures)
      ensures undoFailed && !old(undoFailed) ==> failures > old(failures)
    {
      var n := swapped;
      while n > 0
        invariant 0 <= n <= swapped
        invariant failures >= old(failures)
        invariant undoFailed && !old(undoFailed) ==> failures > old(failures)
        invariant old(undoFailed) ==> undoFailed
        invariant UndoneFrom(before, old(files), files, swaps, n, swapped, undoFailed)
        invariant HistoryExtends(old(history), history)
        invariant forall k :: |old(history)| <= k < |history| ==> Safe(before, history[k], swaps)
      {
        n := n - 1;
        ghost var current := files;
        RollbackNext(swaps, before, n);
        OneMoreUndone(before, old(files), current, files, swaps, n, swapped, undoFailed);
      }
    }

    /** Every staged file and every target directory must exist. */
    method PreFlight(swaps: seq<BinarySwap>) returns (ok: bool)
      ensures ok <==> Ready(files, dirs, swaps)
    {
      for n := 0 to |swaps|
        invariant forall j :: 0 <= j < n ==>
          swaps[j].staged in files && IsFilePath(swaps[j].target) && Parent(swaps[j].target) in dirs
      {
        if swaps[n].staged !in files || !IsFilePath(swaps[n].target) || Parent(swaps[n].target) !in dirs {
          return false;
        }
      }
      return true;
    }

    /** Swaps the next binary, the others staying as they are. */
    method SwapNext(swaps: seq<BinarySwap>, ghost before: Files, n: nat) returns (ok: bool)
      requires WellFormed(swaps) && Disjoint(swaps) && n < |swaps| && Progressed(before, files, swaps, n)
      modifies this`files, this`history, this`failures, this`undoFailed
      ensures old(undoFailed) ==> undoFailed
      ensures undoFailed && !old(undoFailed) ==> failures >= old(failures) + 2
      ensures if ok then failures == old(failures) && undoFailed == old(undoFailed) else failures > old(failures)
      ensures ok ==> Progressed(before, files, swaps, n + 1)
      ensures !ok ==> Interrupted(before, files, swaps, n, undoFailed)
      ensures HistoryExtends(old(history), history)
      ensures forall k :: |old(history)| <= k < |history| ==> Safe(before, history[k], swaps)
    {
      ghost var current, seen := files, history;
      ok := SwapOne(swaps[n]);
      SwapOutcome(before, current, files, swaps, n, ok, undoFailed);
      SwapStates(before, current, history, |seen|, swaps, n);
    }

    /** Swaps one binary after the other until one of them fails. */
    method SwapInOrder(swaps: seq<BinarySwap>) returns (ok: bool, swapped: nat)
      requires WellFormed(swaps) && Disjoint(swaps)
      modifies this`files, this`history, this`failures, this`undoFailed
      ensures swapped <= |swaps| && (ok <==> swapped == |swaps|)
      ensures old(undoFailed) ==> undoFailed
      ensures ok ==> Progressed(old(files), files, swaps, |swaps|)
      ensures !ok ==> Interrupted(old(files), files, swaps, swapped, undoFailed)
      ensures HistoryExtends(old(history), history)
      ensures forall k :: |old(history)| <= k < |history| ==> Safe(old(files), history[k], swaps)
      ensures if ok then failures == old(failures) else failures > old(failures)
      ensures undoFailed && !old(undoFailed) ==> failures >= old(failures) + 2
    {
      ghost var before := files;
      swapped := 0;
      while swapped < |swaps|
        invariant swapped <= |swaps| && failures == old(failures) && undoFailed == old(undoFailed)
        invariant Progressed(before, files, swaps, swapped)
        invariant HistoryExtends(old(history), history)
        invariant forall k :: |old(history)| <= k < |history| ==> Safe(before, history[k], swaps)
      {
        ok := SwapNext(swaps, before, swapped);
        if !ok {
          return;
        }
        swapped := swapped + 1;
      }
      return true, swapped;
    }

    method StartAndCheck() returns (ok: bool)
      modifies this`trace
      ensures ok ==> trace == old(trace) + [Called(Start, true), Called(HealthCheck, true)]
      ensures !ok ==>
        || trace == old(trace) + [Called(Start, false)]
        || trace == old(trace) + [Called(Start, true), Called(HealthCheck, false)]
    {
      ok := Call(Start);
      if ok {
        ok := Call(HealthCheck);
      }
    }

    /** The failure path: restores the completed swaps and starts the previous daemon. */
    method UndoAndRestart(swaps: seq<BinarySwap>, ghost before: Files, swapped: nat)
      requires WellFormed(swaps) && Disjoint(swaps)
      requires if swapped == |swaps| then Progressed(before, files, swaps, swapped)
               else Interrupted(before, files, swaps, swapped, undoFailed)
      modifies this
      ensures old(undoFailed) ==> undoFailed
      ensures failures >= old(failures)
      ensures undoFailed && !old(undoFailed) ==> failures > old(failures)
      ensures AgreeOutside(before, files, AllTouched(swaps))
      ensures !undoFailed ==> AllReverted(before, files, swaps, swapped)
      ensures RestartedAfter(old(trace), trace)
      ensures HistoryExtends(old(history), history)
      ensures forall k :: |old(history)| <= k < |history| ==> Safe(before, history[k], swaps)
    {
      ghost var reached := files;
      Rollback(swaps, before, swapped);
      RollbackReverts(before, reached, files, swaps, swapped, undoFailed);
      var _ := Call(Start);
    }

    /**
     * Replaces all binaries in lockstep and restarts the service, rolling back on
     * failure. `swapped` counts the replacements that were completed; `committed`
     * is the length of the history when the health check succeeded.
     */
    method ApplySwap(swaps: seq<BinarySwap>)
      returns (outcome: Outcome, swapped: nat, ghost committed: nat)
      requires WellFormed(swaps) ==> Disjoint(swaps)
      modifies this
      ensures old(undoFailed) ==> undoFailed
      // An undo that failed is a failure beside the one it was to undo.
      ensures undoFailed && !old(undoFailed) ==>
        failures > old(failures) + if outcome.RolledBack? && swapped < |swaps| then 1 else 0
      ensures !Ready(old(files), dirs, swaps) ==> outcome.Refused? && trace == old(trace)
      ensures Ready(old(files), dirs, swaps) ==> old(trace) + [Called(Stop, !outcome.Refused?)] <= trace
      ensures outcome.Refused? ==>
        && files == old(files) && history == old(history) && undoFailed == old(undoFailed)
        && (trace == old(trace) || trace == old(trace) + [Called(Stop, false)])
      ensures !outcome.Refused? ==>
        && WellFormed(swaps)
        && swapped <= |swaps|
        && AgreeOutside(old(files), files, AllTouched(swaps))
        && HistoryExtends(old(history), history)
        && |old(history)| <= committed <= |history|
      ensures outcome.Applied? ==>
        trace == old(trace) + HEALTHY && AllInstalled(old(files), files, swaps, undoFailed)
      ensures outcome.RolledBack? ==>
        && committed == |history|
        && (swapped < |swaps| ==> failures > old(failures))
        && RolledBackTrace(old(trace) + [Called(Stop, true)], trace, swapped == |swaps|)
        && (!undoFailed ==> AllReverted(old(files), files, swaps, swapped))
      ensures !outcome.Refused? ==> SafeUntil(old(files), history, |old(history)|, committed, swaps)
    {
      committed, swapped := |history|, 0;
      var ok := PreFlight(swaps);
      if !ok {
        return Refused, swapped, committed;
      }
      ok := Call(Stop);
      if !ok {
        return Refused, swapped, committed;
      }
      TracesJoin(old(trace));
      outcome, swapped, committed := SwapAndRestart(swaps);
    }

    /** What follows once the service has stopped. */
    method SwapAndRestart(swaps: seq<BinarySwap>) returns (outcome: Outcome, swapped: nat, ghost committed: nat)
      requires WellFormed(swaps) && Disjoint(swaps)
      modifies this
      ensures !outcome.Refused? && swapped <= |swaps|
      ensures old(undoFailed) ==> undoFailed
      ensures undoFailed && !old(undoFailed) ==>
        failures > old(failures) + if outcome.RolledBack? && swapped < |swaps| then 1 else 0
      ensures AgreeOutside(old(files), files, AllTouched(swaps))
      ensures HistoryExtends(old(history), history) && |old(history)| <= committed <= |history|
      ensures outcome.Applied? ==>
        && trace == old(trace) + [Called(Start, true), Called(HealthCheck, true)]
        && AllInstalled(old(files), files, swaps, undoFailed)
      ensures outcome.RolledBack? ==>
        && committed == |history|
        && (swapped < |swaps| ==> failures > old(failures))
        && RolledBackTrace(old(trace), trace, swapped == |swaps|)
        && (!undoFailed ==> AllReverted(old(files), files, swaps, swapped))
      ensures SafeUntil(old(files), history, |old(history)|, committed, swaps)
    {
      ghost var before := files;
      var ok;
      ok, swapped := SwapInOrder(swaps);
      ghost var done := history;
      outcome := Restart(swaps, before, swapped);
      committed := if outcome.Applied? then |done| else |history|;
      SafeJoined(before, done, history, |old(history)|, committed, swaps);
    }

    /** Restarts the service on the new binaries, or on the old ones where that or a swap has failed. */
    method Restart(swaps: seq<BinarySwap>, ghost before: Files, swapped: nat) returns (outcome: Outcome)
      requires WellFormed(swaps) && Disjoint(swaps)
      requires if swapped == |swaps| then Progressed(before, files, swaps, swapped)
               else Interrupted(before, files, swaps, swapped, undoFailed)
      modifies this
      ensures !outcome.Refused? && failures >= old(failures)
      ensures old(undoFailed) ==> undoFailed
      ensures undoFailed && !old(undoFailed) ==> failures > old(failures)
      ensures AgreeOutside(before, files, AllTouched(swaps))
      ensures HistoryExtends(old(history), history)
      ensures outcome.Applied? ==>
        && swapped == |swaps| && trace == old(trace) + [Called(Start, true), Called(HealthCheck, true)]
        && AllInstalled(before, files, swaps, undoFailed)
        && forall k, i :: |old(history)| <= k < |history| && 0 <= i < |swaps| ==>
          NeverPartial(before, history[k], swaps[i])
      ensures outcome.RolledBack? ==>
        && RolledBackTrace(old(trace), trace, swapped == |swaps|)
        && (!undoFailed ==> AllReverted(before, files, swaps, swapped))
        && forall k :: |old(history)| <= k < |history| ==> Safe(before, history[k], swaps)
    {
      if swapped == |swaps| {
        var ok := StartAndCheck();
        if ok {
          CleanUp(swaps, before);
          return Applied;
        }
      }
      UndoAndRestart(swaps, before, swapped);
      return RolledBack;
    }
  }
}
