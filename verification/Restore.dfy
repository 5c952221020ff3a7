/**
 * Restoring snapshots into fresh folders of the home directory
 * (crates/backrd/src/ipc/handlers.rs).
 */
module Restore {
  import opened Wrappers
  import opened Text
  import opened Sequences
  import opened Snapshots
  import Calendar
  import Paths

  const SUFFIXES: nat := 10_000

  function Candidate(base: string, i: nat): string {
    base + "-" + PrintNat(i)
  }

  // ------------------------------------------------------------------
  // The name of the destination folder
  // ------------------------------------------------------------------

  predicate IsSafe(c: char) {
    IsDigit(c) || 'a' <= c <= 'z' || 'A' <= c <= 'Z' || c == '-' || c == '_'
  }

  function Sanitize(snapshot: string): (r: string)
    ensures forall i :: 0 <= i < |r| ==> IsSafe(r[i])
  {
    if snapshot == "" then ""
    else [if IsSafe(snapshot[0]) then snapshot[0] else '_'] + Sanitize(snapshot[1..])
  }

  function TrimUnderscores(s: string): (r: string)
    ensures r <= s
  {
    if s != "" && s[|s| - 1] == '_' then TrimUnderscores(s[..|s| - 1]) else s
  }

  /** What remains of a name that is not a snapshot's. */
  function SafePart(snapshot: string): string {
    var mapped := Sanitize(snapshot);
    var safe := TrimUnderscores(if |mapped| > 120 then mapped[..120] else mapped);
    if safe == "" then "snapshot" else safe
  }

  /** `restore_destination_folder_base`; `now` only matters for other names than snapshots'. */
  function DestinationBase(digit: char -> bool, snapshot: string, now: nat): string {
    if IsValidSnapshotName(digit, snapshot) then "Projects-" + snapshot
    else "Projects-" + SafePart(snapshot) + "-" + SnapshotName(now)
  }

  /** The bases of all snapshots. */
  function BaseAt(digit: char -> bool, now: nat): string -> string {
    snapshot => DestinationBase(digit, snapshot, now)
  }

  lemma SafeCharacters(s: string)
    requires forall i :: 0 <= i < |s| ==> IsSafe(s[i]) || s[i] == '+'
    ensures '/' !in s && '\\' !in s && '\0' !in s && '\n' !in s
  {
    forall c | c in s ensures c != '/' && c != '\\' && c != '\0' && c != '\n' {
      var i :| 0 <= i < |s| && s[i] == c;
    }
  }

  lemma {:induction false} ItemsAreSafe(c: Calendar.Civil, i: nat)
    requires i <= 6
    ensures forall k :: 0 <= k < |PrintItems(c, i)| ==> IsSafe(PrintItems(c, i)[k]) || PrintItems(c, i)[k] == '+'
    decreases 6 - i
  {
    if i < 6 {
      ItemsAreSafe(c, i + 1);
      assert PrintItems(c, i) == PrintFrom(c, i) == Item(c, i) + Separator(i) + PrintItems(c, i + 1);
      assert forall k :: 0 <= k < |Item(c, i)| ==> IsDigit(Item(c, i)[k]) || Item(c, i)[k] == '+';
      assert forall k :: 0 <= k < |Separator(i)| ==> IsSafe(Separator(i)[k]);
    }
  }

  lemma SnapshotNameIsSafe(t: nat)
    ensures forall i :: 0 <= i < |SnapshotName(t)| ==> IsSafe(SnapshotName(t)[i]) || SnapshotName(t)[i] == '+'
  {
    ItemsAreSafe(Calendar.CivilOf(t), 0);
  }

  /** Without separators, NUL or newline, a name that begins with 'P' is one component. */
  predicate Unseparated(s: string) {
    '/' !in s && '\\' !in s && '\0' !in s && '\n' !in s
  }

  lemma UnseparatedConcat(a: string, b: string)
    requires Unseparated(a) && Unseparated(b)
    ensures Unseparated(a + b)
  {
  }

  lemma BeginsWithP(s: string)
    requires "P" <= s && Unseparated(s)
    ensures Paths.ValidComponent(s)
  {
    assert s[0] == 'P';
  }

  lemma ValidNameIsUnseparated(digit: char -> bool, snapshot: string)
    requires forall c :: c in "/\\\0\n" ==> !digit(c)
    requires IsValidSnapshotName(digit, snapshot)
    ensures Unseparated(snapshot)
  {
    assert forall c :: c in "/\\\0\n" ==> c !in snapshot;
  }

  lemma SafePartIsUnseparated(snapshot: string)
    ensures Unseparated(SafePart(snapshot))
  {
    SafeCharacters(Sanitize(snapshot));
    var mapped := Sanitize(snapshot);
    var shortened := if |mapped| > 120 then mapped[..120] else mapped;
    assert forall c :: c in TrimUnderscores(shortened) ==> c in mapped;
  }

  lemma PrefixedIsUnseparated(part: string)
    requires Unseparated(part)
    ensures "P" <= "Projects-" + part && Unseparated("Projects-" + part)
  {
    assert Unseparated("Projects-");
    UnseparatedConcat("Projects-", part);
    assert ("Projects-" + part)[0] == 'P';
  }

  lemma StampedIsUnseparated(part: string, stamp: string)
    requires Unseparated(part) && Unseparated(stamp)
    ensures Unseparated(part + "-" + stamp)
    ensures "Projects-" + part + "-" + stamp == "Projects-" + (part + "-" + stamp)
  {
    UnseparatedConcat(part, "-");
    UnseparatedConcat(part + "-", stamp);
  }

  lemma StampIsUnseparated(now: nat)
    ensures Unseparated(SnapshotName(now))
  {
    SnapshotNameIsSafe(now);
    SafeCharacters(SnapshotName(now));
  }

  lemma BaseIsUnseparated(digit: char -> bool, snapshot: string, now: nat)
    requires forall c :: c in "/\\\0\n" ==> !digit(c)
    ensures "P" <= DestinationBase(digit, snapshot, now) && Unseparated(DestinationBase(digit, snapshot, now))
  {
    if IsValidSnapshotName(digit, snapshot) {
      ValidNameIsUnseparated(digit, snapshot);
      PrefixedIsUnseparated(snapshot);
    } else {
      SafePartIsUnseparated(snapshot);
      StampIsUnseparated(now);
      StampedIsUnseparated(SafePart(snapshot), SnapshotName(now));
      PrefixedIsUnseparated(SafePart(snapshot) + "-" + SnapshotName(now));
    }
  }

  /** Whatever the snapshot is called, the folder is a single component of the home directory. */
  lemma DestinationIsOneComponent(digit: char -> bool, snapshot: string, now: nat, i: nat)
    requires forall c :: c in "/\\\0\n" ==> !digit(c)
    ensures Paths.ValidComponent(DestinationBase(digit, snapshot, now))
    ensures Paths.ValidComponent(Candidate(DestinationBase(digit, snapshot, now), i))
  {
    var base := DestinationBase(digit, snapshot, now);
    BaseIsUnseparated(digit, snapshot, now);
    SafeCharacters(PrintNat(i));
    UnseparatedConcat(base, "-");
    UnseparatedConcat(base + "-", PrintNat(i));
    BeginsWithP(base);
    BeginsWithP(Candidate(base, i));
  }

  /**
   * The folder of a valid snapshot carries its name. That of any other carries the safe
   * characters of its name, in their places, but for "_" at the end, or "snapshot" if
   * nothing remains, and the time.
   */
  lemma DestinationNames(digit: char -> bool, snapshot: string, now: nat) returns (part: string)
    ensures IsValidSnapshotName(digit, snapshot) ==> DestinationBase(digit, snapshot, now) == "Projects-" + snapshot
    ensures !IsValidSnapshotName(digit, snapshot) ==>
      DestinationBase(digit, snapshot, now) == "Projects-" + part + "-" + SnapshotName(now)
    ensures part == "snapshot" || (part != "" && part[|part| - 1] != '_' && IsSafeCopy(part, snapshot))
    ensures forall k :: 0 <= k < |snapshot| && k < 120 && IsNameByte(snapshot[k] as int) && snapshot[k] != '_' ==>
      |part| > k && IsSafeCopy(part, snapshot)
  {
    part := SafePart(snapshot);
    SafePartCopies(snapshot);
  }

  lemma PrefixIsSafeCopy(part: string, snapshot: string)
    requires part <= Sanitize(snapshot) && |part| <= 120
    ensures IsSafeCopy(part, snapshot)
  {
    SanitizedAt(snapshot);
    forall k | 0 <= k < |part|
      ensures part[k] == if IsNameByte(snapshot[k] as int) then snapshot[k] else '_'
    {
      assert part[k] == Sanitize(snapshot)[k];
    }
  }

  lemma SafePartCopies(snapshot: string)
    ensures var part := SafePart(snapshot);
      && (part == "snapshot" || (part != "" && part[|part| - 1] != '_' && IsSafeCopy(part, snapshot)))
      && forall k :: 0 <= k < |snapshot| && k < 120 && IsNameByte(snapshot[k] as int) && snapshot[k] != '_' ==>
          |part| > k && IsSafeCopy(part, snapshot)
  {
    var mapped := Sanitize(snapshot);
    var shortened := if |mapped| > 120 then mapped[..120] else mapped;
    var safe := TrimUnderscores(shortened);
    SanitizedAt(snapshot);
    TrimUnderscoresKeeps(shortened);
    PrefixIsSafeCopy(safe, snapshot);
    forall k | 0 <= k < |snapshot| && k < 120 && IsNameByte(snapshot[k] as int) && snapshot[k] != '_'
      ensures |safe| > k
    {
      assert shortened[k] == mapped[k] == snapshot[k];
    }
  }

  /** At most 120 characters, each the one at its place or "_" for one that is not safe. */
  predicate IsSafeCopy(part: string, snapshot: string) {
    && |part| <= |snapshot| && |part| <= 120
    && forall k :: 0 <= k < |part| ==> part[k] == if IsNameByte(snapshot[k] as int) then snapshot[k] else '_'
  }

  /** The ASCII digits, letters, "-" and "_". */
  predicate IsNameByte(c: int) {
    48 <= c <= 57 || 65 <= c <= 90 || 97 <= c <= 122 || c == 45 || c == 95
  }

  lemma {:induction false} SanitizedAt(snapshot: string)
    ensures |Sanitize(snapshot)| == |snapshot|
    ensures forall k :: 0 <= k < |snapshot| ==>
      Sanitize(snapshot)[k] == if IsNameByte(snapshot[k] as int) then snapshot[k] else '_'
  {
    if snapshot != "" {
      SanitizedAt(snapshot[1..]);
    }
  }

  lemma {:induction false} TrimUnderscoresKeeps(s: string)
    ensures var r := TrimUnderscores(s);
      && (r != "" ==> r[|r| - 1] != '_')
      && forall k :: |r| <= k < |s| ==> s[k] == '_'
  {
    if s != "" && s[|s| - 1] == '_' {
      TrimUnderscoresKeeps(s[..|s| - 1]);
    }
  }

  // ------------------------------------------------------------------
  // The home directory
  // ------------------------------------------------------------------

  datatype Download = Download(project: string, snapshot: string, destination: string)

  ghost predicate DistinctDestinations(downloads: seq<Download>) {
    forall i, j :: 0 <= i < j < |downloads| ==> downloads[i].destination != downloads[j].destination
  }

  /** The destination belongs to its snapshot, with or without a numeric suffix. */
  ghost predicate IsDestinationOf(destination: string, base: string) {
    destination == base || exists i :: 1 <= i < 10_000 && destination == base + "-" + PrintNat(i)
  }

  /**
   * What every restore keeps: nothing in the home directory goes away, and the new
   * downloads went to different folders that did not exist before and belong to
   * their snapshots.
   */
  ghost predicate OnlyFresh(
      base: string -> string,
      names0: set<string>, downloads0: seq<Download>, names: set<string>, downloads: seq<Download>)
  {
    && names0 <= names
    && downloads0 <= downloads
    && DistinctDestinations(downloads[|downloads0|..])
    && forall k :: |downloads0| <= k < |downloads| ==>
         && downloads[k].destination !in names0 && downloads[k].destination in names
         && IsDestinationOf(downloads[k].destination, base(downloads[k].snapshot))
  }

  lemma OnlyFreshTrans(
      base: string -> string, n0: set<string>, t0: seq<Download>, n1: set<string>, t1: seq<Download>,
      n2: set<string>, t2: seq<Download>)
    requires OnlyFresh(base, n0, t0, n1, t1) && OnlyFresh(base, n1, t1, n2, t2)
    ensures OnlyFresh(base, n0, t0, n2, t2)
  {
    var added := t2[|t0|..];
    forall i, j | 0 <= i < j < |added| ensures added[i].destination != added[j].destination {
      var x, y := |t0| + i, |t0| + j;
      assert t2[x] == added[i] && t2[y] == added[j];
      assert x < |t1| ==> t2[x] == t1[x];
      assert y < |t1| ==> t2[y] == t1[y];
      if y < |t1| {
        assert t1[|t0|..][i] == t1[x] && t1[|t0|..][j] == t1[y];
      } else if x >= |t1| {
        assert t2[|t1|..][x - |t1|] == t2[x] && t2[|t1|..][y - |t1|] == t2[y];
      }
    }
    forall k | |t0| <= k < |t2|
      ensures t2[k].destination !in n0 && t2[k].destination in n2
      ensures IsDestinationOf(t2[k].destination, base(t2[k].snapshot))
    {
      assert k < |t1| ==> t2[k] == t1[k];
    }
  }

  /** Neither the base nor any suffixed form of it is free. */
  ghost predicate AllTaken(names: set<string>, base: string) {
    base in names && forall i :: 1 <= i < 10_000 ==> base + "-" + PrintNat(i) in names
  }

  // ------------------------------------------------------------------
  // What is restored, in which order
  // ------------------------------------------------------------------

  function Pairs(project: string, snapshots: seq<string>): (r: seq<(string, string)>)
    ensures |r| == |snapshots| && forall i :: 0 <= i < |r| ==> r[i] == (project, snapshots[i])
  {
    seq(|snapshots|, i requires 0 <= i < |snapshots| => (project, snapshots[i]))
  }

  /** Every valid snapshot of the project, once, newest first. */
  ghost function ProjectOrder(digit: char -> bool, remotes: map<string, set<string>>, project: string)
    : seq<(string, string)>
  {
    Pairs(project, Listing(digit, Dirs(remotes, project)))
  }

  /** The snapshots of one project after those of the other. */
  ghost function RestoreOrder(
      digit: char -> bool, remotes: map<string, set<string>>, projects: seq<string>): seq<(string, string)>
  {
    if projects == [] then []
    else
      RestoreOrder(digit, remotes, projects[..|projects| - 1])
      + ProjectOrder(digit, remotes, projects[|projects| - 1])
  }

  /** Projects without a valid snapshot have no row, the others one with all their destinations. */
  ghost predicate RowsOf(
      digit: char -> bool, remotes: map<string, set<string>>, projects: seq<string>, rows: seq<(string, seq<string>)>)
  {
    if projects == [] then rows == []
    else
      var earlier, last := projects[..|projects| - 1], projects[|projects| - 1];
      if ValidDirs(digit, Dirs(remotes, last)) == {} then RowsOf(digit, remotes, earlier, rows)
      else
        && rows != []
        && rows[|rows| - 1].0 == last
        && |rows[|rows| - 1].1| == |ValidDirs(digit, Dirs(remotes, last))|
        && RowsOf(digit, remotes, earlier, rows[..|rows| - 1])
  }

  lemma {:induction false} OrderOfPrefix(
      digit: char -> bool, remotes: map<string, set<string>>, projects: seq<string>, n: nat)
    requires n <= |projects|
    ensures RestoreOrder(digit, remotes, projects[..n]) <= RestoreOrder(digit, remotes, projects)
    decreases |projects|
  {
    if n < |projects| {
      var earlier := projects[..|projects| - 1];
      assert earlier[..n] == projects[..n];
      OrderOfPrefix(digit, remotes, earlier, n);
    } else {
      assert projects[..n] == projects;
    }
  }

  lemma {:induction false} OrderIsOfProjects(
      digit: char -> bool, remotes: map<string, set<string>>, projects: seq<string>, i: nat)
    requires i < |RestoreOrder(digit, remotes, projects)|
    ensures RestoreOrder(digit, remotes, projects)[i].0 in projects
  {
    var earlier := projects[..|projects| - 1];
    if i < |RestoreOrder(digit, remotes, earlier)| {
      OrderIsOfProjects(digit, remotes, earlier, i);
    }
  }

  lemma LaterFirstInProject(
      digit: char -> bool, remotes: map<string, set<string>>, project: string, i: nat, j: nat, t: nat, u: nat)
    requires IsDigitClass(digit) && i < j < |ProjectOrder(digit, remotes, project)|
    requires ProjectOrder(digit, remotes, project)[i].1 == SnapshotName(t)
    requires ProjectOrder(digit, remotes, project)[j].1 == SnapshotName(u)
    ensures t > u
  {
    var dirs := Dirs(remotes, project);
    var names := Listing(digit, dirs);
    ListingIsUnique(digit, names, dirs);
    NewestFirst(digit, names, dirs, i, j, t, u);
  }

  /** The restores of one project stand together, in the project's own order. */
  lemma {:induction false} PlaceInProject(
      digit: char -> bool, remotes: map<string, set<string>>, projects: seq<string>, i: nat, j: nat)
      returns (a: nat, b: nat)
    requires NoDuplicates(projects) && i < j < |RestoreOrder(digit, remotes, projects)|
    requires RestoreOrder(digit, remotes, projects)[i].0 == RestoreOrder(digit, remotes, projects)[j].0
    ensures var order := RestoreOrder(digit, remotes, projects);
      var own := ProjectOrder(digit, remotes, order[i].0);
      a < b < |own| && own[a] == order[i] && own[b] == order[j]
  {
    var earlier, last := projects[..|projects| - 1], projects[|projects| - 1];
    var before, own := RestoreOrder(digit, remotes, earlier), ProjectOrder(digit, remotes, last);
    assert RestoreOrder(digit, remotes, projects) == before + own;
    if i < |before| {
      OrderIsOfProjects(digit, remotes, earlier, i);
      assert j < |before|;
      a, b := PlaceInProject(digit, remotes, earlier, i, j);
    } else {
      a, b := i - |before|, j - |before|;
    }
  }

  /** Of the snapshots of one project, the later ones are restored first. */
  lemma LaterFirst(
      digit: char -> bool, remotes: map<string, set<string>>, projects: seq<string>, i: nat, j: nat, t: nat, u: nat)
    requires IsDigitClass(digit) && NoDuplicates(projects) && i < j < |RestoreOrder(digit, remotes, projects)|
    requires RestoreOrder(digit, remotes, projects)[i].0 == RestoreOrder(digit, remotes, projects)[j].0
    requires RestoreOrder(digit, remotes, projects)[i].1 == SnapshotName(t)
    requires RestoreOrder(digit, remotes, projects)[j].1 == SnapshotName(u)
    ensures t > u
  {
    var a, b := PlaceInProject(digit, remotes, projects, i, j);
    LaterFirstInProject(digit, remotes, RestoreOrder(digit, remotes, projects)[i].0, a, b, t, u);
  }

  /** Which snapshot of which project was restored. */
  function Restores(downloads: seq<Download>): (r: seq<(string, string)>)
    ensures |r| == |downloads| && forall i :: 0 <= i < |r| ==> r[i] == (downloads[i].project, downloads[i].snapshot)
  {
    seq(|downloads|, i requires 0 <= i < |downloads| => (downloads[i].project, downloads[i].snapshot))
  }

  /** The downloads were of one project and went to `paths`. */
  ghost predicate Went(project: string, added: seq<Download>, paths: seq<string>) {
    && |added| == |paths|
    && forall k :: 0 <= k < |paths| ==> added[k].project == project && added[k].destination == paths[k]
  }

  /** No destination is left for one of the snapshots. */
  ghost predicate Exhausted(base: string -> string, names: set<string>, snapshots: seq<string>) {
    exists snapshot :: snapshot in snapshots && AllTaken(names, base(snapshot))
  }

  class Home {
    // Names that exist in the home directory.
    var names: set<string>
    // Restores that were begun, in order.
    ghost var downloads: seq<Download>
    // How often something outside the daemon failed.
    ghost var faults: nat
    // The snapshot directories of each project on the host.
    var remotes: map<string, set<string>>
    const digit: char -> bool

    /** Whether something outside the daemon works. */
    method Try() returns (ok: bool)
      modifies this`faults
      ensures faults == old(faults) + if ok then 0 else 1
    {
      ok := *;
      faults := faults + if ok then 0 else 1;
    }

    /** The base if it is free, else the least free suffix. */
    method Uniquify(base: string) returns (path: Result<string, string>)
      ensures base !in names ==> path == Ok(base)
      ensures path.Err? <==> AllTaken(names, base)
      ensures base in names && path.Ok? ==>
        exists i :: 1 <= i < 10_000 && path.value == base + "-" + PrintNat(i)
                    && forall j :: 1 <= j < i ==> base + "-" + PrintNat(j) in names
      ensures path.Ok? ==> path.value !in names && IsDestinationOf(path.value, base)
    {
      if base !in names {
        return Ok(base);
      }
      for i := 1 to SUFFIXES
        invariant forall j :: 1 <= j < i ==> base + "-" + PrintNat(j) in names
      {
        var candidate := Candidate(base, i);
        assert candidate == base + "-" + PrintNat(i);
        if candidate !in names {
          return Ok(candidate);
        }
      }
      return Err("could not find a free restore folder suffix");
    }

    /** `restore_single_snapshot_to_home`. */
    method RestoreSingle(project: string, snapshot: string, now: nat) returns (r: Result<string, string>)
      modifies this`names, this`downloads, this`faults
      ensures OnlyFresh(BaseAt(digit, now), old(names), old(downloads), names, downloads)
      ensures |downloads| <= |old(downloads)| + 1
      ensures forall t :: t in downloads[|old(downloads)|..] ==> t.project == project && t.snapshot == snapshot
      ensures faults >= old(faults)
      ensures r.Err? ==> faults > old(faults) || AllTaken(old(names), DestinationBase(digit, snapshot, now))
      ensures r.Ok? ==> downloads == old(downloads) + [Download(project, snapshot, r.value)] && faults == old(faults)
    {
      var path := Uniquify(DestinationBase(digit, snapshot, now));
      if path.Err? {
        return path;
      }
      var created := Try();
      if !created {
        return Err("could not create folder");
      }
      names := names + {path.value};
      downloads := downloads + [Download(project, snapshot, path.value)];
      var copied := Try();
      return if copied then path else Err("rsync failed");
    }

    /** The remote listing; None when the ssh command fails. */
    method ListRemote(project: string) returns (names: Option<seq<string>>)
      modifies this`faults
      ensures faults == old(faults) + if names.Some? then 0 else 1
      ensures names.Some? ==> IsListingOf(digit, names.value, Dirs(remotes, project))
    {
      var reached := Try();
      var listing := ListDirectories(digit, Dirs(remotes, project));
      return if reached then Some(listing) else None;
    }

    /** The loop over the snapshots of a project; it stops at the first failure. */
    method RestoreEach(project: string, snapshots: seq<string>, now: nat) returns (r: Result<seq<string>, string>)
      modifies this`names, this`downloads, this`faults
      ensures OnlyFresh(BaseAt(digit, now), old(names), old(downloads), names, downloads)
      ensures faults >= old(faults)
      ensures r.Err? ==> faults > old(faults) || Exhausted(BaseAt(digit, now), names, snapshots)
      ensures Restores(downloads[|old(downloads)|..]) <= Pairs(project, snapshots)
      ensures r.Ok? ==> Restores(downloads[|old(downloads)|..]) == Pairs(project, snapshots)
      ensures r.Ok? ==> Went(project, downloads[|old(downloads)|..], r.value) && faults == old(faults)
    {
      ghost var added: seq<Download> := [];
      var paths: seq<string> := [];
      for n := 0 to |snapshots|
        invariant OnlyFresh(BaseAt(digit, now), old(names), old(downloads), names, downloads)
        invariant faults == old(faults)
        invariant downloads == old(downloads) + added
        invariant Restores(added) == Pairs(project, snapshots)[..n]
        invariant Went(project, added, paths)
      {
        ghost var names1, downloads1, added1 := names, downloads, added;
        var one := RestoreSingle(project, snapshots[n], now);
        OnlyFreshTrans(BaseAt(digit, now), old(names), old(downloads), names1, downloads1, names, downloads);
        ghost var more := downloads[|downloads1|..];
        AppendedTwice(old(downloads), added, downloads1, downloads);
        OneRestoreMore(project, snapshots, added, more);
        added := added + more;
        if one.Err? {
          assert snapshots[n] in snapshots;
          return Err(one.error);
        }
        WentOneMore(project, added1, more, paths, one.value);
        paths := paths + [one.value];
      }
      AppendedSince(old(downloads), added);
      return Ok(paths);
    }

    /** Restores every valid snapshot of a project, newest first. */
    method RestoreProject(project: string, now: nat) returns (r: Result<seq<string>, string>)
      modifies this`names, this`downloads, this`faults
      ensures OnlyFresh(BaseAt(digit, now), old(names), old(downloads), names, downloads)
      ensures faults >= old(faults)
      ensures r.Err? ==>
        || faults > old(faults)
        || Exhausted(BaseAt(digit, now), names, Listing(digit, Dirs(remotes, project)))
      ensures Restores(downloads[|old(downloads)|..]) <= ProjectOrder(digit, remotes, project)
      ensures r.Ok? ==> Restores(downloads[|old(downloads)|..]) == ProjectOrder(digit, remotes, project)
      ensures r.Ok? ==> Went(project, downloads[|old(downloads)|..], r.value) && faults == old(faults)
    {
      var answer := ListRemote(project);
      if answer.None? {
        return Err("listing failed");
      }
      var snapshots := SortDescending(ValidNames(digit, answer.value));
      SortedIsListing(digit, answer.value, Dirs(remotes, project));
      ListingIsUnique(digit, snapshots, Dirs(remotes, project));
      r := RestoreEach(project, snapshots, now);
    }

    /** Restores all projects; rows without destinations are left out. */
    method RestoreAllProjects(projects: seq<string>, now: nat)
      returns (r: Result<seq<(string, seq<string>)>, string>)
      modifies this`names, this`downloads, this`faults
      ensures OnlyFresh(BaseAt(digit, now), old(names), old(downloads), names, downloads)
      ensures faults >= old(faults)
      ensures r.Err? ==>
        || faults > old(faults)
        || exists p :: p in projects && Exhausted(BaseAt(digit, now), names, Listing(digit, Dirs(remotes, p)))
      // Every project in order, every valid snapshot once, newest first; a failed run stops on the way.
      ensures Restores(downloads[|old(downloads)|..]) <= RestoreOrder(digit, remotes, projects)
      ensures r.Ok? ==> AllRestored(digit, remotes, projects, downloads[|old(downloads)|..], r.value)
      ensures r.Ok? ==> faults == old(faults)
    {
      var rows: seq<(string, seq<string>)> := [];
      ghost var added: seq<Download> := [];
      for n := 0 to |projects|
        invariant OnlyFresh(BaseAt(digit, now), old(names), old(downloads), names, downloads)
        invariant faults == old(faults)
        invariant downloads == old(downloads) + added
        invariant AllRestored(digit, remotes, projects[..n], added, rows)
      {
        ghost var names1, downloads1, added1 := names, downloads, added;
        var one := RestoreProject(projects[n], now);
        OnlyFreshTrans(BaseAt(digit, now), old(names), old(downloads), names1, downloads1, names, downloads);
        ghost var more := downloads[|downloads1|..];
        AppendedTwice(old(downloads), added, downloads1, downloads);
        added := added + more;
        OneProjectMore(digit, remotes, projects, n, added1, more);
        if one.Err? {
          return Err(one.error);
        }
        OneRowMore(digit, remotes, projects, n, added1, more, rows, one.value);
        if one.value != [] {
          rows := rows + [(projects[n], one.value)];
        }
      }
      AppendedSince(old(downloads), added);
      assert projects[..|projects|] == projects;
      return Ok(rows);
    }
  }

  lemma OneRestoreMore(project: string, snapshots: seq<string>, added: seq<Download>, more: seq<Download>)
    requires |added| < |snapshots| && |more| <= 1
    requires Restores(added) == Pairs(project, snapshots)[..|added|]
    requires forall t :: t in more ==> t.project == project && t.snapshot == snapshots[|added|]
    ensures Restores(added + more) == Pairs(project, snapshots)[..|added| + |more|]
  {
    assert more == [] || more == [more[0]];
  }

  lemma WentOneMore(project: string, added: seq<Download>, more: seq<Download>, paths: seq<string>, path: string)
    requires Went(project, added, paths)
    requires |more| == 1 && more[0].project == project && more[0].destination == path
    ensures Went(project, added + more, paths + [path])
  {
  }

  lemma OneProjectMore(
      digit: char -> bool, remotes: map<string, set<string>>, projects: seq<string>, n: nat,
      added: seq<Download>, more: seq<Download>)
    requires n < |projects| && Restores(added) == RestoreOrder(digit, remotes, projects[..n])
    requires Restores(more) <= ProjectOrder(digit, remotes, projects[n])
    ensures Restores(added + more) <= RestoreOrder(digit, remotes, projects)
    ensures Restores(more) == ProjectOrder(digit, remotes, projects[n]) ==>
      Restores(added + more) == RestoreOrder(digit, remotes, projects[..n + 1])
  {
    OrderOfPrefix(digit, remotes, projects, n + 1);
    OrderOfOneMore(digit, remotes, projects, n);
    RestoresConcat(added, more);
    var order := RestoreOrder(digit, remotes, projects[..n]);
    PrefixConcat(order, Restores(more), ProjectOrder(digit, remotes, projects[n]));
  }

  lemma OrderOfOneMore(digit: char -> bool, remotes: map<string, set<string>>, projects: seq<string>, n: nat)
    requires n < |projects|
    ensures RestoreOrder(digit, remotes, projects[..n + 1]) ==
      RestoreOrder(digit, remotes, projects[..n]) + ProjectOrder(digit, remotes, projects[n])
  {
    assert projects[..n + 1][..n] == projects[..n];
  }

  lemma RestoresConcat(a: seq<Download>, b: seq<Download>)
    ensures Restores(a + b) == Restores(a) + Restores(b)
  {
  }

  lemma PrefixConcat<T>(a: seq<T>, b: seq<T>, c: seq<T>)
    requires b <= c
    ensures a + b <= a + c
  {
  }

  lemma OneRowMore(
      digit: char -> bool, remotes: map<string, set<string>>, projects: seq<string>, n: nat,
      added: seq<Download>, more: seq<Download>, rows: seq<(string, seq<string>)>, paths: seq<string>)
    requires n < |projects| && AllRestored(digit, remotes, projects[..n], added, rows)
    requires Restores(more) == ProjectOrder(digit, remotes, projects[n]) && Went(projects[n], more, paths)
    ensures AllRestored(
      digit, remotes, projects[..n + 1], added + more, if paths != [] then rows + [(projects[n], paths)] else rows)
  {
    OneProjectMore(digit, remotes, projects, n, added, more);
    LandingsConcat(added, more, projects[n], paths);
    FlattenAppend(rows, (projects[n], paths));
    var dirs := Dirs(remotes, projects[n]);
    var names := Listing(digit, dirs);
    ListingIsUnique(digit, names, dirs);
    ListingCounts(digit, names, ValidDirs(digit, dirs));
    assert projects[..n + 1][..n] == projects[..n];
    assert (rows + [(projects[n], paths)])[..|rows|] == rows;
  }

  /**
   * Every valid snapshot of every project went, in order, where the rows say, and
   * exactly the projects without a valid snapshot have no row.
   */
  ghost predicate AllRestored(
      digit: char -> bool, remotes: map<string, set<string>>, projects: seq<string>,
      added: seq<Download>, rows: seq<(string, seq<string>)>)
  {
    && Restores(added) == RestoreOrder(digit, remotes, projects)
    && Landings(added) == Flatten(rows)
    && RowsOf(digit, remotes, projects, rows)
  }

  /** Which project went where. */
  function Landings(downloads: seq<Download>): (r: seq<(string, string)>)
    ensures |r| == |downloads| && forall i :: 0 <= i < |r| ==> r[i] == (downloads[i].project, downloads[i].destination)
  {
    seq(|downloads|, i requires 0 <= i < |downloads| => (downloads[i].project, downloads[i].destination))
  }

  function RowLandings(row: (string, seq<string>)): (r: seq<(string, string)>)
    ensures |r| == |row.1| && forall i :: 0 <= i < |r| ==> r[i] == (row.0, row.1[i])
  {
    seq(|row.1|, i requires 0 <= i < |row.1| => (row.0, row.1[i]))
  }

  /** Landings of one more project. */
  lemma LandingsConcat(added: seq<Download>, more: seq<Download>, project: string, paths: seq<string>)
    requires Went(project, more, paths)
    ensures Landings(added + more) == Landings(added) + RowLandings((project, paths))
  {
    assert Landings(more) == RowLandings((project, paths));
  }

  function Flatten(rows: seq<(string, seq<string>)>): seq<(string, string)> {
    if rows == [] then [] else RowLandings(rows[0]) + Flatten(rows[1..])
  }

  lemma {:induction false} FlattenAppend(rows: seq<(string, seq<string>)>, row: (string, seq<string>))
    ensures Flatten(rows + [row]) == Flatten(rows) + RowLandings(row)
  {
    if rows == [] {
      assert rows + [row] == [row] && [row][1..] == [];
      assert Flatten([row]) == RowLandings(row) + [];
    } else {
      assert (rows + [row])[1..] == rows[1..] + [row];
      FlattenAppend(rows[1..], row);
    }
  }
}
