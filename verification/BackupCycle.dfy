/**
 * The backup cycle, the snapshot cache it keeps, and the project listing served
 * from that cache (crates/backrd/src/ipc/handlers.rs,
 * crates/backr-core/src/project_snapshot_cache.rs).
 */
module BackupCycle {
  import opened Wrappers
  import opened Text
  import opened Sequences
  import opened Snapshots

  // ------------------------------------------------------------------
  // Remote identity and its key
  // ------------------------------------------------------------------

  datatype RemoteId = RemoteId(host: string, user: string, port: nat, path: string)

  function RemoteCacheKey(id: RemoteId): string {
    id.host + "|" + id.user + "|" + PrintNat(id.port) + "|" + id.path
  }

  /** Host and user names do not contain the separator. */
  predicate IsPlain(id: RemoteId) {
    '|' !in id.host && '|' !in id.user
  }

  lemma {:induction false} FirstField(a: string, x: string, b: string, y: string)
    requires '|' !in a && '|' !in b && a + "|" + x == b + "|" + y
    ensures a == b && x == y
  {
    assert a != "" ==> a[0] in a && (a + "|" + x)[0] == a[0];
    assert b != "" ==> b[0] in b && (b + "|" + y)[0] == b[0];
    if a == "" {
      assert x == (a + "|" + x)[1..] && y == (b + "|" + y)[1..];
    } else {
      assert a[1..] + "|" + x == (a + "|" + x)[1..] && b[1..] + "|" + y == (b + "|" + y)[1..];
      FirstField(a[1..], x, b[1..], y);
      assert a == [a[0]] + a[1..] && b == [b[0]] + b[1..];
    }
  }

  /** Plain identities have different keys. */
  lemma KeyInjective(a: RemoteId, b: RemoteId)
    requires IsPlain(a) && IsPlain(b) && RemoteCacheKey(a) == RemoteCacheKey(b)
    ensures a == b
  {
    var x, y := PrintNat(a.port) + "|" + a.path, PrintNat(b.port) + "|" + b.path;
    assert RemoteCacheKey(a) == a.host + "|" + (a.user + "|" + x);
    assert RemoteCacheKey(b) == b.host + "|" + (b.user + "|" + y);
    FirstField(a.host, a.user + "|" + x, b.host, b.user + "|" + y);
    FirstField(a.user, x, b.user, y);
    assert forall n :: '|' !in PrintNat(n) by {
      forall n ensures '|' !in PrintNat(n) {
        assert forall i :: 0 <= i < |PrintNat(n)| ==> IsDigit(PrintNat(n)[i]);
      }
    }
    FirstField(PrintNat(a.port), a.path, PrintNat(b.port), b.path);
    PrintNatInjective(a.port, b.port);
  }

  /** Without that restriction two remotes can share a key. */
  lemma KeysCanCollide() returns (a: RemoteId, b: RemoteId)
    ensures a != b && RemoteCacheKey(a) == RemoteCacheKey(b)
  {
    a, b := RemoteId("nas|u", "v", 22, "/srv"), RemoteId("nas", "u|v", 22, "/srv");
    assert "nas|u" + "|" + "v" == "nas" + "|" + "u|v";
  }

  /** Every identity that is not plain shares its key with another one. */
  lemma NonPlainKeysCollide(a: RemoteId) returns (b: RemoteId)
    requires !IsPlain(a)
    ensures a != b && RemoteCacheKey(a) == RemoteCacheKey(b)
  {
    if '|' in a.host {
      var i :| 0 <= i < |a.host| && a.host[i] == '|';
      b := a.(host := a.host[..i], user := a.host[i + 1..] + "|" + a.user);
      assert a.host == a.host[..i] + "|" + a.host[i + 1..];
      assert a.host + "|" + a.user == b.host + "|" + b.user;
      assert |b.host| < |a.host|;
    } else {
      var i :| 0 <= i < |a.user| && a.user[i] == '|';
      b := a.(host := a.host + "|" + a.user[..i], user := a.user[i + 1..]);
      assert a.user == a.user[..i] + "|" + a.user[i + 1..];
      assert a.host + "|" + a.user == b.host + "|" + b.user;
      assert |b.host| > |a.host|;
    }
  }

  // ------------------------------------------------------------------
  // Cached rows
  // ------------------------------------------------------------------

  datatype Config = Config(remote: RemoteId, intervalHours: nat, lastBackupAt: Option<nat>)

  datatype CachedStats = CachedStats(last: Option<Instant>, count: nat)

  datatype CacheFile = CacheFile(remoteKey: string, projects: map<string, CachedStats>)

  datatype ProjectRow = ProjectRow(name: string, last: Option<Instant>, count: nat, fromCache: bool)

  /** The row a listing of snapshots stands for. */
  function StatsOf(names: seq<string>): CachedStats {
    CachedStats(if names == [] then None else ParseTimestamp(names[0]), |names|)
  }

  /** `stats` is what listing the directories `dirs` would show. */
  ghost predicate RowAgrees(digit: char -> bool, stats: CachedStats, dirs: set<string>) {
    forall names :: IsListingOf(digit, names, dirs) ==> stats == StatsOf(names)
  }

  /** The new snapshot is valid and sorts after all that are there. */
  ghost predicate IsLatest(digit: char -> bool, name: string, dirs: set<string>) {
    IsValidSnapshotName(digit, name) && forall m :: m in ValidDirs(digit, dirs) ==> Less(m, name)
  }

  lemma HeadIsGreatest(names: seq<string>, name: string)
    requires IsDescending(names) && name in names
    ensures !Less(names[0], name)
  {
    var i :| 0 <= i < |names| && names[i] == name;
    LessIsStrict(name, name, name);
  }

  /** The head of a listing is the newest valid snapshot; there is none exactly if none is valid. */
  lemma ListingHead(digit: char -> bool, names: seq<string>, dirs: set<string>)
    requires IsListingOf(digit, names, dirs)
    ensures names == [] <==> ValidDirs(digit, dirs) == {}
    ensures names != [] ==> names[0] in ValidDirs(digit, dirs)
    ensures names != [] ==> forall m :: m in ValidDirs(digit, dirs) ==> !Less(names[0], m)
  {
    if names != [] {
      assert names[0] in names && names[0] in ValidDirs(digit, dirs);
      forall m | m in ValidDirs(digit, dirs) ensures !Less(names[0], m) {
        HeadIsGreatest(names, m);
      }
    }
    assert forall m :: m in ValidDirs(digit, dirs) <==> m in names;
  }

  /** After a run that listed everything and added the latest snapshot, the row is right. */
  lemma RecordedRowAgrees(digit: char -> bool, listed: seq<string>, dirs: set<string>, name: string)
    requires IsListingOf(digit, listed, dirs) && IsLatest(digit, name, dirs)
    ensures RowAgrees(digit, CachedStats(ParseTimestamp(name), |listed| + 1), dirs + {name})
  {
    RecordedCountIff(digit, listed, dirs, name);
    forall names | IsListingOf(digit, names, dirs + {name})
      ensures CachedStats(ParseTimestamp(name), |listed| + 1) == StatsOf(names)
    {
      ListingCounts(digit, names, ValidDirs(digit, dirs + {name}));
      assert name in names;
      HeadIsGreatest(names, name);
      assert names[0] in names;
    }
  }

  /**
   * The recorded count is right exactly when the new name was fresh, provided the
   * listing succeeded; a failed listing counts as empty, and then the count is
   * right exactly when no other snapshot was there.
   */
  lemma RecordedCountIff(digit: char -> bool, listed: seq<string>, dirs: set<string>, name: string)
    requires IsValidSnapshotName(digit, name)
    ensures IsListingOf(digit, listed, dirs) ==>
      (|listed| + 1 == |ValidDirs(digit, dirs + {name})| <==> name !in dirs)
    ensures 1 == |ValidDirs(digit, dirs + {name})| <==> ValidDirs(digit, dirs) <= {name}
  {
    var before := ValidDirs(digit, dirs);
    assert ValidDirs(digit, dirs + {name}) == before + {name};
    if IsListingOf(digit, listed, dirs) {
      ListingCounts(digit, listed, before);
    }
    assert name in before <==> name in dirs;
    OneMoreMember(before, name);
  }

  lemma OneMoreMember<T>(members: set<T>, x: T)
    ensures |members| + 1 == |members + {x}| <==> x !in members
    ensures 1 == |members + {x}| <==> members <= {x}
  {
    if members <= {x} {
      assert members + {x} == {x};
    } else {
      var y :| y in members && y != x;
      SubsetCard({x, y}, members + {x});
    }
    if x in members {
      assert members + {x} == members;
    }
  }

  lemma {:induction false} SubsetCard<T>(a: set<T>, b: set<T>)
    requires a <= b
    ensures |a| <= |b|
  {
    if a != {} {
      var x :| x in a;
      SubsetCard(a - {x}, b - {x});
    }
  }

  // ------------------------------------------------------------------
  // Uploads
  // ------------------------------------------------------------------

  /**
   * One upload: its instant, whether the listing before it succeeded, the directories
   * that were there, and whether its own is there afterwards.
   */
  datatype Transfer = Transfer(
    remote: RemoteId, project: string, linkDest: Option<string>, dest: string,
    at: nat, listed: bool, there: set<string>, stored: bool
  )

  type Remotes = map<(RemoteId, string), set<string>>

  function AddSnapshot(remotes: Remotes, id: RemoteId, project: string, name: string): Remotes {
    remotes[(id, project) := Dirs(remotes, (id, project)) + {name}]
  }

  /** The remotes after some uploads. */
  function Applied(remotes: Remotes, added: seq<Transfer>): Remotes {
    if added == [] then remotes
    else
      var last := added[|added| - 1];
      var before := Applied(remotes, added[..|added| - 1]);
      if last.stored then AddSnapshot(before, last.remote, last.project, last.dest) else before
  }

  /** The transfer links to the newest valid snapshot that was listed, if any was. */
  ghost predicate LinksToNewest(digit: char -> bool, t: Transfer) {
    && (t.linkDest.None? <==> !t.listed || ValidDirs(digit, t.there) == {})
    && (t.linkDest.Some? ==>
          && t.linkDest.value in ValidDirs(digit, t.there)
          && forall m :: m in ValidDirs(digit, t.there) ==> !Less(t.linkDest.value, m))
  }

  /**
   * Each upload is named after its instant, links to the newest snapshot, and finds
   * what the ones before it left; their instants ascend from `since` to `until`.
   */
  ghost predicate Uploads(digit: char -> bool, before: Remotes, added: seq<Transfer>, since: nat, until: nat)
    decreases |added|, 1
  {
    if added == [] then since <= until else EndsWithUpload(digit, before, added, since, until)
  }

  ghost predicate EndsWithUpload(digit: char -> bool, before: Remotes, added: seq<Transfer>, since: nat, until: nat)
    requires added != []
    decreases |added|, 0
  {
    var earlier, last := added[..|added| - 1], added[|added| - 1];
    && Uploads(digit, before, earlier, since, last.at)
    && last.at <= until
    && last.dest == SnapshotName(last.at)
    && last.there == Dirs(Applied(before, earlier), (last.remote, last.project))
    && LinksToNewest(digit, last)
  }

  /** One upload for each of the first targets, in order, all stored but perhaps the last. */
  ghost predicate StartedFor(added: seq<Transfer>, id: RemoteId, targets: seq<string>) {
    && |added| <= |targets|
    && forall i :: 0 <= i < |added| ==>
        added[i].remote == id && added[i].project == targets[i] && (i < |added| - 1 ==> added[i].stored)
  }

  /** One stored snapshot for each of the first targets, in order. */
  ghost predicate StoredFor(added: seq<Transfer>, id: RemoteId, targets: seq<string>) {
    StartedFor(added, id, targets) && (added != [] ==> added[|added| - 1].stored)
  }

  /** Every target has got its new snapshot, in order, and nothing else was uploaded. */
  ghost predicate AllBackedUp(added: seq<Transfer>, after: Remotes, id: RemoteId, targets: seq<string>) {
    && |added| == |targets| && StoredFor(added, id, targets)
    && forall i :: 0 <= i < |targets| ==> added[i].dest in Dirs(after, (id, targets[i]))
  }

  lemma {:induction false} AppliedConcat(remotes: Remotes, a: seq<Transfer>, b: seq<Transfer>)
    ensures Applied(remotes, a + b) == Applied(Applied(remotes, a), b)
  {
    if b == [] {
      assert a + b == a;
    } else {
      AppliedConcat(remotes, a, b[..|b| - 1]);
      assert (a + b)[..|a + b| - 1] == a + b[..|b| - 1];
    }
  }

  lemma {:induction false} UploadsConcat(
      digit: char -> bool, before: Remotes, a: seq<Transfer>, b: seq<Transfer>, since: nat, between: nat, until: nat)
    requires Uploads(digit, before, a, since, between)
    requires Uploads(digit, Applied(before, a), b, between, until)
    ensures Uploads(digit, before, a + b, since, until)
  {
    if b == [] {
      assert a + b == a;
    } else {
      var earlier, last := b[..|b| - 1], b[|b| - 1];
      UploadsConcat(digit, before, a, earlier, since, between, last.at);
      AppliedConcat(before, a, earlier);
      assert (a + b)[..|a + b| - 1] == a + earlier;
    }
  }

  /** What was stored stays. */
  lemma {:induction false} StoredStays(before: Remotes, added: seq<Transfer>, i: nat)
    requires i < |added| && added[i].stored
    ensures added[i].dest in Dirs(Applied(before, added), (added[i].remote, added[i].project))
  {
    if i < |added| - 1 {
      StoredStays(before, added[..|added| - 1], i);
    }
  }

  lemma AllStored(before: Remotes, added: seq<Transfer>, id: RemoteId, targets: seq<string>)
    requires |added| == |targets| && StoredFor(added, id, targets)
    ensures AllBackedUp(added, Applied(before, added), id, targets)
  {
    forall i | 0 <= i < |targets| ensures added[i].dest in Dirs(Applied(before, added), (id, targets[i])) {
      StoredStays(before, added, i);
    }
  }

  lemma StoredOneMore(added: seq<Transfer>, more: seq<Transfer>, id: RemoteId, targets: seq<string>)
    requires StoredFor(added, id, targets) && |added| < |targets| && |more| <= 1
    requires forall t :: t in more ==> t.remote == id && t.project == targets[|added|]
    ensures StartedFor(added + more, id, targets)
    ensures |more| == 1 && more[0].stored ==> StoredFor(added + more, id, targets)
  {
  }

  // ------------------------------------------------------------------
  // The clock makes new names the latest
  // ------------------------------------------------------------------

  /** The valid directories are named after instants up to `clock`. */
  ghost predicate NamedUpTo(digit: char -> bool, dirs: set<string>, clock: nat) {
    forall n :: n in ValidDirs(digit, dirs) ==> exists t: nat :: t <= clock && n == SnapshotName(t)
  }

  ghost predicate Produced(digit: char -> bool, remotes: Remotes, clock: nat) {
    forall id, p :: NamedUpTo(digit, Dirs(remotes, (id, p)), clock)
  }

  /** The name was used already in the same second, or the year has five digits. */
  ghost predicate IsStale(t: Transfer) {
    !InRange(t.at) || t.dest in t.there
  }

  /** Where only snapshots of earlier instants are, a new one sorts last exactly if its name is fresh. */
  lemma LatestIffFresh(digit: char -> bool, t: Transfer)
    requires IsDigitClass(digit) && t.dest == SnapshotName(t.at) && NamedUpTo(digit, t.there, t.at)
    ensures IsLatest(digit, t.dest, t.there) <==> !IsStale(t)
  {
    NameIsValidIff(digit, t.at);
    if !IsStale(t) {
      forall m | m in ValidDirs(digit, t.there) ensures Less(m, t.dest) {
        var u: nat :| u <= t.at && m == SnapshotName(u);
        NameIsValidIff(digit, u);
        NameOrder(u, t.at);
      }
    } else if InRange(t.at) {
      assert t.dest in ValidDirs(digit, t.there);
      LessIsStrict(t.dest, t.dest, t.dest);
    }
  }

  /** The snapshot that a backup links to is the one of the newest instant. */
  lemma LinkIsNewest(digit: char -> bool, t: Transfer) returns (newest: nat)
    requires IsDigitClass(digit) && LinksToNewest(digit, t) && NamedUpTo(digit, t.there, t.at)
    requires t.listed && ValidDirs(digit, t.there) != {}
    ensures t.linkDest == Some(SnapshotName(newest)) && newest <= t.at
    ensures forall u: nat :: SnapshotName(u) in ValidDirs(digit, t.there) ==> u <= newest
  {
    newest :| newest <= t.at && t.linkDest.value == SnapshotName(newest);
    NameIsValidIff(digit, newest);
    forall u: nat | SnapshotName(u) in ValidDirs(digit, t.there) ensures u <= newest {
      NameIsValidIff(digit, u);
      NameOrder(newest, u);
    }
  }

  lemma Later(digit: char -> bool, dirs: set<string>, clock: nat, later: nat)
    requires NamedUpTo(digit, dirs, clock) && clock <= later
    ensures NamedUpTo(digit, dirs, later)
  {
    forall n | n in ValidDirs(digit, dirs) ensures exists t: nat :: t <= later && n == SnapshotName(t) {
      var t: nat :| t <= clock && n == SnapshotName(t);
    }
  }

  lemma OneNameMore(digit: char -> bool, dirs: set<string>, clock: nat)
    requires NamedUpTo(digit, dirs, clock)
    ensures NamedUpTo(digit, dirs + {SnapshotName(clock)}, clock)
  {
    var name := SnapshotName(clock);
    forall n | n in ValidDirs(digit, dirs + {name}) ensures exists t: nat :: t <= clock && n == SnapshotName(t) {
      if n in ValidDirs(digit, dirs) {
        var t: nat :| t <= clock && n == SnapshotName(t);
      } else {
        assert n == SnapshotName(clock);
      }
    }
  }

  lemma TimePasses(digit: char -> bool, remotes: Remotes, clock: nat, later: nat)
    requires Produced(digit, remotes, clock) && clock <= later
    ensures Produced(digit, remotes, later)
  {
    forall id, p ensures NamedUpTo(digit, Dirs(remotes, (id, p)), later) {
      Later(digit, Dirs(remotes, (id, p)), clock, later);
    }
  }

  lemma OneSnapshotMore(
      digit: char -> bool, before: Remotes, after: Remotes, clock: nat, later: nat, id: RemoteId, project: string)
    requires Produced(digit, before, clock) && clock <= later
    requires after == before || after == AddSnapshot(before, id, project, SnapshotName(clock))
    ensures Produced(digit, after, later)
  {
    forall other, p ensures NamedUpTo(digit, Dirs(after, (other, p)), later) {
      var dirs := Dirs(before, (other, p));
      OneNameMore(digit, dirs, clock);
      Later(digit, dirs, clock, later);
      Later(digit, dirs + {SnapshotName(clock)}, clock, later);
    }
  }

  /** The transfer is named after its instant and finds only snapshots of instants before it. */
  ghost predicate IsTimely(digit: char -> bool, t: Transfer) {
    t.dest == SnapshotName(t.at) && NamedUpTo(digit, t.there, t.at)
  }

  ghost predicate AllTimely(digit: char -> bool, added: seq<Transfer>) {
    forall t :: t in added ==> IsTimely(digit, t)
  }

  lemma OneMoreTimely(digit: char -> bool, earlier: seq<Transfer>, last: Transfer)
    requires AllTimely(digit, earlier) && IsTimely(digit, last)
    ensures AllTimely(digit, earlier + [last])
  {
  }

  lemma {:induction false} RunIsTimely(
      digit: char -> bool, before: Remotes, added: seq<Transfer>, since: nat, until: nat)
    requires Produced(digit, before, since) && Uploads(digit, before, added, since, until)
    ensures Produced(digit, Applied(before, added), until) && AllTimely(digit, added)
  {
    if added == [] {
      TimePasses(digit, before, since, until);
    } else {
      var earlier, last := added[..|added| - 1], added[|added| - 1];
      assert EndsWithUpload(digit, before, added, since, until);
      RunIsTimely(digit, before, earlier, since, last.at);
      LastIsTimely(digit, before, added, since, until);
      OneMoreTimely(digit, earlier, last);
      assert added == earlier + [last];
    }
  }

  lemma LastIsTimely(digit: char -> bool, before: Remotes, added: seq<Transfer>, since: nat, until: nat)
    requires added != [] && EndsWithUpload(digit, before, added, since, until)
    requires Produced(digit, Applied(before, added[..|added| - 1]), added[|added| - 1].at)
    ensures Produced(digit, Applied(before, added), until) && IsTimely(digit, added[|added| - 1])
  {
    var last, between := added[|added| - 1], Applied(before, added[..|added| - 1]);
    assert NamedUpTo(digit, Dirs(between, (last.remote, last.project)), last.at);
    OneSnapshotMore(digit, between, Applied(before, added), last.at, until, last.remote, last.project);
  }

  /**
   * Starting with snapshots of past instants, over any run of backups there are only
   * snapshots of past instants, and each new name sorts last exactly if it is fresh.
   */
  lemma RunIsChronological(digit: char -> bool, before: Remotes, added: seq<Transfer>, since: nat, until: nat)
    requires IsDigitClass(digit) && Produced(digit, before, since) && Uploads(digit, before, added, since, until)
    ensures Produced(digit, Applied(before, added), until)
    ensures forall k :: 0 <= k < |added| ==>
      && NamedUpTo(digit, added[k].there, added[k].at)
      && (IsLatest(digit, added[k].dest, added[k].there) <==> !IsStale(added[k]))
  {
    RunIsTimely(digit, before, added, since, until);
    forall k | 0 <= k < |added|
      ensures NamedUpTo(digit, added[k].there, added[k].at)
      ensures IsLatest(digit, added[k].dest, added[k].there) <==> !IsStale(added[k])
    {
      assert added[k] in added && IsTimely(digit, added[k]);
      LatestIffFresh(digit, added[k]);
    }
  }

  // ------------------------------------------------------------------
  // What a run does to the world
  // ------------------------------------------------------------------

  /** Every listing and every upload succeeded. */
  ghost predicate AllWell(added: seq<Transfer>) {
    forall t :: t in added ==> t.listed && t.stored
  }

  /** Every new name sorted last. */
  ghost predicate AllLatest(digit: char -> bool, added: seq<Transfer>) {
    forall t :: t in added ==> IsLatest(digit, t.dest, t.there)
  }

  /** The part of the daemon's state that the next predicate is about. */
  datatype Mark = Mark(clean: bool, faults: nat, remotes: Remotes, clock: nat)

  /**
   * The remotes change by the uploads only, and the daemon stays clean unless
   * something outside failed or a new name did not sort last.
   */
  ghost predicate Follows(digit: char -> bool, from: Mark, to: Mark, added: seq<Transfer>) {
    && to.remotes == Applied(from.remotes, added)
    && Uploads(digit, from.remotes, added, from.clock, to.clock)
    && to.faults >= from.faults
    && (to.faults == from.faults ==> AllWell(added))
    && (to.clean ==> from.clean)
    && (from.clean && !to.clean && to.faults == from.faults ==> !AllLatest(digit, added))
  }

  lemma FollowsTrans(digit: char -> bool, a: Mark, b: Mark, c: Mark, ab: seq<Transfer>, bc: seq<Transfer>)
    requires Follows(digit, a, b, ab) && Follows(digit, b, c, bc)
    ensures Follows(digit, a, c, ab + bc)
  {
    AppliedConcat(a.remotes, ab, bc);
    UploadsConcat(digit, a.remotes, ab, bc, a.clock, b.clock, c.clock);
  }

  lemma NothingUploaded(digit: char -> bool, from: Mark, to: Mark)
    requires to == from.(faults := to.faults, clock := to.clock)
    requires to.faults >= from.faults && to.clock >= from.clock
    ensures Follows(digit, from, to, [])
  {
  }

  lemma FaultsMore(digit: char -> bool, from: Mark, between: Mark, to: Mark, added: seq<Transfer>)
    requires Follows(digit, from, between, added)
    requires to == between.(faults := to.faults) && to.faults >= between.faults
    ensures Follows(digit, from, to, added)
  {
  }

  /** Every cached row of a plain remote shows what is on that remote. */
  ghost predicate CacheAgrees(digit: char -> bool, cache: CacheFile, remotes: Remotes) {
    forall id, p :: IsPlain(id) && RemoteCacheKey(id) == cache.remoteKey && p in cache.projects ==>
      RowAgrees(digit, cache.projects[p], Dirs(remotes, (id, p)))
  }

  /** `record_backup_success` without the disk. */
  function Recorded(cache: CacheFile, key: string, project: string, stats: CachedStats): CacheFile {
    CacheFile(key, (if cache.remoteKey == key then cache.projects else map[])[project := stats])
  }

  // ------------------------------------------------------------------
  // What the cache remembers of a run
  // ------------------------------------------------------------------

  function RowOf(cache: CacheFile, project: string): Option<CachedStats> {
    if project in cache.projects then Some(cache.projects[project]) else None
  }

  /** The row of an upload: its time, and one snapshot more than were listed before it. */
  ghost function StatsAfter(digit: char -> bool, t: Transfer): CachedStats {
    CachedStats(ParseTimestamp(t.dest), (if t.listed then |ValidDirs(digit, t.there)| else 0) + 1)
  }

  /** They are what the code computes from the listing. */
  lemma StatsOfUpload(digit: char -> bool, listed: seq<string>, t: Transfer)
    requires if t.listed then IsListingOf(digit, listed, t.there) else listed == []
    ensures StatsAfter(digit, t) == CachedStats(ParseTimestamp(t.dest), |listed| + 1)
  {
    if t.listed {
      ListingCounts(digit, listed, ValidDirs(digit, t.there));
    }
  }

  /** The row of `project` after some uploads were recorded: that of its last upload, or the one from before. */
  ghost function RowAfter(
      digit: char -> bool, cache: CacheFile, key: string, recorded: seq<Transfer>, project: string)
    : Option<CachedStats>
  {
    if recorded == [] then if cache.remoteKey == key then RowOf(cache, project) else None
    else
      var last := recorded[|recorded| - 1];
      if last.project == project then Some(StatsAfter(digit, last))
      else RowAfter(digit, cache, key, recorded[..|recorded| - 1], project)
  }

  /** The cache shows these uploads, and of the same remote what it showed before. */
  ghost predicate Remembers(
      digit: char -> bool, before: CacheFile, now: CacheFile, id: RemoteId, recorded: seq<Transfer>)
  {
    if recorded == [] then now == before
    else
      && now.remoteKey == RemoteCacheKey(id)
      && forall p :: RowOf(now, p) == RowAfter(digit, before, RemoteCacheKey(id), recorded, p)
  }

  /** It does so of all uploads, or if the run failed, perhaps not of the last one. */
  ghost predicate RemembersRun(
      digit: char -> bool, before: CacheFile, now: CacheFile, id: RemoteId, added: seq<Transfer>, ok: bool)
  {
    || Remembers(digit, before, now, id, added)
    || (!ok && added != [] && Remembers(digit, before, now, id, added[..|added| - 1]))
  }

  /** How many uploads went on after a listing that failed. */
  function Unlisted(added: seq<Transfer>): nat {
    if added == [] then 0
    else Unlisted(added[..|added| - 1]) + if added[|added| - 1].listed then 0 else 1
  }

  lemma UnlistedOneMore(added: seq<Transfer>, more: seq<Transfer>)
    requires |more| == 1
    ensures Unlisted(added + more) == Unlisted(added) + if more[0].listed then 0 else 1
  {
    assert (added + more)[..|added|] == added;
  }

  lemma RemembersOneMore(
      digit: char -> bool, before: CacheFile, between: CacheFile, now: CacheFile, id: RemoteId,
      recorded: seq<Transfer>, t: Transfer)
    requires Remembers(digit, before, between, id, recorded)
    requires now == Recorded(between, RemoteCacheKey(id), t.project, StatsAfter(digit, t))
    ensures Remembers(digit, before, now, id, recorded + [t])
  {
    assert (recorded + [t])[..|recorded|] == recorded;
  }

  lemma RemembersNext(
      digit: char -> bool, before: CacheFile, between: CacheFile, now: CacheFile, id: RemoteId,
      added: seq<Transfer>, more: seq<Transfer>, ok: bool)
    requires Remembers(digit, before, between, id, added) && |more| <= 1
    requires if ok then
        |more| == 1 && now == Recorded(between, RemoteCacheKey(id), more[0].project, StatsAfter(digit, more[0]))
      else now == between
    ensures RemembersRun(digit, before, now, id, added + more, ok)
    ensures ok ==> Remembers(digit, before, now, id, added + more)
  {
    if ok {
      RemembersOneMore(digit, before, between, now, id, added, more[0]);
      assert more == [more[0]];
    } else if more == [] {
      assert added + more == added;
    } else {
      assert (added + more)[..|added|] == added;
    }
  }

  lemma OneUpload(digit: char -> bool, from: Mark, to: Mark, t: Transfer)
    requires t.dest == SnapshotName(t.at) && from.clock <= t.at <= to.clock && LinksToNewest(digit, t)
    requires t.there == Dirs(from.remotes, (t.remote, t.project))
    requires to.remotes == if t.stored then AddSnapshot(from.remotes, t.remote, t.project, t.dest) else from.remotes
    requires to.faults >= from.faults && (to.faults == from.faults ==> t.listed && t.stored)
    requires to.clean ==> from.clean
    requires from.clean && !to.clean && to.faults == from.faults ==> !IsLatest(digit, t.dest, t.there)
    ensures Follows(digit, from, to, [t])
  {
    assert [t][..0] == [];
    assert Applied(from.remotes, []) == from.remotes;
    assert Uploads(digit, from.remotes, [], from.clock, t.at);
  }

  lemma RecordKeepsAgreement(
      digit: char -> bool, cache: CacheFile, remotes: Remotes, id: RemoteId, project: string,
      listed: seq<string>, name: string)
    requires IsPlain(id) && CacheAgrees(digit, cache, remotes)
    requires IsListingOf(digit, listed, Dirs(remotes, (id, project)))
    requires IsLatest(digit, name, Dirs(remotes, (id, project)))
    ensures CacheAgrees(digit,
      Recorded(cache, RemoteCacheKey(id), project, CachedStats(ParseTimestamp(name), |listed| + 1)),
      AddSnapshot(remotes, id, project, name))
  {
    var stats := CachedStats(ParseTimestamp(name), |listed| + 1);
    var next := Recorded(cache, RemoteCacheKey(id), project, stats);
    var after := AddSnapshot(remotes, id, project, name);
    RecordedRowAgrees(digit, listed, Dirs(remotes, (id, project)), name);
    forall other, p | IsPlain(other) && RemoteCacheKey(other) == next.remoteKey && p in next.projects
      ensures RowAgrees(digit, next.projects[p], Dirs(after, (other, p)))
    {
      KeyInjective(other, id);
      if p != project {
        assert RowAgrees(digit, cache.projects[p], Dirs(remotes, (id, p)));
      }
    }
  }

  function CachedRow(projects: map<string, CachedStats>, name: string): ProjectRow {
    if name in projects then ProjectRow(name, projects[name].last, projects[name].count, true)
    else ProjectRow(name, None, 0, false)
  }

  /** The rows the cache answers with under the key of `id`. */
  function Usable(cache: CacheFile, key: string): map<string, CachedStats> {
    if cache.remoteKey == key then cache.projects else map[]
  }

  lemma OtherRowsKept(
      persisted: map<string, CachedStats>, next: map<string, CachedStats>, names: seq<string>, n: nat,
      stats: CachedStats)
    requires NoDuplicates(names) && n < |names|
    requires next == persisted || next == persisted[names[n] := stats]
    ensures forall i :: 0 <= i < |names| && i != n ==> CachedRow(next, names[i]) == CachedRow(persisted, names[i])
  {
  }

  function Missed(flags: seq<bool>): nat {
    if flags == [] then 0 else Missed(flags[..|flags| - 1]) + if flags[|flags| - 1] then 1 else 0
  }

  lemma MissedOneMore(flags: seq<bool>, flag: bool)
    ensures Missed(flags + [flag]) == Missed(flags) + if flag then 1 else 0
  {
    assert (flags + [flag])[..|flags|] == flags;
  }

  lemma {:induction false} NoneMissed(flags: seq<bool>)
    requires Missed(flags) == 0
    ensures true !in flags
  {
    if flags != [] {
      NoneMissed(flags[..|flags| - 1]);
    }
  }

  ghost predicate SameButFlag(a: ProjectRow, b: ProjectRow) {
    a.(fromCache := b.fromCache) == b
  }

  predicate PlainConfig(config: Option<Config>) {
    config.Some? ==> IsPlain(config.value.remote)
  }

  /** The projects to back up, or None when the only one asked for is missing. */
  function Targets(localDirs: seq<string>, only: Option<string>): Option<seq<string>> {
    match only
    case None => Some(localDirs)
    case Some(one) => if one in localDirs then Some([one]) else None
  }

  datatype Operation =
    | Backup(only: Option<string>)
    | Probe
    | SaveConfig(next: Config)

  // ------------------------------------------------------------------
  // Runs of operations
  // ------------------------------------------------------------------

  /** The state that an operation begins or ends in. */
  datatype Moment = Moment(
    mark: Mark, config: Option<Config>, diskConfig: Option<Config>, lastBackupAt: Option<nat>, cache: CacheFile)

  /** Nothing was uploaded and no time recorded. */
  ghost predicate DidNothing(ok: bool, a: Moment, b: Moment, added: seq<Transfer>) {
    !ok && added == [] && b.lastBackupAt == a.lastBackupAt && b.cache == a.cache
  }

  /**
   * One upload for each of the first projects in order, which the cache remembers, and
   * for all of them, with the time of the backup set, if the backup succeeds, which
   * then has met no failure but of listings; it fails for a cause.
   */
  ghost predicate BackedUp(
      digit: char -> bool, id: RemoteId, projects: seq<string>, ok: bool, a: Moment, b: Moment, added: seq<Transfer>)
  {
    && StartedFor(added, id, projects)
    && RemembersRun(digit, a.cache, b.cache, id, added, ok)
    && (ok ==> AllBackedUp(added, b.mark.remotes, id, projects))
    && (ok ==> b.mark.faults == a.mark.faults + Unlisted(added))
    && (!ok ==> b.mark.faults > a.mark.faults)
    && (ok && projects != [] ==> b.lastBackupAt == Some(b.mark.clock))
    && (b.lastBackupAt != a.lastBackupAt ==>
          b.lastBackupAt == Some(b.mark.clock) && projects != [] && AllBackedUp(added, b.mark.remotes, id, projects))
  }

  /**
   * A backup of the configuration it begins with: every project folder, or the only
   * one asked for if it is there.
   */
  ghost predicate DidBackup(
      digit: char -> bool, localDirs: seq<string>, only: Option<string>, ok: bool, a: Moment, b: Moment,
      added: seq<Transfer>)
  {
    && Follows(digit, a.mark, b.mark, added)
    && (a.config.None? || (only.Some? && only.value !in localDirs) ==> DidNothing(ok, a, b, added))
    && (a.config.Some? && only.None? ==> BackedUp(digit, a.config.value.remote, localDirs, ok, a, b, added))
    && (a.config.Some? && only.Some? && only.value in localDirs ==>
          BackedUp(digit, a.config.value.remote, [only.value], ok, a, b, added))
  }

  /** For every project the cache answers with what is on the remote. */
  ghost predicate Refreshed(
      digit: char -> bool, localDirs: seq<string>, id: RemoteId, cache: CacheFile, remotes: Remotes)
  {
    && cache.remoteKey == RemoteCacheKey(id)
    && forall i :: 0 <= i < |localDirs| ==>
        var row := CachedRow(cache.projects, localDirs[i]);
        RowAgrees(digit, CachedStats(row.last, row.count), Dirs(remotes, (id, localDirs[i])))
  }

  /** A probe changes the cache only, and without faults it refreshes every project. */
  ghost predicate DidProbe(digit: char -> bool, localDirs: seq<string>, ok: bool, a: Moment, b: Moment) {
    && b == a.(cache := b.cache, mark := a.mark.(faults := b.mark.faults))
    && b.mark.faults >= a.mark.faults
    && (if ok then a.config.Some? else a.config.None? || b.mark.faults > a.mark.faults)
    && (ok && b.mark.faults == a.mark.faults ==>
          Refreshed(digit, localDirs, a.config.value.remote, b.cache, b.mark.remotes))
  }

  ghost predicate DidOperation(
      digit: char -> bool, localDirs: seq<string>, operation: Operation, ok: bool, a: Moment, b: Moment,
      added: seq<Transfer>)
  {
    match operation
    case Backup(only) => DidBackup(digit, localDirs, only, ok, a, b, added)
    case Probe => DidProbe(digit, localDirs, ok, a, b) && added == []
    case SaveConfig(next) => ok && b == a.(config := Some(next), diskConfig := Some(next)) && added == []
  }

  /** Operation `i` leads from moment `i` to the next one, with result `i` and the uploads of part `i`. */
  ghost predicate Performed(
      digit: char -> bool, localDirs: seq<string>, operations: seq<Operation>, results: seq<bool>,
      moments: seq<Moment>, parts: seq<seq<Transfer>>)
    decreases |operations|, 1
  {
    && |results| == |parts| == |operations| && |moments| == |operations| + 1
    && (operations != [] ==> LastPerformed(digit, localDirs, operations, results, moments, parts))
  }

  ghost predicate LastPerformed(
      digit: char -> bool, localDirs: seq<string>, operations: seq<Operation>, results: seq<bool>,
      moments: seq<Moment>, parts: seq<seq<Transfer>>)
    requires operations != [] && |results| == |parts| == |operations| && |moments| == |operations| + 1
    decreases |operations|, 0
  {
    var n := |operations| - 1;
    && Performed(digit, localDirs, operations[..n], results[..n], moments[..n + 1], parts[..n])
    && DidOperation(digit, localDirs, operations[n], results[n], moments[n], moments[n + 1], parts[n])
  }

  /** In other words, this holds of every operation of the run. */
  lemma {:induction false} PerformedAt(
      digit: char -> bool, localDirs: seq<string>, operations: seq<Operation>, results: seq<bool>,
      moments: seq<Moment>, parts: seq<seq<Transfer>>, i: nat)
    requires Performed(digit, localDirs, operations, results, moments, parts) && i < |operations|
    ensures DidOperation(digit, localDirs, operations[i], results[i], moments[i], moments[i + 1], parts[i])
  {
    var n := |operations| - 1;
    assert LastPerformed(digit, localDirs, operations, results, moments, parts);
    if i < n {
      PerformedAt(digit, localDirs, operations[..n], results[..n], moments[..n + 1], parts[..n], i);
    }
  }

  function Joined(parts: seq<seq<Transfer>>): seq<Transfer> {
    if parts == [] then [] else Joined(parts[..|parts| - 1]) + parts[|parts| - 1]
  }

  ghost predicate AgreesWhileClean(digit: char -> bool, moments: seq<Moment>) {
    forall m :: m in moments && m.mark.clean ==> CacheAgrees(digit, m.cache, m.mark.remotes)
  }

  ghost predicate AgreesThroughout(digit: char -> bool, moments: seq<Moment>) {
    forall m :: m in moments ==> CacheAgrees(digit, m.cache, m.mark.remotes)
  }

  lemma AgreesAtFirst(digit: char -> bool, m: Moment)
    requires CacheAgrees(digit, m.cache, m.mark.remotes)
    ensures AgreesWhileClean(digit, [m])
  {
  }

  lemma OneMorePerformed(
      digit: char -> bool, localDirs: seq<string>, operations: seq<Operation>, n: nat, results: seq<bool>,
      moments: seq<Moment>, parts: seq<seq<Transfer>>, ok: bool, next: Moment, part: seq<Transfer>)
    requires n < |operations| && Performed(digit, localDirs, operations[..n], results, moments, parts)
    requires DidOperation(digit, localDirs, operations[n], ok, moments[n], next, part)
    requires AgreesWhileClean(digit, moments)
    requires next.mark.clean ==> CacheAgrees(digit, next.cache, next.mark.remotes)
    ensures Performed(digit, localDirs, operations[..n + 1], results + [ok], moments + [next], parts + [part])
    ensures AgreesWhileClean(digit, moments + [next])
    ensures Joined(parts + [part]) == Joined(parts) + part
  {
    var ops, rs, ms, ps := operations[..n + 1], results + [ok], moments + [next], parts + [part];
    assert ops[..n] == operations[..n] && rs[..n] == results && ms[..n + 1] == moments && ps[..n] == parts;
    assert LastPerformed(digit, localDirs, ops, rs, ms, ps);
  }

  /** No operation makes the daemon clean again. */
  lemma {:induction false} CleanAllAlong(
      digit: char -> bool, localDirs: seq<string>, operations: seq<Operation>, results: seq<bool>,
      moments: seq<Moment>, parts: seq<seq<Transfer>>)
    requires Performed(digit, localDirs, operations, results, moments, parts)
    requires moments[|operations|].mark.clean
    ensures forall m :: m in moments ==> m.mark.clean
  {
    var n := |operations| - 1;
    if n >= 0 {
      assert LastPerformed(digit, localDirs, operations, results, moments, parts);
      CleanAllAlong(digit, localDirs, operations[..n], results[..n], moments[..n + 1], parts[..n]);
      assert moments == moments[..n + 1] + [moments[n + 1]];
    }
  }

  lemma NeverUnclean(
      digit: char -> bool, localDirs: seq<string>, operations: seq<Operation>, results: seq<bool>,
      moments: seq<Moment>, parts: seq<seq<Transfer>>, from: Mark, to: Mark)
    requires Performed(digit, localDirs, operations, results, moments, parts)
    requires Follows(digit, from, to, Joined(parts)) && moments[|operations|].mark == to
    requires AgreesWhileClean(digit, moments)
    ensures IsDigitClass(digit) && Produced(digit, from.remotes, from.clock) ==>
      from.clean && to.faults == from.faults && (forall t :: t in Joined(parts) ==> !IsStale(t)) ==>
        AgreesThroughout(digit, moments)
  {
    if IsDigitClass(digit) && Produced(digit, from.remotes, from.clock)
       && from.clean && to.faults == from.faults && (forall t :: t in Joined(parts) ==> !IsStale(t)) {
      RunIsChronological(digit, from.remotes, Joined(parts), from.clock, to.clock);
      assert AllLatest(digit, Joined(parts));
      CleanAllAlong(digit, localDirs, operations, results, moments, parts);
    }
  }

  class Daemon {
    var config: Option<Config>
    var diskConfig: Option<Config>
    var cache: CacheFile
    var lastBackupAt: Option<nat>
    var remotes: Remotes
    var clock: nat
    var localDirs: seq<string>
    ghost var transfers: seq<Transfer>
    // Nothing has gone wrong that leaves a snapshot folder the cache does not know.
    ghost var clean: bool
    // How often something outside the daemon failed.
    ghost var faults: nat
    const digit: char -> bool

    /**
     * Other tasks run: time passes and any configuration may be saved, though
     * never the first one without a plain remote.
     */
    method Interfere()
      modifies this`config, this`diskConfig, this`clock
      ensures clock >= old(clock)
      ensures PlainConfig(old(config)) ==> PlainConfig(config)
    {
      var next: Option<Config> :| PlainConfig(config) ==> PlainConfig(next);
      config := next;
      diskConfig := *;
      var later :| later >= clock;
      clock := later;
    }

    /** Whether something outside the daemon works. */
    method Try() returns (ok: bool)
      modifies this`faults
      ensures faults == old(faults) + if ok then 0 else 1
    {
      ok := *;
      faults := faults + if ok then 0 else 1;
    }

    /** The remote listing; None when the ssh command fails. */
    method ListRemote(id: RemoteId, project: string) returns (names: Option<seq<string>>)
      modifies this`faults
      ensures names.Some? ==> IsListingOf(digit, names.value, Dirs(remotes, (id, project)))
      ensures faults == old(faults) + if names.Some? then 0 else 1
    {
      var reached := Try();
      var listing := ListDirectories(digit, Dirs(remotes, (id, project)));
      return if reached then Some(listing) else None;
    }

    /** Copies one project; a failed transfer may leave its folder behind. */
    method Rsync(id: RemoteId, project: string, linkDest: Option<string>, dest: string, ghost listed: bool)
      returns (ok: bool)
      modifies this`remotes, this`transfers, this`clean, this`faults
      ensures |transfers| == |old(transfers)| + 1 && old(transfers) <= transfers
      ensures var t := transfers[|old(transfers)|];
        && t == Transfer(id, project, linkDest, dest, clock, listed, Dirs(old(remotes), (id, project)), t.stored)
        && (ok ==> t.stored)
        && remotes == (if t.stored then AddSnapshot(old(remotes), id, project, dest) else old(remotes))
        && (clean <==> old(clean) && (ok || !t.stored))
      ensures faults == old(faults) + if ok then 0 else 1
    {
      ok := Try();
      var partial: bool := *;
      var stored := ok || partial;
      transfers := transfers +
        [Transfer(id, project, linkDest, dest, clock, listed, Dirs(remotes, (id, project)), stored)];
      if stored {
        remotes := AddSnapshot(remotes, id, project, dest);
      }
      clean := clean && (ok || !stored);
    }

    /** `record_backup_success`: the row is lost if the file cannot be written. */
    method RecordBackupSuccess(id: RemoteId, project: string, name: string, count: nat) returns (ok: bool)
      modifies this`cache, this`clean, this`faults
      ensures ok ==> clean == old(clean)
      ensures ok ==>
        cache == Recorded(old(cache), RemoteCacheKey(id), project, CachedStats(ParseTimestamp(name), count))
      ensures !ok ==> cache == old(cache) && !clean
      ensures faults == old(faults) + if ok then 0 else 1
    {
      var disk := cache;
      var key := RemoteCacheKey(id);
      if disk.remoteKey != key {
        disk := disk.(projects := map[]);
      }
      disk := disk.(remoteKey := key);
      disk := disk.(projects := disk.projects[project := CachedStats(ParseTimestamp(name), count)]);
      ok := Try();
      if ok {
        cache := disk;
      } else {
        clean := false;
      }
    }

    /** The transfers since `before`. */
    ghost function Since(before: seq<Transfer>): seq<Transfer>
      requires before <= transfers
      reads this
    {
      transfers[|before|..]
    }

    ghost function Now(): Mark
      reads this
    {
      Mark(clean, faults, remotes, clock)
    }

    /** Runs the transfer, linking to the newest snapshot that was listed. */
    method TransferSnapshot(cfg: Config, project: string, listing: Option<seq<string>>, name: string) returns (ok: bool)
      requires listing.Some? ==> IsListingOf(digit, listing.value, Dirs(remotes, (cfg.remote, project)))
      modifies this`remotes, this`transfers, this`clean, this`faults
      ensures |transfers| == |old(transfers)| + 1 && old(transfers) <= transfers
      ensures var t := transfers[|old(transfers)|];
        && t.remote == cfg.remote && t.project == project && t.dest == name && t.at == clock
        && t.listed == listing.Some? && t.there == Dirs(old(remotes), (cfg.remote, project))
        && LinksToNewest(digit, t)
        && (ok ==> t.stored)
        && remotes == (if t.stored then AddSnapshot(old(remotes), cfg.remote, project, name) else old(remotes))
        && (clean <==> old(clean) && (ok || !t.stored))
      ensures faults == old(faults) + if ok then 0 else 1
    {
      var snapshots := if listing.Some? then listing.value else [];
      var linkDest := if snapshots != [] then Some(snapshots[0]) else None;
      if listing.Some? {
        ListingHead(digit, snapshots, Dirs(remotes, (cfg.remote, project)));
      }
      ok := Rsync(cfg.remote, project, linkDest, name, listing.Some?);
    }

    /** Records upload `t`, before which there was `before` on the remotes. */
    method RecordUpload(
      cfg: Config, project: string, snapshots: seq<string>, name: string, ghost t: Transfer, ghost before: Remotes)
      returns (ok: bool)
      requires t.project == project && t.dest == name && t.there == Dirs(before, (cfg.remote, project))
      requires if t.listed then IsListingOf(digit, snapshots, t.there) else snapshots == []
      requires remotes == AddSnapshot(before, cfg.remote, project, name)
      requires clean ==> t.listed && IsLatest(digit, name, t.there)
      modifies this`cache, this`clean, this`faults
      ensures clean <==> old(clean) && ok
      ensures clean && IsPlain(cfg.remote) && CacheAgrees(digit, old(cache), before) ==>
        CacheAgrees(digit, cache, remotes)
      ensures cache ==
        if ok then Recorded(old(cache), RemoteCacheKey(cfg.remote), project, StatsAfter(digit, t)) else old(cache)
      ensures faults == old(faults) + if ok then 0 else 1
    {
      StatsOfUpload(digit, snapshots, t);
      if clean && IsPlain(cfg.remote) && CacheAgrees(digit, cache, before) {
        RecordKeepsAgreement(digit, cache, before, cfg.remote, project, snapshots, name);
      }
      ok := RecordBackupSuccess(cfg.remote, project, name, |snapshots| + 1);
    }

    /**
     * Uploads a new snapshot and records it. `clean` also turns false when the
     * listing failed or the new name does not sort last.
     */
    method Upload(cfg: Config, project: string, listing: Option<seq<string>>, name: string) returns (ok: bool)
      requires listing.Some? ==> IsListingOf(digit, listing.value, Dirs(remotes, (cfg.remote, project)))
      modifies this`remotes, this`transfers, this`cache, this`clean, this`faults
      ensures |transfers| == |old(transfers)| + 1 && old(transfers) <= transfers
      ensures var t := transfers[|old(transfers)|];
        && t.remote == cfg.remote && t.project == project && t.dest == name && t.at == clock
        && t.listed == listing.Some? && t.there == Dirs(old(remotes), (cfg.remote, project))
        && LinksToNewest(digit, t)
        && (ok ==> t.stored)
        && remotes == (if t.stored then AddSnapshot(old(remotes), cfg.remote, project, name) else old(remotes))
        && (clean ==> old(clean))
        && (old(clean) && !clean ==> faults > old(faults) || listing.None? || !IsLatest(digit, t.dest, t.there))
      ensures clean && IsPlain(cfg.remote) && CacheAgrees(digit, old(cache), old(remotes)) ==>
        CacheAgrees(digit, cache, remotes)
      ensures cache ==
        if ok then Recorded(
          old(cache), RemoteCacheKey(cfg.remote), project, StatsAfter(digit, transfers[|old(transfers)|]))
        else old(cache)
      ensures faults == old(faults) + if ok then 0 else 1
    {
      var snapshots := if listing.Some? then listing.value else [];
      ghost var before := remotes;
      if listing.None? || !IsLatest(digit, name, Dirs(remotes, (cfg.remote, project))) {
        clean := false;
      }
      ok := TransferSnapshot(cfg, project, listing, name);
      if !ok {
        return;
      }
      ok := RecordUpload(cfg, project, snapshots, name, transfers[|old(transfers)|], before);
    }

    /** Uploads a snapshot named by the time, in a turn that began at `from`. */
    method UploadStamped(cfg: Config, project: string, listing: Option<seq<string>>, ghost from: Mark)
      returns (ok: bool)
      requires listing.Some? ==> IsListingOf(digit, listing.value, Dirs(remotes, (cfg.remote, project)))
      requires Now() == from.(faults := faults, clock := clock)
      requires faults == from.faults + (if listing.None? then 1 else 0) && clock >= from.clock
      modifies this`remotes, this`transfers, this`cache, this`clean, this`faults
      ensures old(transfers) <= transfers && |Since(old(transfers))| == 1
      ensures var t := Since(old(transfers))[0];
        && t.remote == cfg.remote && t.project == project && (ok ==> t.stored)
        && (ok ==> faults == from.faults + if t.listed then 0 else 1)
      ensures clean && IsPlain(cfg.remote) && CacheAgrees(digit, old(cache), old(remotes)) ==>
        CacheAgrees(digit, cache, remotes)
      ensures Follows(digit, from, Now(), Since(old(transfers)))
      ensures cache ==
        if ok then Recorded(
          old(cache), RemoteCacheKey(cfg.remote), project, StatsAfter(digit, Since(old(transfers))[0]))
        else old(cache)
      ensures !ok ==> faults > old(faults)
    {
      var name := SnapshotName(clock);
      ok := Upload(cfg, project, listing, name);
      OneUpload(digit, from, Now(), transfers[|old(transfers)|]);
      AppendedOne(old(transfers), transfers);
    }

    /** Checks the project's folder, lists its snapshots and makes its folder on the host. */
    method Prepare(cfg: Config, project: string) returns (ok: bool, listing: Option<seq<string>>)
      modifies this`config, this`diskConfig, this`clock, this`faults
      ensures PlainConfig(old(config)) ==> PlainConfig(config)
      ensures clock >= old(clock) && faults >= old(faults)
      ensures if ok then faults == old(faults) + (if listing.None? then 1 else 0) else faults > old(faults)
      ensures listing.Some? ==> IsListingOf(digit, listing.value, Dirs(remotes, (cfg.remote, project)))
    {
      listing := None;
      Interfere();
      ok := Try();
      if !ok {
        return;
      }
      listing := ListRemote(cfg.remote, project);
      Interfere();
      ok := Try();
    }

    /** One turn of the loop over the projects. */
    method BackupProject(cfg: Config, project: string) returns (ok: bool)
      modifies this`config, this`diskConfig, this`clock, this`remotes, this`transfers
      modifies this`cache, this`clean, this`faults
      ensures PlainConfig(old(config)) ==> PlainConfig(config)
      ensures old(transfers) <= transfers && |Since(old(transfers))| <= 1
      ensures forall t :: t in Since(old(transfers)) ==> t.remote == cfg.remote && t.project == project
      ensures ok ==> |Since(old(transfers))| == 1 && Since(old(transfers))[0].stored
      ensures ok ==> faults == old(faults) + if Since(old(transfers))[0].listed then 0 else 1
      ensures clean && IsPlain(cfg.remote) && CacheAgrees(digit, old(cache), old(remotes)) ==>
        CacheAgrees(digit, cache, remotes)
      ensures Follows(digit, old(Now()), Now(), Since(old(transfers)))
      ensures cache ==
        if ok then Recorded(
          old(cache), RemoteCacheKey(cfg.remote), project, StatsAfter(digit, Since(old(transfers))[0]))
        else old(cache)
      ensures !ok ==> faults > old(faults)
    {
      AppendedNone(transfers);
      var listing;
      ok, listing := Prepare(cfg, project);
      if !ok {
        NothingUploaded(digit, old(Now()), Now());
        return;
      }
      ok := UploadStamped(cfg, project, listing, old(Now()));
    }

    /** The next project of a run that began at `from` and has uploaded `added`. */
    method BackupNext(
      cfg: Config, targets: seq<string>, n: nat, ghost from: Mark, ghost cache0: CacheFile, ghost added: seq<Transfer>)
      returns (ok: bool)
      requires Remembers(digit, cache0, cache, cfg.remote, added)
      requires n == |added| < |targets| && StoredFor(added, cfg.remote, targets) && Follows(digit, from, Now(), added)
      modifies this`config, this`diskConfig, this`clock, this`remotes, this`transfers
      modifies this`cache, this`clean, this`faults
      ensures PlainConfig(old(config)) ==> PlainConfig(config)
      ensures old(transfers) <= transfers
      ensures StartedFor(added + Since(old(transfers)), cfg.remote, targets)
      ensures ok ==> |Since(old(transfers))| == 1 && StoredFor(added + Since(old(transfers)), cfg.remote, targets)
      ensures clean ==> old(clean)
      ensures clean && IsPlain(cfg.remote) && CacheAgrees(digit, old(cache), old(remotes)) ==>
        CacheAgrees(digit, cache, remotes)
      ensures Follows(digit, from, Now(), added + Since(old(transfers)))
      ensures ok ==> faults == old(faults) - Unlisted(added) + Unlisted(added + Since(old(transfers)))
      ensures RemembersRun(digit, cache0, cache, cfg.remote, added + Since(old(transfers)), ok)
      ensures ok ==> Remembers(digit, cache0, cache, cfg.remote, added + Since(old(transfers)))
      ensures !ok ==> faults > old(faults)
    {
      ok := BackupProject(cfg, targets[n]);
      RemembersNext(digit, cache0, old(cache), cache, cfg.remote, added, Since(old(transfers)), ok);
      FollowsTrans(digit, from, old(Now()), Now(), added, Since(old(transfers)));
      StoredOneMore(added, Since(old(transfers)), cfg.remote, targets);
      if ok {
        UnlistedOneMore(added, Since(old(transfers)));
      }
    }

    /** The loop over the targets; it stops at the first failure. */
    method BackupEach(cfg: Config, targets: seq<string>) returns (ok: bool)
      modifies this`config, this`diskConfig, this`clock, this`remotes, this`transfers
      modifies this`cache, this`clean, this`faults
      ensures PlainConfig(old(config)) ==> PlainConfig(config)
      ensures old(transfers) <= transfers
      ensures StartedFor(Since(old(transfers)), cfg.remote, targets)
      ensures ok ==> AllBackedUp(Since(old(transfers)), remotes, cfg.remote, targets)
      ensures ok ==> faults == old(faults) + Unlisted(Since(old(transfers)))
      ensures clean && IsPlain(cfg.remote) && CacheAgrees(digit, old(cache), old(remotes)) ==>
        CacheAgrees(digit, cache, remotes)
      ensures Follows(digit, old(Now()), Now(), Since(old(transfers)))
      ensures RemembersRun(digit, old(cache), cache, cfg.remote, Since(old(transfers)), ok)
      ensures !ok ==> faults > old(faults)
    {
      ok := true;
      ghost var added: seq<Transfer> := [];
      for n := 0 to |targets|
        invariant PlainConfig(old(config)) ==> PlainConfig(config)
        invariant transfers == old(transfers) + added && |added| == n
        invariant StoredFor(added, cfg.remote, targets)
        invariant Follows(digit, old(Now()), Now(), added)
        invariant Remembers(digit, old(cache), cache, cfg.remote, added)
        invariant faults == old(faults) + Unlisted(added)
        invariant clean && IsPlain(cfg.remote) && CacheAgrees(digit, old(cache), old(remotes)) ==>
          CacheAgrees(digit, cache, remotes)
      {
        ghost var transfers1 := transfers;
        ok := BackupNext(cfg, targets, n, old(Now()), old(cache), added);
        ghost var more := Since(transfers1);
        AppendedTwice(old(transfers), added, transfers1, transfers);
        added := added + more;
        if !ok {
          return;
        }
      }
      AppendedSince(old(transfers), added);
      AllStored(old(remotes), added, cfg.remote, targets);
    }

    /** Sets the time of the last backup and saves the configuration with it. */
    method RecordTime(cfg: Config) returns (ok: bool)
      modifies this`lastBackupAt, this`config, this`diskConfig, this`faults
      ensures lastBackupAt == Some(clock)
      ensures if ok then config == diskConfig == Some(cfg.(lastBackupAt := Some(clock)))
        else config == old(config) && diskConfig == old(diskConfig)
      ensures faults == old(faults) + if ok then 0 else 1
    {
      lastBackupAt := Some(clock);
      var updated := cfg.(lastBackupAt := Some(clock));
      ok := Try();
      if ok {
        diskConfig := Some(updated);
        config := Some(updated);
      }
    }

    /** Backs up the targets and, once all are done, records the time. */
    method BackupTargets(cfg: Config, targets: seq<string>) returns (ok: bool)
      requires targets != []
      modifies this`config, this`diskConfig, this`clock, this`remotes, this`transfers, this`cache, this`clean,
        this`faults, this`lastBackupAt
      ensures PlainConfig(old(config)) && IsPlain(cfg.remote) ==> PlainConfig(config)
      ensures old(transfers) <= transfers
      ensures Follows(digit, old(Now()), Now(), Since(old(transfers)))
      ensures BackedUp(digit, cfg.remote, targets, ok, old(Here()), Here(), Since(old(transfers)))
      ensures ok ==> config == diskConfig == Some(cfg.(lastBackupAt := Some(clock)))
      ensures clean && IsPlain(cfg.remote) && CacheAgrees(digit, old(cache), old(remotes)) ==>
        CacheAgrees(digit, cache, remotes)
    {
      ok := BackupEach(cfg, targets);
      if !ok {
        return;
      }
      ghost var done := Now();
      ok := RecordTime(cfg);
      FaultsMore(digit, old(Now()), done, Now(), Since(old(transfers)));
    }

    /** `execute_backup_cycle_with_sink`. */
    method ExecuteBackupCycle(only: Option<string>) returns (ok: bool)
      modifies this
      ensures localDirs == old(localDirs)
      ensures PlainConfig(old(config)) ==> PlainConfig(config)
      ensures old(transfers) <= transfers
      ensures DidBackup(digit, localDirs, only, ok, old(Here()), Here(), Since(old(transfers)))
      ensures old(config).None? ==> cache == old(cache) && remotes == old(remotes)
      ensures ok ==>
        if only.None? && localDirs == [] then config == old(config)
        else config == diskConfig == Some(old(config).value.(lastBackupAt := Some(clock)))
      ensures clean && old(config).Some? && IsPlain(old(config).value.remote)
              && CacheAgrees(digit, old(cache), old(remotes)) ==>
        CacheAgrees(digit, cache, remotes)
    {
      ok := false;
      assert Since(transfers) == [];
      NothingUploaded(digit, Now(), Now());
      if config.None? {
        return;
      }
      var cfg := config.value;
      var targets := Targets(localDirs, only);
      var hosts := Try();
      NothingUploaded(digit, old(Now()), Now());
      if targets.None? || !hosts {
        return;
      }
      if targets.value == [] {
        ok := true;
        return;
      }
      ok := BackupTargets(cfg, targets.value);
    }

    ghost function Here(): Moment
      reads this
    {
      Moment(Now(), config, diskConfig, lastBackupAt, cache)
    }

    /** One operation of a run. */
    method Perform(operation: Operation) returns (ok: bool, ghost added: seq<Transfer>)
      requires NoDuplicates(localDirs) && PlainConfig(config)
      requires operation.SaveConfig? ==> IsPlain(operation.next.remote)
      modifies this
      ensures localDirs == old(localDirs) && PlainConfig(config)
      ensures transfers == old(transfers) + added
      ensures DidOperation(digit, localDirs, operation, ok, old(Here()), Here(), added)
      ensures Follows(digit, old(Now()), Now(), added)
      ensures clean && CacheAgrees(digit, old(cache), old(remotes)) ==> CacheAgrees(digit, cache, remotes)
    {
      match operation
      case Backup(only) =>
        ok := ExecuteBackupCycle(only);
        added := Since(old(transfers));
      case Probe =>
        ok := ProbeAll();
        added := [];
      case SaveConfig(next) =>
        config := Some(next);
        diskConfig := Some(next);
        ok, added := true, [];
    }

    /** The rows the listing shows without asking the remote. */
    function CachedRows(id: RemoteId, names: seq<string>): (rows: seq<ProjectRow>)
      reads this
      ensures |rows| == |names|
    {
      var projects := Usable(cache, RemoteCacheKey(id));
      seq(|names|, i requires 0 <= i < |names| => CachedRow(projects, names[i]))
    }

    /**
     * `handle_list_projects` without probing: rows come from the cache only. It fails
     * without a configuration, or if the projects folder cannot be read.
     */
    method ListFromCache() returns (rows: Option<seq<ProjectRow>>)
      modifies this`faults
      ensures rows.None? <==> config.None? || faults > old(faults)
      ensures faults >= old(faults)
      ensures rows.Some? ==> rows.value == CachedRows(config.value.remote, localDirs)
      ensures rows.Some? ==> forall i :: 0 <= i < |localDirs| ==>
        rows.value[i] ==
          if cache.remoteKey == RemoteCacheKey(config.value.remote) && localDirs[i] in cache.projects
          then var stats := cache.projects[localDirs[i]]; ProjectRow(localDirs[i], stats.last, stats.count, true)
          else ProjectRow(localDirs[i], None, 0, false)
      // No row recorded for another remote is shown, and those shown are right if the cache is.
      ensures rows.Some? && IsPlain(config.value.remote) ==>
        forall other :: IsPlain(other) && cache.remoteKey == RemoteCacheKey(other) && other != config.value.remote ==>
          forall i :: 0 <= i < |localDirs| ==> rows.value[i] == ProjectRow(localDirs[i], None, 0, false)
      ensures rows.Some? && IsPlain(config.value.remote) && CacheAgrees(digit, cache, remotes) ==>
        forall i :: 0 <= i < |localDirs| && rows.value[i].fromCache ==>
          RowAgrees(digit, CachedStats(rows.value[i].last, rows.value[i].count),
                    Dirs(remotes, (config.value.remote, localDirs[i])))
    {
      if config.None? {
        return None;
      }
      var readable := Try();
      if !readable {
        return None;
      }
      var persisted := Usable(cache, RemoteCacheKey(config.value.remote));
      var out: seq<ProjectRow> := [];
      for n := 0 to |localDirs|
        invariant |out| == n
        invariant forall i :: 0 <= i < n ==> out[i] == CachedRow(persisted, localDirs[i])
      {
        out := out + [CachedRow(persisted, localDirs[n])];
      }
      if IsPlain(config.value.remote) {
        forall other | IsPlain(other) && cache.remoteKey == RemoteCacheKey(other) && other != config.value.remote
          ensures persisted == map[]
        {
          if cache.remoteKey == RemoteCacheKey(config.value.remote) {
            KeyInjective(other, config.value.remote);
          }
        }
      }
      return Some(out);
    }

    /** One row: what the remote answers, or what the cache knows. */
    method ProbeOne(id: RemoteId, name: string, persisted: map<string, CachedStats>)
      returns (row: ProjectRow, next: map<string, CachedStats>)
      modifies this`faults
      ensures old(faults) <= faults <= old(faults) + 1
      ensures faults == old(faults) ==>
        && row.name == name && !row.fromCache
        && RowAgrees(digit, CachedStats(row.last, row.count), Dirs(remotes, (id, name)))
        && next == persisted[name := CachedStats(row.last, row.count)]
      ensures faults > old(faults) ==> next == persisted && row == CachedRow(persisted, name)
    {
      var listing := ListRemote(id, name);
      if listing.None? {
        return CachedRow(persisted, name), persisted;
      }
      var stats := StatsOf(listing.value);
      ListingRowAgrees(digit, listing.value, Dirs(remotes, (id, name)));
      return ProjectRow(name, stats.last, stats.count, false), persisted[name := stats];
    }

    /** The row shows what is on the remote. */
    ghost predicate IsFresh(row: ProjectRow, id: RemoteId, name: string)
      reads this
    {
      && row.name == name && !row.fromCache
      && RowAgrees(digit, CachedStats(row.last, row.count), Dirs(remotes, (id, name)))
    }

    /** Rows of a probe that began with `usable` and has brought it to `persisted`. */
    ghost predicate ProbedRows(
        rows: seq<ProjectRow>, missed: seq<bool>, id: RemoteId, usable: map<string, CachedStats>,
        persisted: map<string, CachedStats>)
      requires |rows| == |missed| <= |localDirs|
      reads this
    {
      forall i :: 0 <= i < |rows| ==>
        && (if missed[i] then rows[i] == CachedRow(usable, localDirs[i]) else IsFresh(rows[i], id, localDirs[i]))
        && SameButFlag(rows[i], CachedRow(persisted, localDirs[i]))
    }

    /** The loop over the projects. */
    method ProbeEach(id: RemoteId, usable: map<string, CachedStats>)
      returns (rows: seq<ProjectRow>, persisted: map<string, CachedStats>, ghost missed: seq<bool>)
      requires NoDuplicates(localDirs)
      modifies this`faults
      ensures |rows| == |missed| == |localDirs| && ProbedRows(rows, missed, id, usable, persisted)
      ensures faults == old(faults) + Missed(missed)
      ensures IsPlain(id) && CacheAgrees(digit, CacheFile(RemoteCacheKey(id), usable), remotes) ==>
        CacheAgrees(digit, CacheFile(RemoteCacheKey(id), persisted), remotes)
    {
      rows, persisted, missed := [], usable, [];
      for n := 0 to |localDirs|
        invariant |rows| == |missed| == n && ProbedRows(rows, missed, id, usable, persisted)
        invariant NotYetProbed(n, usable, persisted)
        invariant faults == old(faults) + Missed(missed)
        invariant IsPlain(id) && CacheAgrees(digit, CacheFile(RemoteCacheKey(id), usable), remotes) ==>
          CacheAgrees(digit, CacheFile(RemoteCacheKey(id), persisted), remotes)
      {
        var row;
        ghost var miss;
        row, persisted, miss := ProbeNext(id, usable, rows, persisted, missed);
        MissedOneMore(missed, miss);
        rows, missed := rows + [row], missed + [miss];
      }
    }

    /** One turn of the loop. */
    method ProbeNext(id: RemoteId, ghost usable: map<string, CachedStats>, rows: seq<ProjectRow>,
                     persisted: map<string, CachedStats>, ghost missed: seq<bool>)
      returns (row: ProjectRow, next: map<string, CachedStats>, ghost miss: bool)
      requires NoDuplicates(localDirs) && |rows| == |missed| < |localDirs|
      requires ProbedRows(rows, missed, id, usable, persisted) && NotYetProbed(|rows|, usable, persisted)
      modifies this`faults
      ensures ProbedRows(rows + [row], missed + [miss], id, usable, next) && NotYetProbed(|rows| + 1, usable, next)
      ensures faults == old(faults) + if miss then 1 else 0
      ensures IsPlain(id) && CacheAgrees(digit, CacheFile(RemoteCacheKey(id), persisted), remotes) ==>
        CacheAgrees(digit, CacheFile(RemoteCacheKey(id), next), remotes)
    {
      var name := localDirs[|rows|];
      row, next := ProbeOne(id, name, persisted);
      miss := faults > old(faults);
      OtherRowsKept(persisted, next, localDirs, |rows|, CachedStats(row.last, row.count));
      if next != persisted && IsPlain(id) && CacheAgrees(digit, CacheFile(RemoteCacheKey(id), persisted), remotes) {
        ProbedRowAgrees(digit, RemoteCacheKey(id), persisted, remotes, id, name, CachedStats(row.last, row.count));
      }
    }

    /** The entries of the projects from the `n`-th on are as they were. */
    ghost predicate NotYetProbed(n: nat, usable: map<string, CachedStats>, persisted: map<string, CachedStats>)
      reads this
    {
      forall i :: n <= i < |localDirs| ==> CachedRow(persisted, localDirs[i]) == CachedRow(usable, localDirs[i])
    }

    /**
     * `handle_list_projects` with probing: every row that the remote answers for is
     * refreshed, the others fall back to the cache, and the result is written back.
     * It fails without a configuration, or if the projects folder cannot be read or
     * the file of known hosts cannot be located.
     */
    method ListAndProbe() returns (rows: Option<seq<ProjectRow>>, saved: bool, ghost missed: seq<bool>)
      requires NoDuplicates(localDirs)
      modifies this`cache, this`faults
      ensures config.None? ==> rows.None?
      ensures rows.None? ==> !saved && (config.None? || faults > old(faults))
      ensures !saved ==> cache == old(cache)
      ensures rows.Some? ==> |rows.value| == |missed| == |localDirs|
      // Cached rows are shown for the projects whose listing failed, and no others.
      ensures rows.Some? ==> forall i :: 0 <= i < |localDirs| ==>
        if missed[i] then
          rows.value[i] == CachedRow(Usable(old(cache), RemoteCacheKey(config.value.remote)), localDirs[i])
        else IsFresh(rows.value[i], config.value.remote, localDirs[i])
      ensures rows.Some? ==> faults == old(faults) + Missed(missed) + if saved then 0 else 1
      ensures faults >= old(faults)
      // What was probed is what the cache answers from then on.
      ensures rows.Some? && saved ==> cache.remoteKey == RemoteCacheKey(config.value.remote)
      ensures rows.Some? && saved ==>
        forall i :: 0 <= i < |localDirs| ==>
          SameButFlag(rows.value[i], CachedRows(config.value.remote, localDirs)[i])
      ensures (config.Some? ==> IsPlain(config.value.remote)) && CacheAgrees(digit, old(cache), remotes) ==>
        CacheAgrees(digit, cache, remotes)
    {
      saved, missed := false, [];
      if config.None? {
        return None, saved, missed;
      }
      var readable := Try();
      if !readable {
        return None, saved, missed;
      }
      var hosts := Try();
      if !hosts {
        return None, saved, missed;
      }
      var id := config.value.remote;
      var key := RemoteCacheKey(id);
      assert CacheAgrees(digit, cache, remotes) ==> CacheAgrees(digit, CacheFile(key, Usable(cache, key)), remotes);
      var out, persisted;
      out, persisted, missed := ProbeEach(id, Usable(cache, key));
      saved := Try();
      if saved {
        cache := CacheFile(key, persisted);
      }
      return Some(out), saved, missed;
    }

    /** A probe, seen from the cache. */
    method ProbeAll() returns (ok: bool)
      requires NoDuplicates(localDirs)
      modifies this`cache, this`faults
      ensures DidProbe(digit, localDirs, ok, old(Here()), Here())
      ensures PlainConfig(config) && CacheAgrees(digit, old(cache), remotes) ==> CacheAgrees(digit, cache, remotes)
    {
      var rows, _, missed := ListAndProbe();
      ok := rows.Some?;
      if ok && faults == old(faults) {
        NoneMissed(missed);
        var id := config.value.remote;
        forall i | 0 <= i < |localDirs|
          ensures var row := CachedRow(cache.projects, localDirs[i]);
            RowAgrees(digit, CachedStats(row.last, row.count), Dirs(remotes, (id, localDirs[i])))
        {
          assert IsFresh(rows.value[i], id, localDirs[i]);
          assert SameButFlag(rows.value[i], CachedRows(id, localDirs)[i]);
        }
      }
    }
  }

  /**
   * Performs any sequence of backups, probes and saves of a configuration. `moments`
   * are the states between them, `results` their outcomes and `parts` their uploads.
   */
  method RunOperations(daemon: Daemon, operations: seq<Operation>)
    returns (results: seq<bool>, ghost moments: seq<Moment>, ghost parts: seq<seq<Transfer>>)
    requires NoDuplicates(daemon.localDirs) && PlainConfig(daemon.config)
    requires forall i :: 0 <= i < |operations| && operations[i].SaveConfig? ==> IsPlain(operations[i].next.remote)
    requires CacheAgrees(daemon.digit, daemon.cache, daemon.remotes)
    modifies daemon
    ensures daemon.localDirs == old(daemon.localDirs)
    // Every operation does its part, from the state before the run to the one after it.
    ensures Performed(daemon.digit, daemon.localDirs, operations, results, moments, parts)
    ensures moments[0] == old(daemon.Here()) && moments[|operations|] == daemon.Here()
    ensures old(daemon.transfers) <= daemon.transfers && daemon.Since(old(daemon.transfers)) == Joined(parts)
    ensures Follows(daemon.digit, old(daemon.Now()), daemon.Now(), Joined(parts))
    // While nothing unclean has happened the cache shows what is on the remote.
    ensures AgreesWhileClean(daemon.digit, moments)
    // From snapshots of past instants that takes a fault, or a name used twice in a second.
    ensures IsDigitClass(daemon.digit) && Produced(daemon.digit, old(daemon.remotes), old(daemon.clock)) ==>
      old(daemon.clean) && daemon.faults == old(daemon.faults) && (forall t :: t in Joined(parts) ==> !IsStale(t)) ==>
        AgreesThroughout(daemon.digit, moments)
  {
    results, moments, parts := PerformAll(daemon, operations);
    AppendedSince(old(daemon.transfers), Joined(parts));
    NeverUnclean(
      daemon.digit, daemon.localDirs, operations, results, moments, parts, old(daemon.Now()), daemon.Now());
  }

  /** One operation after the other. */
  method PerformAll(daemon: Daemon, operations: seq<Operation>)
    returns (results: seq<bool>, ghost moments: seq<Moment>, ghost parts: seq<seq<Transfer>>)
    requires NoDuplicates(daemon.localDirs) && PlainConfig(daemon.config)
    requires forall i :: 0 <= i < |operations| && operations[i].SaveConfig? ==> IsPlain(operations[i].next.remote)
    requires CacheAgrees(daemon.digit, daemon.cache, daemon.remotes)
    modifies daemon
    ensures daemon.localDirs == old(daemon.localDirs)
    ensures Performed(daemon.digit, daemon.localDirs, operations, results, moments, parts)
    ensures moments[0] == old(daemon.Here()) && moments[|operations|] == daemon.Here()
    ensures daemon.transfers == old(daemon.transfers) + Joined(parts)
    ensures Follows(daemon.digit, old(daemon.Now()), daemon.Now(), Joined(parts))
    ensures AgreesWhileClean(daemon.digit, moments)
  {
    results, moments, parts := [], [daemon.Here()], [];
    AgreesAtFirst(daemon.digit, daemon.Here());
    for n := 0 to |operations|
      invariant daemon.localDirs == old(daemon.localDirs)
      invariant Performed(daemon.digit, daemon.localDirs, operations[..n], results, moments, parts)
      invariant moments[0] == old(daemon.Here()) && moments[n] == daemon.Here()
      invariant daemon.transfers == old(daemon.transfers) + Joined(parts)
      invariant Follows(daemon.digit, old(daemon.Now()), daemon.Now(), Joined(parts))
      invariant AgreesWhileClean(daemon.digit, moments)
      invariant PlainConfig(daemon.config)
      invariant daemon.clean ==> CacheAgrees(daemon.digit, daemon.cache, daemon.remotes)
    {
      ghost var here := daemon.Here();
      ghost var part;
      var ok;
      ok, part := daemon.Perform(operations[n]);
      Associative(old(daemon.transfers), Joined(parts), part);
      FollowsTrans(daemon.digit, old(daemon.Now()), here.mark, daemon.Now(), Joined(parts), part);
      OneMorePerformed(
        daemon.digit, daemon.localDirs, operations, n, results, moments, parts, ok, daemon.Here(), part);
      results, moments, parts := results + [ok], moments + [daemon.Here()], parts + [part];
    }
    assert operations[..|operations|] == operations;
  }

  lemma ListingRowAgrees(digit: char -> bool, listed: seq<string>, dirs: set<string>)
    requires IsListingOf(digit, listed, dirs)
    ensures RowAgrees(digit, StatsOf(listed), dirs)
  {
    forall names | IsListingOf(digit, names, dirs) ensures StatsOf(listed) == StatsOf(names) {
      ListingIsUnique(digit, listed, dirs);
      ListingIsUnique(digit, names, dirs);
    }
  }

  lemma ProbedRowAgrees(
      digit: char -> bool, key: string, projects: map<string, CachedStats>, remotes: Remotes, id: RemoteId,
      name: string, stats: CachedStats)
    requires IsPlain(id) && key == RemoteCacheKey(id)
    requires CacheAgrees(digit, CacheFile(key, projects), remotes)
    requires RowAgrees(digit, stats, Dirs(remotes, (id, name)))
    ensures CacheAgrees(digit, CacheFile(key, projects[name := stats]), remotes)
  {
    forall other, p | IsPlain(other) && RemoteCacheKey(other) == key && p in projects[name := stats]
      ensures RowAgrees(digit, projects[name := stats][p], Dirs(remotes, (other, p)))
    {
      KeyInjective(other, id);
      if p != name {
        assert RowAgrees(digit, CacheFile(key, projects).projects[p], Dirs(remotes, (id, p)));
      }
    }
  }
}
