/**
 * The self-update pipeline: look up, download, verify, swap
 * (crates/backr-core/src/update/mod.rs).
 */
module Update {
  import opened Wrappers
  import opened Swap
  import Release
  import Text

  // ------------------------------------------------------------------
  // Paths
  // ------------------------------------------------------------------

  /** `installed_target_path` below the home directory. */
  function InstalledTarget(home: Path, bin: string): (p: Path)
    ensures IsFilePath(p) && FileName(p) == bin
  {
    if bin == "backr-app" then home + [".local", "share", "backr", "backr-app"] else home + [".local", "bin", bin]
  }

  /** `staging_dir`; the stamp is the process id and the time in nanoseconds. */
  function StagingDir(base: Path, stamp: string): (p: Path)
    ensures |p| == |base| + 1
  {
    base + ["backr-update-" + stamp]
  }

  function ReleaseSwap(home: Path, staging: Path, arch: string, bin: string): BinarySwap {
    BinarySwap(InstalledTarget(home, bin), staging + [Release.AssetName(bin, arch)])
  }

  function ReleaseSwaps(home: Path, staging: Path, arch: string): (swaps: seq<BinarySwap>)
    ensures |swaps| == 3 && WellFormed(swaps)
  {
    [ReleaseSwap(home, staging, arch, "backrd"),
     ReleaseSwap(home, staging, arch, "backr-app"),
     ReleaseSwap(home, staging, arch, "backr")]
  }

  /** The swaps of the first `n` release binaries. */
  function FirstSwaps(home: Path, staging: Path, arch: string, n: nat): seq<BinarySwap>
    requires n <= 3
  {
    if n == 0 then []
    else FirstSwaps(home, staging, arch, n - 1) + [ReleaseSwap(home, staging, arch, Release.RELEASE_BINARIES[n - 1])]
  }

  lemma AllThreeSwaps(home: Path, staging: Path, arch: string)
    ensures FirstSwaps(home, staging, arch, 3) == ReleaseSwaps(home, staging, arch)
  {
    assert FirstSwaps(home, staging, arch, 1) == [ReleaseSwap(home, staging, arch, "backrd")];
    assert FirstSwaps(home, staging, arch, 2) ==
      [ReleaseSwap(home, staging, arch, "backrd"), ReleaseSwap(home, staging, arch, "backr-app")];
  }

  ghost predicate UnchangedOutside(a: Files, b: Files, dir: Path) {
    forall p :: !(dir <= p) ==> SamePath(a, b, p)
  }

  lemma UnchangedTrans(a: Files, b: Files, c: Files, dir: Path)
    requires UnchangedOutside(a, b, dir) && UnchangedOutside(b, c, dir)
    ensures UnchangedOutside(a, c, dir)
  {
    forall p | !(dir <= p) ensures SamePath(a, c, p) {
      assert SamePath(a, b, p) && SamePath(b, c, p);
    }
  }

  lemma StagedChange(a: Files, b: Files, c: Files, dir: Path, name: string)
    requires UnchangedOutside(a, b, dir) && AgreeOutside(b, c, {dir + [name]})
    ensures UnchangedOutside(a, c, dir)
  {
    forall p | !(dir <= p) ensures SamePath(a, c, p) {
      assert dir <= dir + [name];
      assert SamePath(a, b, p) && SamePath(b, c, p);
    }
  }

  /** Every touched path is in the installation directory under a name made from `bin`. */
  lemma TouchedNames(home: Path, bin: string, p: Path)
    requires p in Touched(BinarySwap(InstalledTarget(home, bin), []))
    ensures IsFilePath(p) && Parent(p) == Parent(InstalledTarget(home, bin)) && home <= p
    ensures FileName(p) in {bin, bin + ".bak", "." + bin + ".new"}
  {
    assert home <= Parent(p);
  }

  lemma BinDirectories(home: Path)
    ensures Parent(InstalledTarget(home, "backrd")) == home + [".local", "bin"]
    ensures Parent(InstalledTarget(home, "backr")) == home + [".local", "bin"]
    ensures Parent(InstalledTarget(home, "backr-app")) == home + [".local", "share", "backr"]
    ensures home + [".local", "bin"] != home + [".local", "share", "backr"]
  {
    assert (home + [".local", "bin"])[|home| + 1] == "bin";
  }

  lemma FileNamesDiffer()
    ensures {"backrd", "backrd" + ".bak", "." + "backrd" + ".new"} !!
      {"backr", "backr" + ".bak", "." + "backr" + ".new"}
  {
    assert "." + "backr" + ".new" == ".backr.new" && "." + "backrd" + ".new" == ".backrd.new";
    assert "backr" + ".bak" == "backr.bak" && "backrd" + ".bak" == "backrd.bak";
    assert |"backrd"| == 6 && |"backr"| == 5 && |"backrd.bak"| == 10 && |"backr.bak"| == 9;
    assert |".backrd.new"| == 11 && |".backr.new"| == 10;
    assert "backrd.bak"[0] == 'b' && ".backr.new"[0] == '.';
  }

  lemma TargetsDisjoint(home: Path)
    ensures Touched(BinarySwap(InstalledTarget(home, "backrd"), [])) !!
      Touched(BinarySwap(InstalledTarget(home, "backr"), []))
    ensures Touched(BinarySwap(InstalledTarget(home, "backrd"), [])) !!
      Touched(BinarySwap(InstalledTarget(home, "backr-app"), []))
    ensures Touched(BinarySwap(InstalledTarget(home, "backr-app"), [])) !!
      Touched(BinarySwap(InstalledTarget(home, "backr"), []))
  {
    BinDirectories(home);
    FileNamesDiffer();
    forall p, bin | bin in {"backrd", "backr", "backr-app"} && p in Touched(BinarySwap(InstalledTarget(home, bin), []))
      ensures Parent(p) == Parent(InstalledTarget(home, bin)) && FileName(p) in {bin, bin + ".bak", "." + bin + ".new"}
    {
      TouchedNames(home, bin, p);
    }
  }

  /** No path that a swap touches lies in the staging directory. */
  lemma OutsideStaging(home: Path, base: Path, stamp: string, bin: string, p: Path)
    requires bin in {"backrd", "backr-app", "backr"}
    requires !(StagingDir(base, stamp) <= home)
    requires p in Touched(BinarySwap(InstalledTarget(home, bin), []))
    ensures !(StagingDir(base, stamp) <= p)
  {
    var staging := StagingDir(base, stamp);
    TouchedNames(home, bin, p);
    LongNames(bin, stamp);
    assert staging[|base|] == "backr-update-" + stamp;
    if staging <= p {
      if |staging| <= |home| {
        CommonPrefix(staging, home, p);
      } else {
        DirectoryNames(home, bin, p, |base|);
      }
    }
  }

  lemma CommonPrefix(a: Path, b: Path, p: Path)
    requires a <= p && b <= p && |a| <= |b|
    ensures a <= b
  {
    forall i | 0 <= i < |a| ensures a[i] == b[i] {
      assert a[i] == p[i] && b[i] == p[i];
    }
  }

  /** Below the home directory come only these names, and then the file's. */
  lemma DirectoryNames(home: Path, bin: string, p: Path, i: nat)
    requires IsFilePath(p) && Parent(p) == Parent(InstalledTarget(home, bin))
    requires |home| <= i < |p|
    ensures home <= p && p[i] in {".local", "bin", "share", "backr", FileName(p)}
  {
    assert i < |p| - 1 ==> p[i] == Parent(p)[i];
    assert home <= Parent(p);
  }

  lemma LongNames(bin: string, stamp: string)
    requires bin in {"backrd", "backr-app", "backr"}
    ensures "backr-update-" + stamp !in {bin, bin + ".bak", "." + bin + ".new"}
    ensures "backr-update-" + stamp !in {".local", "bin", "share", "backr"}
  {
    var name := "backr-update-" + stamp;
    assert name[0] == 'b' && name[6] == 'u' && |name| >= 13;
    assert ("." + bin + ".new")[0] == '.';
    if bin == "backr-app" {
      assert ("backr-app" + ".bak")[6] == 'a';
    } else {
      assert |bin + ".bak"| <= 10;
    }
  }

  lemma StagedIsInStaging(home: Path, staging: Path, arch: string, bin: string)
    ensures staging <= ReleaseSwap(home, staging, arch, bin).staged
  {
  }

  lemma StagedNotTouched(home: Path, base: Path, stamp: string, arch: string, bin: string, other: string)
    requires !(StagingDir(base, stamp) <= home) && other in {"backrd", "backr-app", "backr"}
    ensures ReleaseSwap(home, StagingDir(base, stamp), arch, bin).staged
      !in Touched(ReleaseSwap(home, StagingDir(base, stamp), arch, other))
  {
    var staging := StagingDir(base, stamp);
    var p := ReleaseSwap(home, staging, arch, bin).staged;
    StagedIsInStaging(home, staging, arch, bin);
    assert Touched(ReleaseSwap(home, staging, arch, other)) == Touched(BinarySwap(InstalledTarget(home, other), []));
    if p in Touched(ReleaseSwap(home, staging, arch, other)) {
      OutsideStaging(home, base, stamp, other, p);
    }
  }

  /** The three swaps of a release never get in each other's way. */
  lemma ReleaseSwapsDisjoint(home: Path, base: Path, stamp: string, arch: string)
    requires !(StagingDir(base, stamp) <= home)
    ensures Disjoint(ReleaseSwaps(home, StagingDir(base, stamp), arch))
  {
    TargetsDisjoint(home);
    forall bin, other | other in {"backrd", "backr-app", "backr"}
      ensures ReleaseSwap(home, StagingDir(base, stamp), arch, bin).staged
        !in Touched(ReleaseSwap(home, StagingDir(base, stamp), arch, other))
    {
      StagedNotTouched(home, base, stamp, arch, bin, other);
    }
  }

  // ------------------------------------------------------------------
  // The updater
  // ------------------------------------------------------------------

  datatype ApplyOutcome =
    | Updated(from: string, to: string)
    | UpToDate(version: string)
    | BackupInProgress

  /** What is known before anything is downloaded. */
  datatype Decision = Answer(answer: Result<ApplyOutcome, string>) | Go(latest: Release.ReleaseInfo)

  /** The state in which `ApplySwap` was entered, the manifest, and what it returned. */
  datatype Attempt = Attempt(swaps: seq<BinarySwap>, before: Files, manifest: string, result: Outcome, completed: nat)

  /** A release, the files when it was found unfit, and the text of its manifest if that was read. */
  datatype Finding = Finding(latest: Release.ReleaseInfo, files: Files, manifest: string)

  class Updater {
    const host: Host
    // SHA-256, and decoding as UTF-8.
    const digest: Bytes -> Bytes
    const decode: Bytes -> Option<string>
    const arch: string
    const current: string
    const home: Option<Path>

    ghost var busyAnswers: seq<bool>
    ghost var attempt: Option<Attempt>
    // How often the network, or creating a directory, failed; and the release that was found unfit.
    ghost var faults: nat
    ghost var unfit: Option<Finding>
    // What the last look-up answered.
    ghost var found: Option<Release.ReleaseInfo>
    // Where what is in a file was downloaded from.
    ghost var sources: map<Path, string>

    constructor (
      host: Host, digest: Bytes -> Bytes, decode: Bytes -> Option<string>, arch: string, current: string,
      home: Option<Path>)
      ensures this.host == host && this.digest == digest && this.decode == decode
      ensures this.arch == arch && this.current == current && this.home == home
      ensures busyAnswers == [] && attempt == None && faults == 0 && unfit.None? && found.None? && sources == map[]
    {
      this.host, this.digest, this.decode := host, digest, decode;
      this.arch, this.current, this.home := arch, current, home;
      busyAnswers, attempt, faults, unfit, found, sources := [], None, 0, None, None, map[];
    }

    method IsBusy() returns (busy: bool)
      modifies this`busyAnswers
      ensures busyAnswers == old(busyAnswers) + [busy]
    {
      busy := *;
      busyAnswers := busyAnswers + [busy];
    }

    /** Whether something outside the updater works. */
    method Try() returns (ok: bool)
      modifies this`faults
      ensures faults == old(faults) + if ok then 0 else 1
    {
      ok := *;
      faults := faults + if ok then 0 else 1;
    }

    method FetchLatestRelease() returns (latest: Option<Release.ReleaseInfo>)
      modifies this`faults, this`found
      ensures faults == old(faults) + if latest.Some? then 0 else 1
      ensures found == latest
    {
      var ok := Try();
      var release: Release.ReleaseInfo := *;
      latest := if ok then Some(release) else None;
      found := latest;
    }

    /** Writes whatever the server sends; a failed write may leave a part of it. */
    method DownloadToFile(url: string, dest: Path) returns (ok: bool)
      modifies host`files, host`history, this`faults, this`sources
      ensures ok ==> dest in host.files
      ensures AgreeOutside(old(host.files), host.files, {dest})
      ensures sources == old(sources)[dest := url]
      ensures faults == old(faults) + if ok then 0 else 1
    {
      sources := sources[dest := url];
      ok := Try();
      var body: Bytes := *;
      var mode: nat := *;
      var written: bool := *;
      if ok || written {
        host.files := host.files[dest := File(body, mode)];
        host.history := host.history + [host.files];
      }
    }

    /** What is staged as `name` was asked for at the address of the first asset of that name. */
    ghost predicate From(sources: map<Path, string>, latest: Release.ReleaseInfo, staging: Path, name: string) {
      && Release.FindAsset(latest.assets, name).Some? && staging + [name] in sources
      && sources[staging + [name]] == Release.FindAsset(latest.assets, name).value.url
    }

    /** The manifest and the first `n` binaries were. */
    ghost predicate Fetched(sources: map<Path, string>, latest: Release.ReleaseInfo, staging: Path, n: nat)
      requires n <= 3
      decreases n, staging
    {
      if n == 0 then From(sources, latest, staging, Release.CHECKSUM_ASSET)
      else
        && Fetched(sources, latest, staging, n - 1)
        && From(sources, latest, staging, Release.AssetName(Release.RELEASE_BINARIES[n - 1], arch))
    }

    /** Only the source of `name` has changed. */
    ghost predicate SameSources(
        before: map<Path, string>, now: map<Path, string>, staging: Path, name: string)
    {
      forall p :: p != staging + [name] && p in before ==> p in now && now[p] == before[p]
    }

    lemma {:induction false} StillFetched(
        before: map<Path, string>, now: map<Path, string>, latest: Release.ReleaseInfo, staging: Path, n: nat, i: nat)
      requires n <= i < 3 && Fetched(before, latest, staging, n)
      requires SameSources(before, now, staging, Release.AssetName(Release.RELEASE_BINARIES[i], arch))
      ensures Fetched(now, latest, staging, n)
    {
      var name := Release.AssetName(Release.RELEASE_BINARIES[i], arch);
      var earlier := if n == 0 then "" else Release.RELEASE_BINARIES[n - 1];
      var other := if n == 0 then Release.CHECKSUM_ASSET else Release.AssetName(earlier, arch);
      if n > 0 {
        StillFetched(before, now, latest, staging, n - 1, i);
      }
      Release.AssetNamesDiffer(Release.RELEASE_BINARIES[i], earlier, arch);
      assert (staging + [name])[|staging|] != (staging + [other])[|staging|];
    }

    /** `bin` was downloaded to the staging directory and hashes to its manifest entry. */
    ghost predicate Checked(files: Files, staging: Path, sums: map<string, string>, bin: string) {
      var name := Release.AssetName(bin, arch);
      && staging + [name] in files
      && name in sums
      && Release.Verifies(digest, files[staging + [name]].bytes, sums[name])
    }

    /** The manifest in the staging directory reads `text`, and the first `n` binaries are checked by it. */
    ghost predicate AllChecked(files: Files, staging: Path, text: string, n: nat)
      requires n <= 3
      decreases n, text
    {
      if n == 0 then
        && staging + [Release.CHECKSUM_ASSET] in files
        && decode(files[staging + [Release.CHECKSUM_ASSET]].bytes) == Some(text)
      else
        && AllChecked(files, staging, text, n - 1)
        && Checked(files, staging, Release.Sums(Text.TrimmedLines(text)), Release.RELEASE_BINARIES[n - 1])
    }

    /** The release has no such binary, or what was downloaded for it does not hash to an entry of its manifest. */
    ghost predicate Rejects(
        latest: Release.ReleaseInfo, files: Files, staging: Path, sums: map<string, string>, bin: string)
    {
      var name := Release.AssetName(bin, arch);
      || Release.FindAsset(latest.assets, name).None?
      || (staging + [name] in files && !Checked(files, staging, sums, bin))
    }

    /** The release has no readable manifest, or one of its binaries is rejected by it. */
    ghost predicate Unfit(latest: Release.ReleaseInfo, files: Files, staging: Path, text: string) {
      var sumsPath := staging + [Release.CHECKSUM_ASSET];
      || Release.FindAsset(latest.assets, Release.CHECKSUM_ASSET).None?
      || (sumsPath in files && decode(files[sumsPath].bytes).None?)
      || SomeRejected(latest, files, staging, text)
    }

    /** `latest` was found unfit by what was staged of it, nothing installed having changed until then. */
    ghost predicate FoundUnfit(latest: Release.ReleaseInfo, before: Files, staging: Path) reads this {
      && unfit.Some? && unfit.value.latest == latest
      && Unfit(latest, unfit.value.files, staging, unfit.value.manifest)
      && UnchangedOutside(before, unfit.value.files, staging)
    }

    /** One turn of the loop over the release binaries. */
    method StageOne(latest: Release.ReleaseInfo, staging: Path, sums: map<string, string>, bin: string)
      returns (r: Result<BinarySwap, string>)
      modifies host`files, host`history, this`faults, this`sources
      ensures AgreeOutside(old(host.files), host.files, {staging + [Release.AssetName(bin, arch)]})
      ensures r.Ok? ==>
        home.Some? && r.value == ReleaseSwap(home.value, staging, arch, bin) && Checked(host.files, staging, sums, bin)
      ensures r.Ok? ==> From(sources, latest, staging, Release.AssetName(bin, arch))
      ensures SameSources(old(sources), sources, staging, Release.AssetName(bin, arch))
      ensures faults >= old(faults)
      ensures r.Err? ==> faults > old(faults) || home.None? || Rejects(latest, host.files, staging, sums, bin)
    {
      var asset := Release.FindAsset(latest.assets, Release.AssetName(bin, arch));
      if asset.None? {
        return Err("release missing asset");
      }
      var staged := staging + [asset.value.name];
      var ok := DownloadToFile(asset.value.url, staged);
      if !ok {
        return Err("download failed");
      }
      if asset.value.name !in sums {
        return Err("no checksum");
      }
      if !Release.Verifies(digest, host.files[staged].bytes, sums[asset.value.name]) {
        return Err("checksum mismatch");
      }
      if home.None? {
        return Err("could not resolve home directory");
      }
      return Ok(BinarySwap(InstalledTarget(home.value, bin), staged));
    }

    /** The swap is entered with the three release binaries, each hashing to its entry. */
    ghost predicate VerifiedAttempt(latest: Release.ReleaseInfo, staging: Path) reads this {
      && attempt.Some? && home.Some? && Fetched(sources, latest, staging, 3)
      && attempt.value.swaps == ReleaseSwaps(home.value, staging, arch)
      && AllChecked(attempt.value.before, staging, attempt.value.manifest, 3)
    }

    /** Some binary is rejected by the manifest, which is still there. */
    ghost predicate SomeRejected(latest: Release.ReleaseInfo, files: Files, staging: Path, text: string) {
      && AllChecked(files, staging, text, 0)
      && var sums := Release.Sums(Text.TrimmedLines(text));
         exists i :: 0 <= i < 3 && Rejects(latest, files, staging, sums, Release.RELEASE_BINARIES[i])
    }

    /** The next binary, the earlier ones staying checked. */
    method StageNext(latest: Release.ReleaseInfo, staging: Path, text: string, sums: map<string, string>, n: nat)
      returns (r: Result<BinarySwap, string>)
      requires n < 3 && AllChecked(host.files, staging, text, n) && sums == Release.Sums(Text.TrimmedLines(text))
      requires Fetched(sources, latest, staging, n)
      modifies host`files, host`history, this`faults, this`sources
      ensures UnchangedOutside(old(host.files), host.files, staging)
      ensures r.Ok? ==>
        && home.Some? && r.value == ReleaseSwap(home.value, staging, arch, Release.RELEASE_BINARIES[n])
        && AllChecked(host.files, staging, text, n + 1) && Fetched(sources, latest, staging, n + 1)
      ensures faults >= old(faults)
      ensures r.Err? ==> faults > old(faults) || home.None? || SomeRejected(latest, host.files, staging, text)
    {
      ghost var before := host.files;
      var bin := Release.RELEASE_BINARIES[n];
      r := StageOne(latest, staging, sums, bin);
      StagedChange(before, before, host.files, staging, Release.AssetName(bin, arch));
      if r.Err? {
        ManifestReadable(before, staging, text, n);
        ManifestKept(before, host.files, staging, text, bin);
      } else {
        StillChecked(before, host.files, staging, text, n, n);
        StillFetched(old(sources), sources, latest, staging, n, n);
      }
    }

    /** Downloads and verifies every binary, in order. */
    method StageEach(latest: Release.ReleaseInfo, staging: Path, text: string, sums: map<string, string>)
      returns (r: Result<seq<BinarySwap>, string>)
      requires AllChecked(host.files, staging, text, 0) && sums == Release.Sums(Text.TrimmedLines(text))
      requires Fetched(sources, latest, staging, 0)
      modifies host`files, host`history, this`faults, this`sources
      ensures UnchangedOutside(old(host.files), host.files, staging)
      ensures r.Ok? ==>
        && home.Some? && r.value == FirstSwaps(home.value, staging, arch, 3)
        && AllChecked(host.files, staging, text, 3) && Fetched(sources, latest, staging, 3)
      ensures faults >= old(faults)
      ensures r.Err? ==> faults > old(faults) || home.None? || SomeRejected(latest, host.files, staging, text)
    {
      var swaps: seq<BinarySwap> := [];
      for n := 0 to 3
        invariant UnchangedOutside(old(host.files), host.files, staging)
        invariant n > 0 ==> home.Some?
        invariant faults >= old(faults)
        invariant swaps == if n == 0 then [] else FirstSwaps(home.value, staging, arch, n)
        invariant AllChecked(host.files, staging, text, n) && Fetched(sources, latest, staging, n)
      {
        ghost var before := host.files;
        var one := StageNext(latest, staging, text, sums, n);
        UnchangedTrans(old(host.files), before, host.files, staging);
        if one.Err? {
          return Err(one.error);
        }
        swaps := swaps + [one.value];
      }
      return Ok(swaps);
    }

    /** Downloads the manifest and, by it, every binary. */
    method StageAll(latest: Release.ReleaseInfo, staging: Path)
      returns (r: Result<seq<BinarySwap>, string>, ghost manifest: string)
      modifies host`files, host`history, this`faults, this`sources
      ensures UnchangedOutside(old(host.files), host.files, staging)
      ensures r.Ok? ==>
        && home.Some? && r.value == ReleaseSwaps(home.value, staging, arch)
        && AllChecked(host.files, staging, manifest, 3) && Fetched(sources, latest, staging, 3)
      ensures faults >= old(faults)
      ensures r.Err? ==> faults > old(faults) || home.None? || Unfit(latest, host.files, staging, manifest)
    {
      manifest := "";
      var checksum := Release.FindAsset(latest.assets, Release.CHECKSUM_ASSET);
      if checksum.None? {
        return Err("release has no SHA256SUMS asset"), manifest;
      }
      ghost var before := host.files;
      var sumsPath := staging + [Release.CHECKSUM_ASSET];
      var ok := DownloadToFile(checksum.value.url, sumsPath);
      if !ok || decode(host.files[sumsPath].bytes).None? {
        return Err("could not read checksums"), manifest;
      }
      ghost var after := host.files;
      var text := decode(host.files[sumsPath].bytes).value;
      manifest := text;
      var sums := Release.ParseSha256Sums(text);
      r := StageEach(latest, staging, text, sums);
      if r.Ok? {
        AllThreeSwaps(home.value, staging, arch);
      }
      UnchangedTrans(before, after, host.files, staging);
    }

    /** Downloading one binary leaves the others as they were checked. */
    lemma OtherAssetKept(
      before: Files, now: Files, staging: Path, sums: map<string, string>, bin: string, other: string)
      requires bin != other && Checked(before, staging, sums, bin)
      requires AgreeOutside(before, now, {staging + [Release.AssetName(other, arch)]})
      ensures Checked(now, staging, sums, bin)
    {
      Release.AssetNamesDiffer(bin, other, arch);
      var p, q := staging + [Release.AssetName(bin, arch)], staging + [Release.AssetName(other, arch)];
      assert p[|staging|] == Release.AssetName(bin, arch) && q[|staging|] == Release.AssetName(other, arch);
      assert SamePath(before, now, p);
    }

    lemma {:induction false} ManifestReadable(files: Files, staging: Path, text: string, n: nat)
      requires n <= 3 && AllChecked(files, staging, text, n)
      ensures AllChecked(files, staging, text, 0)
    {
      if n > 0 {
        ManifestReadable(files, staging, text, n - 1);
      }
    }

    lemma {:induction false} CheckedAt(files: Files, staging: Path, text: string, n: nat, i: nat)
      requires i < n <= 3 && AllChecked(files, staging, text, n)
      ensures Checked(files, staging, Release.Sums(Text.TrimmedLines(text)), Release.RELEASE_BINARIES[i])
    {
      if i < n - 1 {
        CheckedAt(files, staging, text, n - 1, i);
      }
    }

    /** Downloading a binary leaves the manifest as it was. */
    lemma ManifestKept(before: Files, now: Files, staging: Path, text: string, bin: string)
      requires AllChecked(before, staging, text, 0)
      requires AgreeOutside(before, now, {staging + [Release.AssetName(bin, arch)]})
      ensures AllChecked(now, staging, text, 0)
    {
      Release.AssetNamesDiffer(bin, bin, arch);
      var p, q := staging + [Release.CHECKSUM_ASSET], staging + [Release.AssetName(bin, arch)];
      assert p[|staging|] != q[|staging|];
      assert SamePath(before, now, p);
    }

    /** Downloading a binary leaves the manifest and the earlier binaries as they were. */
    lemma {:induction false} StillChecked(
        before: Files, now: Files, staging: Path, text: string, n: nat, i: nat)
      requires n <= i < 3 && AllChecked(before, staging, text, n)
      requires AgreeOutside(before, now, {staging + [Release.AssetName(Release.RELEASE_BINARIES[i], arch)]})
      ensures AllChecked(now, staging, text, n)
    {
      if n == 0 {
        ManifestKept(before, now, staging, text, Release.RELEASE_BINARIES[i]);
      } else {
        StillChecked(before, now, staging, text, n - 1, i);
        var sums := Release.Sums(Text.TrimmedLines(text));
        OtherAssetKept(before, now, staging, sums, Release.RELEASE_BINARIES[n - 1], Release.RELEASE_BINARIES[i]);
      }
    }

    /** Ok(true) when the swap ran, Ok(false) when a backup had started meanwhile. */
    method StageAndApply(latest: Release.ReleaseInfo, base: Path, stamp: string) returns (r: Result<bool, string>)
      requires home.Some? ==> !(StagingDir(base, stamp) <= home.value)
      requires attempt.None?
      modifies host, this`busyAnswers, this`attempt, this`faults, this`unfit, this`sources
      ensures old(host.undoFailed) ==> host.undoFailed
      ensures attempt.None? ==>
        && UnchangedOutside(old(host.files), host.files, StagingDir(base, stamp))
        && host.trace == old(host.trace)
        && r != Ok(true)
      ensures r == Ok(false) ==> attempt.None? && busyAnswers == old(busyAnswers) + [true]
      ensures r.Err? && attempt.None? ==> busyAnswers == old(busyAnswers)
      ensures attempt.Some? ==>
        && busyAnswers == old(busyAnswers) + [false]
        && VerifiedAttempt(latest, StagingDir(base, stamp))
        && UnchangedOutside(old(host.files), attempt.value.before, StagingDir(base, stamp))
        && (r == Ok(true) <==> attempt.value.result.Applied?)
        && SwapResult(old(host.trace), host.files, host.trace, host.undoFailed, attempt.value)
      ensures faults >= old(faults)
      ensures r.Err? ==>
        || attempt.Some? || faults > old(faults) || home.None?
        || FoundUnfit(latest, old(host.files), StagingDir(base, stamp))
    {
      var staging := StagingDir(base, stamp);
      ghost var manifest;
      var swaps;
      swaps, manifest := StageAll(latest, staging);
      if swaps.Err? {
        unfit :=
          if Unfit(latest, host.files, staging, manifest)
          then Some(Finding(latest, host.files, manifest))
          else unfit;
        return Err(swaps.error);
      }
      var busy := IsBusy();
      if busy {
        return Ok(false);
      }
      ReleaseSwapsDisjoint(home.value, base, stamp, arch);
      ghost var before := host.files;
      var outcome, completed, _ := host.ApplySwap(swaps.value);
      attempt := Some(Attempt(swaps.value, before, manifest, outcome, completed));
      return if outcome.Applied? then Ok(true) else Err("update failed");
    }

    /** Best effort: some of the files below `dir` may stay. */
    method RemoveDirAll(dir: Path)
      modifies host`files, host`history
      ensures UnchangedOutside(old(host.files), host.files, dir)
      ensures forall p :: p in host.files ==> p in old(host.files)
    {
      var all := set p | p in host.files && dir <= p;
      assert {} <= all;
      var doomed :| doomed <= all;
      host.files := host.files - doomed;
      host.history := host.history + [host.files];
    }

    /** No swap was entered: nothing outside the staging directory and no service call. */
    ghost predicate NothingDone(before: Files, trace0: seq<Called>, staging: Path) reads this, host {
      attempt.None? && UnchangedOutside(before, host.files, staging) && host.trace == trace0
    }

    /** The swap was entered with checked binaries, nothing installed having changed until then. */
    ghost predicate Entered(latest: Release.ReleaseInfo, before: Files, staging: Path) reads this {
      VerifiedAttempt(latest, staging) && UnchangedOutside(before, attempt.value.before, staging)
    }

    /** The new binaries are in place and the daemon that runs them is healthy. */
    ghost predicate Succeeded(trace0: seq<Called>) reads this, host {
      attempt.Some? && Installed(host.files, attempt.value) && host.trace == trace0 + HEALTHY
    }

    /** `p` is executable by everybody and hashes to the entry of `name`. */
    ghost predicate HoldsAsset(files: Files, p: Path, sums: map<string, string>, name: string) {
      && p in files && name in sums
      && Release.HexOf(digest(files[p].bytes)) == Release.Lower(Text.Trim(sums[name]))
      && files[p].mode / 0x40 % 2 == 1 && files[p].mode / 8 % 2 == 1 && files[p].mode % 2 == 1
    }

    /**
     * Every program of the release is where its users look for it, by the manifest that
     * was downloaded, and the service was stopped, started and found healthy.
     */
    ghost predicate RunsRelease(staging: Path, trace0: seq<Called>) reads this, host {
      && attempt.Some? && home.Some?
      && staging + ["SHA256SUMS"] in attempt.value.before
      && decode(attempt.value.before[staging + ["SHA256SUMS"]].bytes) == Some(attempt.value.manifest)
      && var sums := Release.Sums(Text.TrimmedLines(attempt.value.manifest));
         && HoldsAsset(host.files, home.value + [".local", "bin", "backrd"], sums, "backrd-linux-" + arch)
         && HoldsAsset(
              host.files, home.value + [".local", "share", "backr", "backr-app"], sums, "backr-app-linux-" + arch)
         && HoldsAsset(host.files, home.value + [".local", "bin", "backr"], sums, "backr-linux-" + arch)
         && host.trace == trace0 + [Called(Stop, true), Called(Start, true), Called(HealthCheck, true)]
    }

    lemma InstalledHolds(a: Attempt, files: Files, staging: Path, sums: map<string, string>, n: nat)
      requires home.Some? && n < 3 && a.swaps == ReleaseSwaps(home.value, staging, arch) && Installed(files, a)
      requires Checked(a.before, staging, sums, Release.RELEASE_BINARIES[n])
      ensures HoldsAsset(files, a.swaps[n].target, sums, Release.AssetName(Release.RELEASE_BINARIES[n], arch))
    {
      var name := Release.AssetName(Release.RELEASE_BINARIES[n], arch);
      assert a.swaps[n].staged == staging + [name];
      Release.VerifiesIff(digest, a.before[staging + [name]].bytes, sums[name]);
    }

    lemma SucceededRuns(latest: Release.ReleaseInfo, staging: Path, trace0: seq<Called>)
      requires VerifiedAttempt(latest, staging) && Succeeded(trace0)
      ensures RunsRelease(staging, trace0)
    {
      var a := attempt.value;
      var sums := Release.Sums(Text.TrimmedLines(a.manifest));
      ManifestReadable(a.before, staging, a.manifest, 3);
      CheckedAt(a.before, staging, a.manifest, 3, 0);
      CheckedAt(a.before, staging, a.manifest, 3, 1);
      CheckedAt(a.before, staging, a.manifest, 3, 2);
      InstalledHolds(a, host.files, staging, sums, 0);
      InstalledHolds(a, host.files, staging, sums, 1);
      InstalledHolds(a, host.files, staging, sums, 2);
      Release.PublishedNames(arch);
    }

    /** If all undo steps worked and every binary was there before, it is there again. */
    ghost predicate FailedSafely(before: Files, staging: Path) reads this, host {
      attempt.Some? && !host.undoFailed && FullyInstalled(before, attempt.value.swaps) ==>
        RestoredOutside(before, host.files, staging, attempt.value.swaps)
    }

    /** An error comes from the swap, the network, a directory, a missing home directory or an unfit release. */
    ghost predicate HasCause(latest: Option<Release.ReleaseInfo>, before: Files, faults0: nat, staging: Path)
      reads this
    {
      || attempt.Some? || faults > faults0 || home.None?
      || (latest.Some? && FoundUnfit(latest.value, before, staging))
    }

    /** The release is newer and runs. */
    ghost predicate UpdatedTo(
        latest: Option<Release.ReleaseInfo>, from: string, to: string, trace0: seq<Called>)
      reads this, host
    {
      && from == current && latest.Some? && to == latest.value.tag
      && !Release.IsCurrent(to, current) && Succeeded(trace0)
    }

    /**
     * What becomes of a release that was looked up while no backup ran: if it is not
     * newer, that is the answer; if it is and nothing outside fails, the swap is entered,
     * unless a backup has begun meanwhile or the release is unfit.
     */
    ghost predicate Resolved(
        latest: Release.ReleaseInfo, r: Result<ApplyOutcome, string>, busy0: seq<bool>, before: Files, staging: Path)
      reads this
    {
      if Release.IsCurrent(latest.tag, current) then r == Ok(UpToDate(current))
      else
        || attempt.Some? || home.None? || busyAnswers == busy0 + [false, true]
        || FoundUnfit(latest, before, staging)
    }

    /** Stages, swaps, and removes the staging directory whatever came of it. */
    method StageApplyAndClean(latest: Release.ReleaseInfo, base: Path, stamp: string) returns (r: Result<bool, string>)
      requires home.Some? ==> !(StagingDir(base, stamp) <= home.value)
      requires attempt.None?
      modifies host, this`busyAnswers, this`attempt, this`faults, this`unfit, this`sources
      ensures old(host.undoFailed) ==> host.undoFailed
      ensures NothingDone(old(host.files), old(host.trace), StagingDir(base, stamp))
        || (busyAnswers == old(busyAnswers) + [false] && Entered(latest, old(host.files), StagingDir(base, stamp)))
      ensures r == Ok(true) ==> Succeeded(old(host.trace))
      ensures r == Ok(false) ==> attempt.None? && busyAnswers == old(busyAnswers) + [true]
      ensures r.Err? && attempt.None? ==> busyAnswers == old(busyAnswers)
      ensures attempt.Some? ==> (r == Ok(true) <==> attempt.value.result.Applied?)
      ensures r.Err? ==> FailedSafely(old(host.files), StagingDir(base, stamp))
      ensures r.Err? ==> HasCause(Some(latest), old(host.files), old(faults), StagingDir(base, stamp))
      ensures faults >= old(faults)
    {
      var staging := StagingDir(base, stamp);
      ghost var before, trace0 := host.files, host.trace;
      r := StageAndApply(latest, base, stamp);
      ghost var reached := host.files;
      RemoveDirAll(staging);
      if attempt.None? {
        UnchangedTrans(before, reached, host.files, staging);
      } else {
        AfterCleanup(before, reached, host.files, home.value, base, stamp, arch, trace0, host.trace,
                     host.undoFailed, attempt.value);
      }
    }

    /**
     * What the answer `r` means, since there were the answers `busy0` to whether a backup
     * runs, `faults0` failures, the files `before` and the service calls `trace0`.
     */
    ghost predicate Reported(
        r: Result<ApplyOutcome, string>, busy0: seq<bool>, faults0: nat, before: Files, trace0: seq<Called>,
        staging: Path)
      reads this, host
    {
      // Nothing was done, or the swap was entered, after two idle answers, with the release that was found.
      && (NothingDone(before, trace0, staging)
          || (busyAnswers == busy0 + [false, false] && found.Some? && Entered(found.value, before, staging)))
      && (r.Ok? && r.value.Updated? ==>
            UpdatedTo(found, r.value.from, r.value.to, trace0) && RunsRelease(staging, trace0))
      && (r.Ok? && r.value.UpToDate? ==>
            && r.value.version == current && attempt.None? && busyAnswers == busy0 + [false]
            && found.Some? && Release.IsCurrent(found.value.tag, current))
      && (r.Ok? && r.value.BackupInProgress? ==>
            attempt.None? && (busyAnswers == busy0 + [true] || busyAnswers == busy0 + [false, true]))
      // Conversely, these are the answers to a backup, to no newer release and to a healthy swap.
      && (busyAnswers == busy0 + [true] ==> r == Ok(BackupInProgress))
      && (faults == faults0 && busyAnswers != busy0 + [true] ==>
            found.Some? && Resolved(found.value, r, busy0, before, staging))
      && (attempt.Some? ==> (r.Ok? <==> attempt.value.result.Applied?))
      && (r.Err? ==> FailedSafely(before, staging) && HasCause(found, before, faults0, staging))
    }

    /** The answers that are given before anything is downloaded. */
    ghost predicate AnsweredAtOnce(r: Result<ApplyOutcome, string>, busy0: seq<bool>, faults0: nat)
      reads this
    {
      || (r == Ok(BackupInProgress) && busyAnswers == busy0 + [true])
      || (r == Ok(UpToDate(current)) && busyAnswers == busy0 + [false]
          && found.Some? && Release.IsCurrent(found.value.tag, current))
      || (r.Err? && busyAnswers == busy0 + [false] && faults > faults0)
    }

    lemma ReportedAtOnce(r: Result<ApplyOutcome, string>, busy0: seq<bool>, faults0: nat, staging: Path)
      requires attempt.None? && AnsweredAtOnce(r, busy0, faults0)
      ensures Reported(r, busy0, faults0, host.files, host.trace, staging)
    {
      TwoAnswers(busy0);
    }

    /** Whether there is anything to do: no backup runs and the latest release is newer. */
    method Decide() returns (d: Decision)
      modifies this`busyAnswers, this`faults, this`found
      ensures d.Go? ==>
        && faults == old(faults) && found == Some(d.latest) && !Release.IsCurrent(d.latest.tag, current)
        && busyAnswers == old(busyAnswers) + [false]
      ensures d.Answer? ==> AnsweredAtOnce(d.answer, old(busyAnswers), old(faults))
    {
      var busy := IsBusy();
      if busy {
        return Answer(Ok(BackupInProgress));
      }
      var latest := FetchLatestRelease();
      if latest.None? {
        return Answer(Err("release lookup failed"));
      }
      Release.NewerIffNotCurrent(latest.value.tag, current);
      if !Release.IsNewer(latest.value.tag, current) {
        return Answer(Ok(UpToDate(current)));
      }
      var created := Try();
      return if created then Go(latest.value) else Answer(Err("could not create staging directory"));
    }

    /** The answer to what came of staging and swapping. */
    function Told(result: Result<bool, string>, latest: Release.ReleaseInfo): Result<ApplyOutcome, string> {
      match result
      case Err(error) => Err(error)
      case Ok(applied) => Ok(if applied then Updated(current, latest.tag) else BackupInProgress)
    }

    lemma ReportedLater(
      result: Result<bool, string>, latest: Release.ReleaseInfo, busy0: seq<bool>, faults0: nat, before: Files,
      trace0: seq<Called>, staging: Path)
      requires found == Some(latest) && !Release.IsCurrent(latest.tag, current)
      requires NothingDone(before, trace0, staging)
        || (busyAnswers == busy0 + [false, false] && Entered(latest, before, staging))
      requires result == Ok(true) ==> Succeeded(trace0)
      requires result == Ok(false) ==> attempt.None? && busyAnswers == busy0 + [false, true]
      requires result.Err? && attempt.None? ==> busyAnswers == busy0 + [false]
      requires attempt.Some? ==> (result == Ok(true) <==> attempt.value.result.Applied?)
      requires result.Err? ==> FailedSafely(before, staging) && HasCause(Some(latest), before, faults0, staging)
      ensures Reported(Told(result, latest), busy0, faults0, before, trace0, staging)
    {
      TwoAnswers(busy0);
      if result == Ok(true) {
        SucceededRuns(latest, staging, trace0);
      }
    }

    /** `apply_update`, with the staging directory that it will create. */
    method ApplyUpdate(base: Path, stamp: string) returns (r: Result<ApplyOutcome, string>)
      requires home.Some? ==> !(StagingDir(base, stamp) <= home.value)
      requires attempt.None?
      modifies host, this`busyAnswers, this`attempt, this`faults, this`unfit, this`found, this`sources
      ensures old(host.undoFailed) ==> host.undoFailed
      ensures Reported(
        r, old(busyAnswers), old(faults), old(host.files), old(host.trace), StagingDir(base, stamp))
    {
      var decision := Decide();
      match decision
      case Answer(answer) =>
        ReportedAtOnce(answer, old(busyAnswers), old(faults), StagingDir(base, stamp));
        return answer;
      case Go(latest) =>
        var result := StageApplyAndClean(latest, base, stamp);
        TwoAnswers(old(busyAnswers));
        ReportedLater(
          result, latest, old(busyAnswers), old(faults), old(host.files), old(host.trace), StagingDir(base, stamp));
        r := Told(result, latest);
    }
  }

  // ------------------------------------------------------------------
  // What an attempt leaves behind
  // ------------------------------------------------------------------

  lemma TwoAnswers(earlier: seq<bool>)
    ensures earlier + [false] + [false] == earlier + [false, false]
    ensures earlier + [false] + [true] == earlier + [false, true]
    ensures earlier + [false] != earlier + [true]
    ensures earlier + [false, false] != earlier + [true] && earlier + [false, true] != earlier + [true]
    ensures earlier + [false, false] != earlier + [false, true]
  {
    assert (earlier + [false])[|earlier|] != (earlier + [true])[|earlier|];
    assert (earlier + [false, false])[|earlier| + 1] != (earlier + [false, true])[|earlier| + 1];
    assert |earlier + [true]| < |earlier + [false, false]| == |earlier + [false, true]|;
  }

  /** The part of the contract of `ApplySwap` that the pipeline relies on. */
  ghost predicate SwapResult(trace0: seq<Called>, files: Files, trace: seq<Called>, undoFailed: bool, a: Attempt) {
    && WellFormed(a.swaps)
    && (a.result.Refused? || a.completed <= |a.swaps|)
    && AgreeOutside(a.before, files, AllTouched(a.swaps))
    && (a.result.Applied? ==>
          && trace == trace0 + HEALTHY
          && forall i :: 0 <= i < |a.swaps| ==>
               a.swaps[i].staged in a.before && At(files, a.swaps[i].target) == NewBinary(a.before, a.swaps[i]))
    && (a.result.Refused? ==> files == a.before)
    && (a.result.RolledBack? && !undoFailed ==> AllReverted(a.before, files, a.swaps, a.completed))
  }

  /** Every target holds, executable, what was staged and checked for it. */
  ghost predicate Installed(files: Files, a: Attempt) {
    forall i :: 0 <= i < |a.swaps| ==>
      && a.swaps[i].staged in a.before
      && At(files, a.swaps[i].target) == Some(File(a.before[a.swaps[i].staged].bytes, EXECUTABLE))
  }

  /** Every binary is there and no backup of one is left over. */
  ghost predicate FullyInstalled(files: Files, swaps: seq<BinarySwap>) {
    WellFormed(swaps) && forall i :: 0 <= i < |swaps| ==> swaps[i].target in files && BakPath(swaps[i].target) !in files
  }

  ghost predicate RestoredOutside(a: Files, b: Files, staging: Path, swaps: seq<BinarySwap>) {
    WellFormed(swaps) && forall p :: !(staging <= p) && p !in AllTmp(swaps) ==> SamePath(a, b, p)
  }

  /** Removing the staging directory takes no installed file with it. */
  lemma AfterCleanup(
      before: Files, reached: Files, now: Files, home: Path, base: Path, stamp: string, arch: string,
      trace0: seq<Called>, trace: seq<Called>, undoFailed: bool, a: Attempt)
    requires !(StagingDir(base, stamp) <= home)
    requires a.swaps == ReleaseSwaps(home, StagingDir(base, stamp), arch)
    requires UnchangedOutside(before, a.before, StagingDir(base, stamp))
    requires SwapResult(trace0, reached, trace, undoFailed, a)
    requires UnchangedOutside(reached, now, StagingDir(base, stamp))
    ensures a.result.Applied? ==> Installed(now, a)
    ensures !a.result.Applied? && !undoFailed && FullyInstalled(before, a.swaps) ==>
      RestoredOutside(before, now, StagingDir(base, stamp), a.swaps)
  {
    var staging := StagingDir(base, stamp);
    forall i, p | 0 <= i < 3 && p in Touched(a.swaps[i])
      ensures SamePath(before, a.before, p) && SamePath(reached, now, p)
    {
      var bin := FileName(a.swaps[i].target);
      assert Touched(a.swaps[i]) == Touched(BinarySwap(InstalledTarget(home, bin), []));
      OutsideStaging(home, base, stamp, bin, p);
    }
    forall i | 0 <= i < 3
      ensures SamePath(before, a.before, a.swaps[i].target) && SamePath(before, a.before, BakPath(a.swaps[i].target))
      ensures SamePath(reached, now, a.swaps[i].target)
    {
      assert a.swaps[i].target in Touched(a.swaps[i]) && BakPath(a.swaps[i].target) in Touched(a.swaps[i]);
    }
    if !a.result.Applied? && !undoFailed && FullyInstalled(before, a.swaps) {
      if a.result.RolledBack? {
        RollbackLeavesOnlyTemporaries(a.before, reached, a.swaps, a.completed);
      }
      forall p | !(staging <= p) && p !in AllTmp(a.swaps) ensures SamePath(before, now, p) {
        assert SamePath(before, a.before, p) && SamePath(a.before, reached, p) && SamePath(reached, now, p);
      }
    }
  }
}
