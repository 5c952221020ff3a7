/**
 * Remote paths: validation at the command boundary and lexical resolution
 * (crates/backr-core/src/backup/validate.rs, crates/backr-core/src/backup/ssh.rs,
 * crates/backrd/src/ipc/handlers.rs).
 */
module Paths {
  import opened Wrappers
  import opened Text

  // ------------------------------------------------------------------
  // Validation
  // ------------------------------------------------------------------

  /** `validate_remote_component`. */
  predicate ValidComponent(name: string) {
    && name != "" && name != "." && name != ".."
    && '/' !in name && '\\' !in name && '\0' !in name && '\n' !in name
  }

  /** `validate_relative_path`. */
  predicate ValidRelativePath(path: string) {
    && path != "" && path[0] != '/'
    && '\0' !in path && '\n' !in path
    && ".." !in Split(path, '/')
  }

  predicate ContainsDotDot(s: string) {
    exists i :: 0 <= i < |s| - 1 && s[i] == '.' && s[i + 1] == '.'
  }

  // ------------------------------------------------------------------
  // Joining
  // ------------------------------------------------------------------

  function TrimEndSlashes(s: string): string {
    if s != "" && s[|s| - 1] == '/' then TrimEndSlashes(s[..|s| - 1]) else s
  }

  function TrimStartSlashes(s: string): string {
    if s != "" && s[0] == '/' then TrimStartSlashes(s[1..]) else s
  }

  function RemotePathJoin(base: string, child: string): string {
    if child == "" || child == "." then TrimEndSlashes(base)
    else TrimEndSlashes(base) + "/" + TrimStartSlashes(child)
  }

  /** `remote_path_join` nested as the listing and reading commands nest it. */
  function SnapshotRoot(root: string, project: string, snapshot: string): string {
    RemotePathJoin(RemotePathJoin(RemotePathJoin(root, project), snapshot), "")
  }

  // ------------------------------------------------------------------
  // Lexical resolution
  // ------------------------------------------------------------------

  function Step(stack: seq<string>, segment: string): seq<string> {
    if segment == "" || segment == "." then stack
    else if segment == ".." then if stack == [] then [] else stack[..|stack| - 1]
    else stack + [segment]
  }

  function Walk(stack: seq<string>, segments: seq<string>): seq<string>
    decreases |segments|
  {
    if segments == [] then stack else Walk(Step(stack, segments[0]), segments[1..])
  }

  /** The directory a path names, as its components below the file-system root. */
  function Resolve(path: string): seq<string> {
    Walk([], Split(path, '/'))
  }

  function NonTrivial(segments: seq<string>): seq<string> {
    if segments == [] then []
    else (if segments[0] == "" || segments[0] == "." then [] else [segments[0]]) + NonTrivial(segments[1..])
  }

  lemma {:induction false} WalkConcat(stack: seq<string>, a: seq<string>, b: seq<string>)
    ensures Walk(stack, a + b) == Walk(Walk(stack, a), b)
    decreases |a|
  {
    if a == [] {
      assert a + b == b;
    } else {
      assert (a + b)[1..] == a[1..] + b;
      WalkConcat(Step(stack, a[0]), a[1..], b);
    }
  }

  lemma {:induction false} WalkWithoutDotDot(stack: seq<string>, segments: seq<string>)
    requires ".." !in segments
    ensures Walk(stack, segments) == stack + NonTrivial(segments)
    decreases |segments|
  {
    if segments != [] {
      assert segments[0] in segments;
      WalkWithoutDotDot(Step(stack, segments[0]), segments[1..]);
    }
  }

  lemma {:induction false} TrailingSlashesResolveAway(s: string)
    ensures Resolve(TrimEndSlashes(s)) == Resolve(s)
  {
    if s != "" && s[|s| - 1] == '/' {
      var t := s[..|s| - 1];
      TrailingSlashesResolveAway(t);
      assert s == t + ['/'] + "";
      SplitAtSeparator(t, '/', "");
      WalkConcat([], Split(t, '/'), [""]);
      assert Walk(Resolve(t), [""]) == Walk(Resolve(t), [""][1..]) == Resolve(t);
    }
  }

  lemma {:induction false} LeadingSlashesResolveAway(stack: seq<string>, s: string)
    ensures Walk(stack, Split(TrimStartSlashes(s), '/')) == Walk(stack, Split(s, '/'))
  {
    if s != "" && s[0] == '/' {
      LeadingSlashesResolveAway(stack, s[1..]);
      assert Split(s, '/')[1..] == Split(s[1..], '/');
    }
  }

  /** Joining walks on from where the base leads, whatever slashes are in surplus. */
  lemma JoinResolves(base: string, child: string)
    ensures Resolve(RemotePathJoin(base, child)) == Walk(Resolve(base), Split(child, '/'))
  {
    TrailingSlashesResolveAway(base);
    if child == "" || child == "." {
      SplitWithoutSeparator(child, '/');
      assert Walk(Resolve(base), [child]) == Walk(Resolve(base), [child][1..]) == Resolve(base);
    } else {
      var b, c := TrimEndSlashes(base), TrimStartSlashes(child);
      assert b + "/" + c == b + ['/'] + c;
      SplitAtSeparator(b, '/', c);
      WalkConcat([], Split(b, '/'), Split(c, '/'));
      LeadingSlashesResolveAway(Resolve(base), child);
    }
  }

  lemma ComponentResolves(base: string, name: string)
    requires ValidComponent(name)
    ensures Resolve(RemotePathJoin(base, name)) == Resolve(base) + [name]
  {
    JoinResolves(base, name);
    SplitWithoutSeparator(name, '/');
    assert Walk(Resolve(base), [name]) == Walk(Resolve(base) + [name], [name][1..]);
  }

  lemma SnapshotRootResolves(root: string, project: string, snapshot: string)
    requires ValidComponent(project) && ValidComponent(snapshot)
    ensures Resolve(SnapshotRoot(root, project, snapshot)) == Resolve(root) + [project, snapshot]
  {
    var dir := RemotePathJoin(root, project);
    ComponentResolves(root, project);
    ComponentResolves(dir, snapshot);
    TrailingSlashesResolveAway(RemotePathJoin(dir, snapshot));
    assert Resolve(root) + [project] + [snapshot] == Resolve(root) + [project, snapshot];
  }

  /** An accepted path always lands inside its snapshot, on the segments it names. */
  lemma RelativePathResolves(root: string, project: string, snapshot: string, path: string)
    requires ValidComponent(project) && ValidComponent(snapshot) && ValidRelativePath(path)
    ensures Resolve(RemotePathJoin(SnapshotRoot(root, project, snapshot), path)) ==
      Resolve(root) + [project, snapshot] + NonTrivial(Split(path, '/'))
  {
    SnapshotRootResolves(root, project, snapshot);
    JoinResolves(SnapshotRoot(root, project, snapshot), path);
    WalkWithoutDotDot(Resolve(root) + [project, snapshot], Split(path, '/'));
  }

  predicate IsAbsolute(path: string) {
    path != "" && path[0] == '/'
  }

  lemma {:induction false} TrimEndSlashesPrefix(s: string)
    ensures TrimEndSlashes(s) <= s
    ensures TrimEndSlashes(s) == "" <==> forall i :: 0 <= i < |s| ==> s[i] == '/'
  {
    if s != "" && s[|s| - 1] == '/' {
      TrimEndSlashesPrefix(s[..|s| - 1]);
    }
  }

  /** Below an absolute root every remote path is absolute. */
  lemma SnapshotRootIsAbsolute(root: string, project: string, snapshot: string, path: string)
    requires IsAbsolute(root) && ValidComponent(project) && ValidComponent(snapshot)
    ensures IsAbsolute(SnapshotRoot(root, project, snapshot))
    ensures IsAbsolute(RemotePathJoin(SnapshotRoot(root, project, snapshot), path))
  {
    var dir := RemotePathJoin(root, project);
    var inner := RemotePathJoin(dir, snapshot);
    AbsoluteJoin(root, project);
    AbsoluteJoin(dir, snapshot);
    assert project[0] in project && snapshot[0] in snapshot;
    TrimEndSlashesPrefix(inner);
    assert inner[|TrimEndSlashes(dir)| + 1] == snapshot[0];
    var here := SnapshotRoot(root, project, snapshot);
    TrimEndSlashesPrefix(here);
    assert here[|here| - 1] != '/' by {
      TrimmedEnd(inner);
    }
  }

  lemma {:induction false} TrimmedEnd(s: string)
    ensures TrimEndSlashes(s) == "" || TrimEndSlashes(s)[|TrimEndSlashes(s)| - 1] != '/'
  {
    if s != "" && s[|s| - 1] == '/' {
      TrimmedEnd(s[..|s| - 1]);
    }
  }

  lemma AbsoluteJoin(base: string, name: string)
    requires IsAbsolute(base) && ValidComponent(name)
    ensures IsAbsolute(RemotePathJoin(base, name))
    ensures RemotePathJoin(base, name) == TrimEndSlashes(base) + "/" + name
  {
    assert name[0] in name;
    TrimEndSlashesPrefix(base);
  }

  // ------------------------------------------------------------------
  // The commands
  // ------------------------------------------------------------------

  function Normalized(path: string): string {
    TrimStartSlashes(Trim(path))
  }

  /** The directory `list_files` scans. */
  function ListPath(root: string, project: string, snapshot: string, path: string): Result<string, string> {
    if !ValidComponent(project) || !ValidComponent(snapshot) then Err("component")
    else if path == "" || path == "." then Ok(SnapshotRoot(root, project, snapshot))
    else if !ValidRelativePath(Normalized(path)) then Err("path")
    else Ok(RemotePathJoin(SnapshotRoot(root, project, snapshot), Normalized(path)))
  }

  /** The file `read_snapshot_file` reads; its snapshot name has been checked before. */
  function ReadPath(root: string, project: string, snapshot: string, path: string): Result<string, string> {
    if !ValidComponent(project) || !ValidComponent(snapshot) then Err("component")
    else if !ValidRelativePath(Normalized(path)) then Err("path")
    else
      var rel := Normalized(Normalized(path));
      if rel == "" then Err("empty file path")
      else if ContainsDotDot(rel) || '\0' in rel || '\n' in rel then Err("invalid relative path")
      else Ok(RemotePathJoin(SnapshotRoot(root, project, snapshot), rel))
  }

  lemma ListPathResolves(root: string, project: string, snapshot: string, path: string)
    requires ListPath(root, project, snapshot, path).Ok?
    ensures Resolve(ListPath(root, project, snapshot, path).value) ==
      Resolve(root) + [project, snapshot] + NonTrivial(Split(Normalized(path), '/'))
  {
    if path == "" || path == "." {
      SnapshotRootResolves(root, project, snapshot);
      assert IsTrimmed(path);
      TrimOfTrimmed(path);
      SplitWithoutSeparator(path, '/');
      assert NonTrivial([path]) == NonTrivial([path][1..]) == [];
    } else {
      RelativePathResolves(root, project, snapshot, Normalized(path));
    }
  }

  lemma {:induction false} TrimStartSlashesChars(s: string)
    ensures TrimStartSlashes(s) == "" || TrimStartSlashes(s)[0] != '/'
    ensures forall c :: c in TrimStartSlashes(s) ==> c in s
  {
    if s != "" && s[0] == '/' {
      TrimStartSlashesChars(s[1..]);
    }
  }

  lemma {:induction false} PartOccurs(s: string, sep: char, i: nat) returns (before: string, after: string)
    requires i < |Split(s, sep)|
    ensures s == before + Split(s, sep)[i] + after
    ensures i == 0 ==> before == ""
  {
    before, after := "", "";
    if s != "" {
      if s[0] == sep {
        if i > 0 {
          before, after := PartOccurs(s[1..], sep, i - 1);
          before := [sep] + before;
        } else {
          after := s;
        }
      } else {
        before, after := PartOccurs(s[1..], sep, i);
        before := if i == 0 then "" else [s[0]] + before;
      }
    }
  }

  /** A segment ".." shows up as two adjacent dots. */
  lemma DotDotSegment(s: string)
    requires ".." in Split(s, '/')
    ensures ContainsDotDot(s)
  {
    var i :| 0 <= i < |Split(s, '/')| && Split(s, '/')[i] == "..";
    var before, after := PartOccurs(s, '/', i);
    assert s[|before|] == '.' && s[|before| + 1] == '.';
  }

  lemma ReadPathResolves(root: string, project: string, snapshot: string, path: string)
    requires ReadPath(root, project, snapshot, path).Ok?
    ensures Resolve(ReadPath(root, project, snapshot, path).value) ==
      Resolve(root) + [project, snapshot] + NonTrivial(Split(Normalized(Normalized(path)), '/'))
  {
    var rel := Normalized(Normalized(path));
    if ".." in Split(rel, '/') {
      DotDotSegment(rel);
      assert false;
    }
    TrimStartSlashesChars(Trim(Normalized(path)));
    RelativePathResolves(root, project, snapshot, rel);
  }

  /** A name of a file or folder, as file systems allow it. */
  predicate IsFileName(name: string) {
    name != "" && name != "." && name != ".." && '/' !in name && '\0' !in name
  }

  lemma {:induction false} JoinedChars(names: seq<string>, c: char)
    requires c != '/' && forall i :: 0 <= i < |names| ==> c !in names[i]
    ensures c !in Join(names, "/")
  {
    if |names| > 1 {
      JoinedChars(names[1..], c);
    }
  }

  lemma {:induction false} NonTrivialOfNames(names: seq<string>)
    requires forall i :: 0 <= i < |names| ==> IsFileName(names[i])
    ensures NonTrivial(names) == names
  {
    if names != [] {
      NonTrivialOfNames(names[1..]);
      assert [names[0]] + names[1..] == names;
    }
  }

  lemma {:induction false} JoinedEnds(names: seq<string>)
    requires names != [] && forall i :: 0 <= i < |names| ==> names[i] != ""
    ensures names[0] != "" && [names[0][0]] <= Join(names, "/")
  {
    if |names| > 1 {
      JoinedEnds(names[1..]);
    }
  }

  /**
   * Every file of a snapshot can be listed and read by its path: whatever file names
   * without a newline are joined, if no white space is around the path, is accepted
   * and leads to that file. Reading it takes that no name has two adjacent dots.
   */
  lemma FilesAreFound(root: string, project: string, snapshot: string, names: seq<string>)
    requires ValidComponent(project) && ValidComponent(snapshot)
    requires names != [] && forall i :: 0 <= i < |names| ==> IsFileName(names[i]) && '\n' !in names[i]
    requires IsTrimmed(Join(names, "/"))
    ensures var path := Join(names, "/");
      && ListPath(root, project, snapshot, path).Ok?
      && Resolve(ListPath(root, project, snapshot, path).value) == Resolve(root) + [project, snapshot] + names
      && (ReadPath(root, project, snapshot, path).Ok? <==> !ContainsDotDot(path))
      && (!ContainsDotDot(path) ==>
            Resolve(ReadPath(root, project, snapshot, path).value) == Resolve(root) + [project, snapshot] + names)
  {
    var path := Join(names, "/");
    JoinedEnds(names);
    TrimOfTrimmed(path);
    assert names[0][0] in names[0];
    assert Normalized(path) == path;
    SplitJoin(names, '/');
    JoinedChars(names, '\0');
    JoinedChars(names, '\n');
    NonTrivialOfNames(names);
    assert ValidRelativePath(path);
    ListPathResolves(root, project, snapshot, path);
    if !ContainsDotDot(path) {
      ReadPathResolves(root, project, snapshot, path);
    }
  }

  /** The snapshot itself is listed for no path and for ".". */
  lemma RootIsFound(root: string, project: string, snapshot: string, path: string)
    requires ValidComponent(project) && ValidComponent(snapshot) && path in {"", "."}
    ensures ListPath(root, project, snapshot, path).Ok?
    ensures Resolve(ListPath(root, project, snapshot, path).value) == Resolve(root) + [project, snapshot]
  {
    SnapshotRootResolves(root, project, snapshot);
  }

  /** Else, a path is refused exactly if it has nothing but slashes, or a NUL, a newline or a segment "..". */
  lemma ListRefusesIff(root: string, project: string, snapshot: string, path: string)
    requires ValidComponent(project) && ValidComponent(snapshot) && path !in {"", "."}
    ensures ListPath(root, project, snapshot, path).Err? <==>
      || (forall c :: c in Trim(path) ==> c == '/') || '\0' in Trim(path) || '\n' in Trim(path)
      || ".." in Split(Normalized(path), '/')
  {
    assert ListPath(root, project, snapshot, path).Err? <==> !ValidRelativePath(Normalized(path));
    var once := Normalized(path);
    TrimStartSlashesChars(Trim(path));
    var d := TrimStartSlashesDrops(Trim(path));
    assert forall c :: c in Trim(path) <==> c in d || c in once;
    assert once != "" ==> once[0] in once;
  }

  // ------------------------------------------------------------------
  // Where the two commands differ
  // ------------------------------------------------------------------

  lemma {:induction false} TrimStartSlashesDrops(s: string) returns (d: string)
    ensures s == d + TrimStartSlashes(s) && forall c :: c in d ==> c == '/'
  {
    d := "";
    if s != "" && s[0] == '/' {
      d := TrimStartSlashesDrops(s[1..]);
      d := [s[0]] + d;
    }
  }

  /** Only white space and slashes. */
  predicate IsPadding(s: string) {
    forall c :: c in s ==> IsWhitespace(c) || c == '/'
  }

  /** Normalizing drops white space and slashes before a path, and white space after it. */
  lemma NormalizedDrops(path: string) returns (before: string, after: string)
    ensures path == before + Normalized(path) + after && IsPadding(before) && AllWhitespace(after)
  {
    var w, after0 := TrimDrops(path);
    var d := TrimStartSlashesDrops(Trim(path));
    before, after := w + d, after0;
    assert forall c :: c in w ==> IsWhitespace(c);
    Regrouped(w, d, Normalized(path), after);
  }

  lemma Regrouped(a: string, b: string, c: string, d: string)
    ensures a + (b + c) + d == a + b + c + d
  {
  }

  lemma DotsBetween(before: string, s: string, after: string)
    requires '.' !in before && '.' !in after
    ensures ContainsDotDot(before + s + after) <==> ContainsDotDot(s)
  {
    var whole := before + s + after;
    if i :| 0 <= i < |s| - 1 && s[i] == '.' && s[i + 1] == '.' {
      assert whole[|before| + i] == '.' && whole[|before| + i + 1] == '.';
    }
    assert forall i :: 0 <= i < |before| ==> whole[i] == before[i] && before[i] in before;
    assert forall i :: 0 <= i < |after| ==> whole[|before| + |s| + i] == after[i] && after[i] in after;
    assert forall i :: |before| + |s| <= i < |whole| ==> whole[i] == after[i - |before| - |s|];
    if i :| 0 <= i < |whole| - 1 && whole[i] == '.' && whole[i + 1] == '.' {
      assert s[i - |before|] == '.' && s[i + 1 - |before|] == '.';
    }
  }

  lemma NormalizedDots(path: string)
    ensures ContainsDotDot(Normalized(path)) <==> ContainsDotDot(path)
  {
    var before, after := NormalizedDrops(path);
    DotsBetween(before, Normalized(path), after);
  }

  lemma NormalizedChars(path: string)
    ensures forall c :: c in Normalized(path) ==> c in path
  {
    TrimIsTrimmed(path);
    TrimStartSlashesChars(Trim(path));
  }

  /**
   * Reading normalizes and checks once more. Of the paths that listing accepts it
   * refuses exactly those with two adjacent dots, such as "a..b", and those of
   * which nothing remains, such as "" and "/ /".
   */
  lemma ReadRefusesIff(root: string, project: string, snapshot: string, path: string)
    requires ListPath(root, project, snapshot, path).Ok?
    ensures ReadPath(root, project, snapshot, path).Err? <==>
      ContainsDotDot(path) || Normalized(Normalized(path)) == ""
  {
    var once := Normalized(path);
    NormalizedDots(path);
    NormalizedDots(once);
    NormalizedChars(once);
    if path == "" || path == "." {
      TrimOfTrimmed(path);
      assert Split(".", '/') == ["."] by {
        SplitWithoutSeparator(".", '/');
      }
      assert once == path && Normalized(once) == path;
    }
  }

  function Size(segments: seq<string>): nat {
    if segments == [] then 0 else |segments[0]| + Size(segments[1..])
  }

  /** How many characters a path has in the segments it names. */
  function Weight(path: string): nat {
    Size(NonTrivial(Split(path, '/')))
  }

  lemma SizeOfMore(first: string, rest: seq<string>)
    ensures Size(NonTrivial([first] + rest)) ==
      (if first == "" || first == "." then 0 else |first|) + Size(NonTrivial(rest))
  {
    var more := NonTrivial(rest);
    assert ([first] + rest)[1..] == rest && [] + more == more;
    assert ([first] + more)[1..] == more;
  }

  lemma WeightAfterSlash(s: string)
    ensures Weight(['/'] + s) == Weight(s)
  {
    assert (['/'] + s)[1..] == s;
    SizeOfMore("", Split(s, '/'));
  }

  lemma WeightOfMore(c: char, s: string)
    requires c != '.' && c != '/'
    ensures Weight([c] + s) > Weight(s)
  {
    var parts := Split(s, '/');
    assert ([c] + s)[1..] == s;
    assert parts == [parts[0]] + parts[1..];
    SizeOfMore(parts[0], parts[1..]);
    SizeOfMore([c] + parts[0], parts[1..]);
    assert ([c] + parts[0])[0] == c;
  }

  lemma WeightAfterPadding(c: char, s: string)
    requires IsWhitespace(c) || c == '/'
    ensures Weight([c] + s) >= Weight(s) + if c == '/' then 0 else 1
  {
    if c == '/' {
      WeightAfterSlash(s);
    } else {
      WeightOfMore(c, s);
    }
  }

  /** What grows with each character of padding but slashes grows with padding. */
  lemma {:induction false} GrowsWithPadding(weight: string -> nat, d: string, s: string)
    requires forall c, t :: IsWhitespace(c) || c == '/' ==> weight([c] + t) >= weight(t) + if c == '/' then 0 else 1
    requires IsPadding(d)
    ensures weight(d + s) >= weight(s)
    ensures d != "" && IsWhitespace(d[0]) ==> weight(d + s) > weight(s)
  {
    if d == "" {
      assert d + s == s;
    } else {
      var c, rest := d[0], d[1..];
      assert c in d && forall x :: x in rest ==> x in d;
      GrowsWithPadding(weight, rest, s);
      assert d + s == [c] + (rest + s);
    }
  }

  lemma WeightOfPadding(d: string, s: string)
    requires IsPadding(d)
    ensures Weight(d + s) >= Weight(s)
    ensures d != "" && IsWhitespace(d[0]) ==> Weight(d + s) > Weight(s)
  {
    forall c, t | IsWhitespace(c) || c == '/'
      ensures Weight([c] + t) >= Weight(t) + if c == '/' then 0 else 1
    {
      WeightAfterPadding(c, t);
    }
    GrowsWithPadding(Weight, d, s);
  }

  /** The end of a normalized path is not white space. */
  lemma NormalizedEnd(path: string)
    ensures Normalized(path) != "" ==> !IsWhitespace(Normalized(path)[|Normalized(path)| - 1])
  {
    TrimIsTrimmed(path);
    var d := TrimStartSlashesDrops(Trim(path));
  }

  lemma NormalizedIsShorter(path: string)
    requires path != "" && IsWhitespace(path[0])
    ensures |Normalized(path)| < |path|
  {
    var w := TrimStartDrops(path[1..]);
    var v := TrimEndDrops(TrimStart(path));
    var d := TrimStartSlashesDrops(Trim(path));
    assert |TrimStart(path)| <= |path[1..]|;
  }

  lemma LastOfConcat(s: string, front: string, after: string)
    requires s == front + after && AllWhitespace(after)
    ensures after != "" ==> IsWhitespace(s[|s| - 1])
  {
    assert after != "" ==> s[|s| - 1] == after[|after| - 1];
  }

  /** A second normalization changes a path exactly if white space comes after its leading slashes. */
  lemma NormalizedTwice(path: string)
    requires Normalized(path) != ""
    ensures var once := Normalized(path);
      if IsWhitespace(once[0]) then Weight(Normalized(once)) < Weight(once) else Normalized(once) == once
  {
    var once := Normalized(path);
    NormalizedEnd(path);
    if IsWhitespace(once[0]) {
      var before, after := NormalizedDrops(once);
      LastOfConcat(once, before + Normalized(once), after);
      assert once == before + Normalized(once);
      NormalizedIsShorter(once);
      assert before[0] == once[0];
      WeightOfPadding(before, Normalized(once));
    } else {
      TrimOfTrimmed(once);
      TrimStartSlashesChars(Trim(path));
    }
  }

  /**
   * Where both commands accept a path, they go to the same place exactly if its
   * leading slashes are not followed by white space: for "/ a" listing looks at
   * " a" and reading at "a".
   */
  lemma SamePlaceIff(root: string, project: string, snapshot: string, path: string)
    requires ListPath(root, project, snapshot, path).Ok? && ReadPath(root, project, snapshot, path).Ok?
    ensures Normalized(path) != ""
    ensures Resolve(ListPath(root, project, snapshot, path).value) ==
      Resolve(ReadPath(root, project, snapshot, path).value)
      <==> !IsWhitespace(Normalized(path)[0])
  {
    var once := Normalized(path);
    ListPathResolves(root, project, snapshot, path);
    ReadPathResolves(root, project, snapshot, path);
    NormalizedTwice(path);
    var inside := Resolve(root) + [project, snapshot];
    var x, y := NonTrivial(Split(once, '/')), NonTrivial(Split(Normalized(once), '/'));
    assert inside + x == inside + y ==> x == y by {
      assert x == (inside + x)[|inside|..] && y == (inside + y)[|inside|..];
    }
  }
}
