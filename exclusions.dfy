/**
 * The exclusion list of the directory copier (temp.py): how the user's
 * entries are normalised (`_process_exclude_list`) and how an entry
 * decides that a subdirectory is pruned from the walk that sizes the
 * tree (`_get_directory_size`).
 */
module Exclusions {
  import opened Optional
  import opened PosixPath

  // ---------------------------------------------------------------------------
  // _process_exclude_list
  // ---------------------------------------------------------------------------

  /**
   * What `_process_exclude_list` makes of one entry (temp.py:76-94): the
   * stripped entry when it is relative; for an absolute entry its path
   * relative to the source directory, unless that path starts with `..`;
   * nothing for an entry that is empty after stripping.
   */
  function ProcessExclude(exclude: string, sourceDir: string, cwd: string): (r: Option<string>)
    ensures Strip(exclude) == [] ==> r.None?
    ensures Strip(exclude) != [] && !IsAbs(Strip(exclude)) ==> r == Some(Strip(exclude))
    ensures r.Some? ==> r.value != []
    ensures IsAbs(Strip(exclude)) && r.Some? ==> !StartsWith(r.value, "..")
  {
    var e := Strip(exclude);
    if e == [] then None
    else if IsAbs(e) then
      var relPath := RelPath(e, sourceDir, cwd);
      if !StartsWith(relPath, "..") then Some(relPath) else None
    else Some(e)
  }

  /** The list `_process_exclude_list` returns (temp.py:72-96), entry by entry in input order. */
  function ProcessedExcludes(excludeDirs: seq<string>, sourceDir: string, cwd: string): (r: seq<string>)
    ensures |r| <= |excludeDirs|
    ensures forall i :: 0 <= i < |r| ==> r[i] != []
  {
    if excludeDirs == [] then []
    else
      var init := ProcessedExcludes(excludeDirs[..|excludeDirs| - 1], sourceDir, cwd);
      match ProcessExclude(excludeDirs[|excludeDirs| - 1], sourceDir, cwd)
      case None => init
      case Some(e) => init + [e]
  }

  /** `_process_exclude_list` (temp.py:67-96). `cwd` is the working directory `os.path.abspath` uses. */
  method ProcessExcludeList(excludeDirs: seq<string>, sourceDir: string, cwd: string) returns (processed: seq<string>)
    ensures processed == ProcessedExcludes(excludeDirs, sourceDir, cwd)
  {
    processed := [];
    for i := 0 to |excludeDirs|
      invariant processed == ProcessedExcludes(excludeDirs[..i], sourceDir, cwd)
    {
      assert excludeDirs[..i + 1][..i] == excludeDirs[..i];
      var exclude := Strip(excludeDirs[i]);
      if exclude == [] {
        continue;
      }
      if IsAbs(exclude) {
        var relPath := RelPath(exclude, sourceDir, cwd);
        if !StartsWith(relPath, "..") {
          processed := processed + [relPath];
        }
      } else {
        processed := processed + [exclude];
      }
    }
    assert excludeDirs[..|excludeDirs|] == excludeDirs;
  }

  /**
   * The entries are processed one at a time and kept in their input order:
   * the result for a concatenation is the concatenation of the results.
   */
  lemma {:induction false} ProcessedExcludesConcat(a: seq<string>, b: seq<string>, sourceDir: string, cwd: string)
    ensures ProcessedExcludes(a + b, sourceDir, cwd)
            == ProcessedExcludes(a, sourceDir, cwd) + ProcessedExcludes(b, sourceDir, cwd)
  {
    if b == [] {
      assert a + b == a;
    } else {
      var b' := b[..|b| - 1];
      assert (a + b)[..|a + b| - 1] == a + b';
      assert (a + b)[|a + b| - 1] == b[|b| - 1];
      ProcessedExcludesConcat(a, b', sourceDir, cwd);
    }
  }

  /** A single entry contributes what ProcessExclude makes of it. */
  lemma ProcessedExcludesSingle(e: string, sourceDir: string, cwd: string)
    ensures ProcessedExcludes([e], sourceDir, cwd)
            == match ProcessExclude(e, sourceDir, cwd) case None => [] case Some(x) => [x]
  {
    assert [e][..0] == [];
  }

  /** A stripped absolute entry is kept as its relative path unless that path starts with `..`. */
  lemma ProcessAbsolute(e: string, sourceDir: string, cwd: string)
    requires Strip(e) == e && IsAbs(e)
    ensures var relPath := RelPath(e, sourceDir, cwd);
            ProcessExclude(e, sourceDir, cwd) == if StartsWith(relPath, "..") then None else Some(relPath)
  {
  }

  /**
   * An absolute entry inside the source directory is kept as its path below
   * the source directory, provided that path does not begin with `..`;
   * the source directory itself is kept as `.`.
   */
  lemma AbsoluteInsideKept(e: string, sourceDir: string, cwd: string, rest: seq<string>)
    requires Strip(e) == e && IsAbs(e)
    requires AbsComps(e, cwd) == AbsComps(sourceDir, cwd) + rest
    requires rest == [] || !StartsWith(rest[0], "..")
    ensures ProcessExclude(e, sourceDir, cwd) == Some(if rest == [] then "." else JoinWith(rest, '/'))
  {
    ProcessAbsolute(e, sourceDir, cwd);
    RelPathBelow(e, sourceDir, cwd, rest);
    if rest != [] {
      JoinStartsWithDotDot(rest);
    }
  }

  /** An absolute entry outside the source directory is dropped. */
  lemma AbsoluteOutsideDropped(e: string, sourceDir: string, cwd: string)
    requires Strip(e) == e && IsAbs(e)
    requires !(AbsComps(sourceDir, cwd) <= AbsComps(e, cwd))
    ensures ProcessExclude(e, sourceDir, cwd) == None
  {
    ProcessAbsolute(e, sourceDir, cwd);
    RelPathOutside(e, sourceDir, cwd);
  }

  /**
   * The `..` test is on the text of the relative path, so an absolute entry
   * naming a directory inside the source whose name begins with `..`
   * (such as `..cache`) is dropped as well.
   */
  lemma AbsoluteDotDotNameDropped(e: string, sourceDir: string, cwd: string, rest: seq<string>)
    requires Strip(e) == e && IsAbs(e)
    requires AbsComps(e, cwd) == AbsComps(sourceDir, cwd) + rest
    requires rest != [] && StartsWith(rest[0], "..")
    ensures ProcessExclude(e, sourceDir, cwd) == None
  {
    ProcessAbsolute(e, sourceDir, cwd);
    RelPathBelow(e, sourceDir, cwd, rest);
    JoinStartsWithDotDot(rest);
  }

  // ---------------------------------------------------------------------------
  // Pruning the walk (_get_directory_size)
  // ---------------------------------------------------------------------------

  /** `dir_rel_path` (temp.py:238): the directory's path relative to the walk's root. */
  function DirRelPath(relDir: string, dirname: string): string
  {
    if relDir != "." then PathJoin(relDir, dirname) else dirname
  }

  /**
   * One entry against one directory (temp.py:241-250): an entry with a `/`
   * matches that path and everything below it, an entry without one matches
   * every directory of that name.
   */
  predicate EntryMatches(exclude: string, dirRelPath: string, dirname: string)
  {
    if '/' in exclude then dirRelPath == exclude || StartsWith(dirRelPath, exclude + "/")
    else dirname == exclude
  }

  /** `should_exclude` once the loop over the entries has finished. */
  predicate Excluded(relDir: string, dirname: string, excludeDirs: seq<string>)
  {
    exists e :: e in excludeDirs && EntryMatches(e, DirRelPath(relDir, dirname), dirname)
  }

  /** The loop of temp.py:237-250: stop at the first matching entry. */
  method ShouldExclude(relDir: string, dirname: string, excludeDirs: seq<string>) returns (shouldExclude: bool)
    ensures shouldExclude <==> Excluded(relDir, dirname, excludeDirs)
  {
    shouldExclude := false;
    var dirRelPath := if relDir != "." then PathJoin(relDir, dirname) else dirname;
    for i := 0 to |excludeDirs|
      invariant !shouldExclude
      invariant forall j :: 0 <= j < i ==> !EntryMatches(excludeDirs[j], dirRelPath, dirname)
    {
      var exclude := excludeDirs[i];
      if '/' in exclude {
        if dirRelPath == exclude || StartsWith(dirRelPath, exclude + "/") {
          assert EntryMatches(exclude, DirRelPath(relDir, dirname), dirname);
          shouldExclude := true;
          break;
        }
      } else {
        if dirname == exclude {
          assert EntryMatches(exclude, DirRelPath(relDir, dirname), dirname);
          shouldExclude := true;
          break;
        }
      }
    }
    if !shouldExclude {
      forall e | e in excludeDirs ensures !EntryMatches(e, DirRelPath(relDir, dirname), dirname) {
        var j :| 0 <= j < |excludeDirs| && excludeDirs[j] == e;
      }
    }
  }

  /** `new_dirnames` (temp.py:234-253): the names no entry matches, in their order. */
  function KeptDirnames(relDir: string, dirnames: seq<string>, excludeDirs: seq<string>): (kept: seq<string>)
    ensures |kept| <= |dirnames|
    ensures forall d :: d in kept <==> d in dirnames && !Excluded(relDir, d, excludeDirs)
  {
    if dirnames == [] then []
    else
      var init, d := KeptDirnames(relDir, dirnames[..|dirnames| - 1], excludeDirs), dirnames[|dirnames| - 1];
      assert dirnames == dirnames[..|dirnames| - 1] + [d];
      if Excluded(relDir, d, excludeDirs) then init else init + [d]
  }

  /**
   * Pruning keeps the order of the names it keeps: it works name by name,
   * so the result for a concatenation is the concatenation of the results.
   */
  lemma {:induction false} KeptDirnamesConcat(relDir: string, a: seq<string>, b: seq<string>, excludeDirs: seq<string>)
    ensures KeptDirnames(relDir, a + b, excludeDirs)
            == KeptDirnames(relDir, a, excludeDirs) + KeptDirnames(relDir, b, excludeDirs)
  {
    if b == [] {
      assert a + b == a;
    } else {
      var b' := b[..|b| - 1];
      assert (a + b)[..|a + b| - 1] == a + b';
      assert (a + b)[|a + b| - 1] == b[|b| - 1];
      KeptDirnamesConcat(relDir, a, b', excludeDirs);
    }
  }

  /** An entry without `/` prunes every directory of that name, at any depth. */
  lemma NameEntryAnyDepth(relDir: string, name: string, excludeDirs: seq<string>)
    requires name in excludeDirs && '/' !in name
    ensures Excluded(relDir, name, excludeDirs)
    ensures name !in KeptDirnames(relDir, [name], excludeDirs)
  {
    assert EntryMatches(name, DirRelPath(relDir, name), name);
  }

  /** An entry with `/` never prunes a directory at the top of the walk. */
  lemma PathEntryNotTopLevel(exclude: string, dirname: string)
    requires '/' in exclude && '/' !in dirname
    ensures !EntryMatches(exclude, DirRelPath(".", dirname), dirname)
  {
    var k :| 0 <= k < |exclude| && exclude[k] == '/';
    assert (exclude + "/")[k] == '/';
    if |exclude| + 1 <= |dirname| {
      assert dirname[..|exclude| + 1][k] == dirname[k] != '/';
    }
  }

  /**
   * An entry with `/` that matches a directory also matches every
   * subdirectory of it: what it prunes is a whole subtree.
   */
  lemma PathEntryCoversSubtree(exclude: string, relDir: string, child: string)
    requires '/' in exclude && relDir != [] && relDir[|relDir| - 1] != '/' && !IsAbs(child)
    requires relDir == exclude || StartsWith(relDir, exclude + "/")
    ensures EntryMatches(exclude, DirRelPath(relDir, child), child)
  {
    var p := DirRelPath(relDir, child);
    assert p == relDir + "/" + child;
    assert p[..|exclude| + 1] == exclude + "/";
  }

  /**
   * One level of `os.walk`: the directory's path relative to the root and the
   * list of its subdirectory names, which the walk descends into.
   */
  class WalkLevel {
    const relDir: string
    var dirnames: seq<string>

    constructor (relDir: string, dirnames: seq<string>)
      ensures this.relDir == relDir && this.dirnames == dirnames
    {
      this.relDir := relDir;
      this.dirnames := dirnames;
    }

    /**
     * The prune step of temp.py:234-255: `dirnames[:] = new_dirnames`, so the
     * walk does not descend into an excluded directory.
     */
    method PruneExcluded(excludeDirs: seq<string>)
      modifies this
      ensures dirnames == KeptDirnames(relDir, old(dirnames), excludeDirs)
    {
      var names := dirnames;
      var newDirnames := [];
      for i := 0 to |names|
        invariant newDirnames == KeptDirnames(relDir, names[..i], excludeDirs)
      {
        assert names[..i + 1][..i] == names[..i];
        var dirname := names[i];
        var shouldExclude := ShouldExclude(relDir, dirname, excludeDirs);
        if !shouldExclude {
          newDirnames := newDirnames + [dirname];
        }
      }
      assert names[..|names|] == names;
      dirnames := newDirnames;
    }
  }
}
