/**
 * The argument vectors the directory copier hands to `rsync` and to
 * `find` (temp.py, `_copy_with_rsync` and `_copy_with_cp`), and the list
 * of files it reads back from `find`'s output.
 */
module CopyCommands {
  import opened PosixPath

  // ---------------------------------------------------------------------------
  // rsync
  // ---------------------------------------------------------------------------

  /** One `--exclude` option per entry, in order. */
  function ExcludeOptions(excludes: seq<string>): (opts: seq<string>)
    ensures |opts| == 2 * |excludes|
    ensures forall i :: 0 <= i < |excludes| ==> opts[2 * i] == "--exclude" && opts[2 * i + 1] == excludes[i]
  {
    if excludes == [] then []
    else ExcludeOptions(excludes[..|excludes| - 1]) + ["--exclude", excludes[|excludes| - 1]]
  }

  function ProgressOptions(verbose: bool): seq<string>
  {
    if verbose then ["--progress", "--info=progress2"] else []
  }

  /** The rsync command line of temp.py:107-119. */
  function RsyncArgv(sourceDir: string, destDir: string, excludes: seq<string>, verbose: bool): seq<string>
  {
    ["rsync", "-av"] + ProgressOptions(verbose) + ExcludeOptions(excludes) + [sourceDir + "/", destDir]
  }

  /**
   * The layout of the rsync command line: `rsync -av`; the two progress
   * options exactly when verbose; one `--exclude e` pair per entry in order;
   * the source with a trailing `/` (copy its contents) and the destination.
   */
  lemma RsyncArgvLayout(sourceDir: string, destDir: string, excludes: seq<string>, verbose: bool)
    ensures var argv, k := RsyncArgv(sourceDir, destDir, excludes, verbose), if verbose then 4 else 2;
            && |argv| == k + 2 * |excludes| + 2
            && argv[..2] == ["rsync", "-av"]
            && (argv[2] == "--progress" <==> verbose)
            && (verbose ==> argv[2..4] == ["--progress", "--info=progress2"])
            && (forall i :: 0 <= i < |excludes| ==>
                  argv[k + 2 * i] == "--exclude" && argv[k + 2 * i + 1] == excludes[i])
            && argv[|argv| - 2..] == [sourceDir + "/", destDir]
  {
    var argv, k := RsyncArgv(sourceDir, destDir, excludes, verbose), if verbose then 4 else 2;
    var opts := ExcludeOptions(excludes);
    assert argv == (["rsync", "-av"] + ProgressOptions(verbose)) + opts + [sourceDir + "/", destDir];
    forall i | 0 <= i < |excludes|
      ensures argv[k + 2 * i] == "--exclude" && argv[k + 2 * i + 1] == excludes[i]
    {
      assert argv[k + 2 * i] == opts[2 * i];
      assert argv[k + 2 * i + 1] == opts[2 * i + 1];
    }
    if !verbose {
      if excludes == [] {
        assert argv[2] == sourceDir + "/";
        assert argv[2][|argv[2]| - 1] == '/';
      } else {
        assert opts[2 * 0] == "--exclude";
        assert argv[2] == opts[0];
      }
    }
  }

  /** The command building of `_copy_with_rsync` (temp.py:107-119). */
  method BuildRsyncCommand(sourceDir: string, destDir: string, excludeDirs: seq<string>, verbose: bool)
    returns (cmd: seq<string>)
    ensures cmd == RsyncArgv(sourceDir, destDir, excludeDirs, verbose)
  {
    cmd := ["rsync", "-av"];
    if verbose {
      cmd := cmd + ["--progress"];
      cmd := cmd + ["--info=progress2"];
    }
    for i := 0 to |excludeDirs|
      invariant cmd == ["rsync", "-av"] + ProgressOptions(verbose) + ExcludeOptions(excludeDirs[..i])
    {
      assert excludeDirs[..i + 1][..i] == excludeDirs[..i];
      cmd := cmd + ["--exclude", excludeDirs[i]];
    }
    assert excludeDirs[..|excludeDirs|] == excludeDirs;
    cmd := cmd + [sourceDir + "/", destDir];
  }

  // ---------------------------------------------------------------------------
  // find
  // ---------------------------------------------------------------------------

  /** The clause for one entry: a path below the source for entries with `/`, a name otherwise. */
  function PruneClause(sourceDir: string, exclude: string): (c: seq<string>)
    ensures |c| == 3 && c[2] == "-prune"
    ensures '/' in exclude ==> c[..2] == ["-path", PathJoin(sourceDir, exclude)]
    ensures '/' !in exclude ==> c[..2] == ["-name", exclude]
  {
    if '/' in exclude then ["-path", PathJoin(sourceDir, exclude), "-prune"]
    else ["-name", exclude, "-prune"]
  }

  /** The clauses of all entries, separated by `-o`. */
  function PruneClauses(sourceDir: string, excludes: seq<string>): (r: seq<string>)
    ensures excludes == [] <==> r == []
    ensures excludes != [] ==> |r| == 4 * |excludes| - 1
  {
    if excludes == [] then []
    else if |excludes| == 1 then PruneClause(sourceDir, excludes[0])
    else PruneClauses(sourceDir, excludes[..|excludes| - 1]) + ["-o"] + PruneClause(sourceDir, excludes[|excludes| - 1])
  }

  /** Entry `i`'s clause sits at word `4 * i`, and every clause but the last is followed by `-o`. */
  lemma {:induction false} PruneClauseAt(sourceDir: string, excludes: seq<string>, i: int)
    requires 0 <= i < |excludes|
    ensures PruneClauses(sourceDir, excludes)[4 * i..4 * i + 3] == PruneClause(sourceDir, excludes[i])
    ensures i < |excludes| - 1 ==> PruneClauses(sourceDir, excludes)[4 * i + 3] == "-o"
  {
    var r := PruneClauses(sourceDir, excludes);
    if |excludes| == 1 {
      assert r[0..3] == r;
    } else {
      var init := excludes[..|excludes| - 1];
      var prev := PruneClauses(sourceDir, init);
      var last := PruneClause(sourceDir, excludes[|excludes| - 1]);
      assert r == prev + ["-o"] + last;
      if i < |excludes| - 1 {
        PruneClauseAt(sourceDir, init, i);
        assert excludes[i] == init[i];
        assert r[4 * i..4 * i + 3] == prev[4 * i..4 * i + 3];
        if i < |excludes| - 2 {
          assert r[4 * i + 3] == prev[4 * i + 3];
        } else {
          assert r[4 * i + 3] == r[|prev|];
        }
      } else {
        assert r[4 * i..4 * i + 3] == r[|prev| + 1..];
      }
    }
  }

  /** Adding an entry adds `-o` (unless it is the first) and its clause. */
  lemma PruneClausesSnoc(sourceDir: string, excludes: seq<string>, e: string)
    ensures PruneClauses(sourceDir, excludes + [e])
            == (if excludes == [] then [] else PruneClauses(sourceDir, excludes) + ["-o"]) + PruneClause(sourceDir, e)
  {
    assert (excludes + [e])[..|excludes|] == excludes;
  }

  /** One turn of the clause loop of BuildFindCommand: `-o` unless first, then the entry's clause. */
  lemma FindClauseStep(sourceDir: string, excludes: seq<string>, i: int, before: seq<string>, after: seq<string>)
    requires 0 <= i < |excludes|
    requires before == ["find", sourceDir, "("] + PruneClauses(sourceDir, excludes[..i])
    requires after == before + (if i > 0 then ["-o"] else []) + PruneClause(sourceDir, excludes[i])
    ensures after == ["find", sourceDir, "("] + PruneClauses(sourceDir, excludes[..i + 1])
  {
    var head, done, clause := ["find", sourceDir, "("], excludes[..i], PruneClause(sourceDir, excludes[i]);
    assert excludes[..i + 1] == done + [excludes[i]];
    PruneClausesSnoc(sourceDir, done, excludes[i]);
    var prev := PruneClauses(sourceDir, done);
    if i == 0 {
      assert done == [] && prev == [];
      Regroup(head, prev, [], clause);
    } else {
      Regroup(head, prev, ["-o"], clause);
    }
  }

  /** Regrouping a four-part concatenation. */
  lemma Regroup<T>(a: seq<T>, b: seq<T>, c: seq<T>, d: seq<T>)
    ensures (a + b) + c + d == a + ((b + c) + d)
  {
  }

  /** The find command line of temp.py:158-178. */
  function FindArgv(sourceDir: string, excludes: seq<string>): seq<string>
  {
    ["find", sourceDir]
    + (if excludes == [] then [] else ["("] + PruneClauses(sourceDir, excludes) + [")", "-o"])
    + ["-type", "f", "-print"]
  }

  /** A slice of the middle part of a three-part concatenation. */
  lemma MiddleSlice<T>(head: seq<T>, mid: seq<T>, tail: seq<T>, j: int, k: int)
    requires 0 <= j <= k <= |mid|
    ensures (head + mid + tail)[|head| + j..|head| + k] == mid[j..k]
  {
    var s := head + mid + tail;
    assert |s[|head| + j..|head| + k]| == k - j;
    forall n | 0 <= n < k - j ensures s[|head| + j..|head| + k][n] == mid[j..k][n] {
      assert s[|head| + j + n] == mid[j + n];
    }
  }

  /**
   * The frame of the find command line: without entries it lists every
   * file; with entries the clauses are grouped in parentheses and followed
   * by `-o`, so that a pruned directory is not printed and everything else
   * is tested for being a file.
   */
  lemma FindArgvLayout(sourceDir: string, excludes: seq<string>)
    ensures excludes == [] ==> FindArgv(sourceDir, excludes) == ["find", sourceDir, "-type", "f", "-print"]
    ensures excludes != [] ==> |FindArgv(sourceDir, excludes)| == 4 * |excludes| + 7
    ensures excludes != [] ==> FindArgv(sourceDir, excludes)[..3] == ["find", sourceDir, "("]
    ensures excludes != [] ==>
      FindArgv(sourceDir, excludes)[4 * |excludes| + 2..] == [")", "-o", "-type", "f", "-print"]
  {
    if excludes != [] {
      var c := PruneClauses(sourceDir, excludes);
      assert FindArgv(sourceDir, excludes) == ["find", sourceDir, "("] + c + [")", "-o", "-type", "f", "-print"];
    }
  }

  /** Inside the parentheses of the find command line: entry `i`'s clause, followed by `-o` unless it is the last. */
  lemma FindArgvClauseAt(sourceDir: string, excludes: seq<string>, i: int)
    requires 0 <= i < |excludes|
    ensures FindArgv(sourceDir, excludes)[3 + 4 * i..6 + 4 * i] == PruneClause(sourceDir, excludes[i])
    ensures i < |excludes| - 1 ==> FindArgv(sourceDir, excludes)[6 + 4 * i] == "-o"
  {
    var argv := FindArgv(sourceDir, excludes);
    var c := PruneClauses(sourceDir, excludes);
    var head, tail := ["find", sourceDir, "("], [")", "-o", "-type", "f", "-print"];
    assert argv == head + c + tail;
    PruneClauseAt(sourceDir, excludes, i);
    MiddleSlice(head, c, tail, 4 * i, 4 * i + 3);
    if i < |excludes| - 1 {
      assert argv[3 + (4 * i + 3)] == c[4 * i + 3];
    }
  }

  /** The command building of `_copy_with_cp` (temp.py:158-178). */
  method BuildFindCommand(sourceDir: string, excludeDirs: seq<string>) returns (findCmd: seq<string>)
    ensures findCmd == FindArgv(sourceDir, excludeDirs)
  {
    findCmd := ["find", sourceDir];
    if excludeDirs != [] {
      findCmd := findCmd + ["("];
      for i := 0 to |excludeDirs|
        invariant findCmd == ["find", sourceDir, "("] + PruneClauses(sourceDir, excludeDirs[..i])
      {
        var exclude := excludeDirs[i];
        ghost var before := findCmd;
        if i > 0 {
          findCmd := findCmd + ["-o"];
        }
        if '/' in exclude {
          var fullExcludePath := PathJoin(sourceDir, exclude);
          findCmd := findCmd + ["-path", fullExcludePath, "-prune"];
        } else {
          findCmd := findCmd + ["-name", exclude, "-prune"];
        }
        FindClauseStep(sourceDir, excludeDirs, i, before, findCmd);
      }
      assert excludeDirs[..|excludeDirs|] == excludeDirs;
      findCmd := findCmd + [")"];
      findCmd := findCmd + ["-o"];
    }
    findCmd := findCmd + ["-type", "f", "-print"];
  }

  // ---------------------------------------------------------------------------
  // The file list
  // ---------------------------------------------------------------------------

  /** `[f for f in files if f]` (temp.py:184). */
  function NonEmpty(lines: seq<string>): (r: seq<string>)
    ensures |r| <= |lines|
    ensures forall i :: 0 <= i < |r| ==> r[i] != []
    ensures forall x :: x in r <==> x in lines && x != []
    ensures (forall i :: 0 <= i < |lines| ==> lines[i] != []) ==> r == lines
  {
    if lines == [] then []
    else
      var init, last := NonEmpty(lines[..|lines| - 1]), lines[|lines| - 1];
      assert lines == lines[..|lines| - 1] + [last];
      if last == [] then init else init + [last]
  }

  /**
   * The filter works line by line: it keeps the order and the repetitions of
   * the lines it keeps, so filtering a concatenation concatenates the results.
   */
  lemma {:induction false} NonEmptyConcat(a: seq<string>, b: seq<string>)
    ensures NonEmpty(a + b) == NonEmpty(a) + NonEmpty(b)
  {
    if b == [] {
      assert a + b == a;
    } else {
      var b' := b[..|b| - 1];
      assert (a + b)[..|a + b| - 1] == a + b';
      assert (a + b)[|a + b| - 1] == b[|b| - 1];
      NonEmptyConcat(a, b');
    }
  }

  /** One line: an empty line is dropped, any other line is kept. */
  lemma NonEmptyOne(line: string)
    ensures NonEmpty([line]) == if line == [] then [] else [line]
  {
    assert [line][..0] == [];
  }

  /** The files `_copy_with_cp` copies, read from find's standard output (temp.py:183-184). */
  function ParseFileList(stdout: string): (files: seq<string>)
    ensures forall i :: 0 <= i < |files| ==> files[i] != [] && '\n' !in files[i]
  {
    var lines := SplitOn(Strip(stdout), '\n');
    NonEmptyKeepsLines(lines);
    NonEmpty(lines)
  }

  /** The kept lines are lines of the input, so they hold no newline when the input lines hold none. */
  lemma NonEmptyKeepsLines(lines: seq<string>)
    requires forall i :: 0 <= i < |lines| ==> '\n' !in lines[i]
    ensures forall i :: 0 <= i < |NonEmpty(lines)| ==> '\n' !in NonEmpty(lines)[i]
  {
    var files := NonEmpty(lines);
    forall i | 0 <= i < |files| ensures '\n' !in files[i] {
      assert files[i] in lines;
    }
  }

  /** What `find ... -print` writes: every path followed by a newline. */
  function FindOutput(paths: seq<string>): string
  {
    if paths == [] then "" else FindOutput(paths[..|paths| - 1]) + paths[|paths| - 1] + "\n"
  }

  /** Printing every path followed by a newline is joining them with newlines, plus one more. */
  lemma {:induction false} FindOutputJoined(paths: seq<string>)
    requires paths != []
    ensures FindOutput(paths) == JoinWith(paths, '\n') + "\n"
  {
    if |paths| > 1 {
      var init := paths[..|paths| - 1];
      assert paths == init + [paths[|paths| - 1]];
      FindOutputJoined(init);
      JoinWithSnoc(init, paths[|paths| - 1], '\n');
    }
  }

  lemma {:induction false} JoinWithSnoc(parts: seq<string>, x: string, sep: char)
    requires parts != []
    ensures JoinWith(parts + [x], sep) == JoinWith(parts, sep) + [sep] + x
  {
    if |parts| > 1 {
      assert (parts + [x])[1..] == parts[1..] + [x];
      JoinWithSnoc(parts[1..], x, sep);
    } else {
      assert (parts + [x])[1..] == [x];
    }
  }

  /** A join of non-empty parts begins with the first part's first character and ends with the last part's last. */
  lemma {:induction false} JoinWithEnds(parts: seq<string>, sep: char)
    requires parts != [] && forall i :: 0 <= i < |parts| ==> parts[i] != []
    ensures var j := JoinWith(parts, sep);
            j != [] && j[0] == parts[0][0] && j[|j| - 1] == parts[|parts| - 1][|parts[|parts| - 1]| - 1]
  {
    if |parts| > 1 {
      JoinWithEnds(parts[1..], sep);
    }
  }

  /**
   * Reading find's output back gives exactly the paths it printed, in order,
   * for paths that are non-empty, hold no newline, and (first and last) do
   * not have whitespace at the outer ends that `strip()` would remove.
   */
  lemma ParseFindOutput(paths: seq<string>)
    requires forall i :: 0 <= i < |paths| ==> paths[i] != [] && '\n' !in paths[i]
    requires paths != [] ==> !IsSpace(paths[0][0])
    requires paths != [] ==> !IsSpace(paths[|paths| - 1][|paths[|paths| - 1]| - 1])
    ensures ParseFileList(FindOutput(paths)) == paths
  {
    if paths == [] {
      assert Strip("") == "";
      assert SplitOn("", '\n') == [""];
    } else {
      var j := JoinWith(paths, '\n');
      FindOutputJoined(paths);
      JoinWithEnds(paths, '\n');
      var out := j + "\n";
      assert TrimLeft(out) == out;
      assert out[..|out| - 1] == j;
      assert TrimRight(out) == TrimRight(j) == j;
      assert Strip(out) == j;
      SplitJoin(paths, '\n');
    }
  }
}
