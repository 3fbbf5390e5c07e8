/**
 * The string and POSIX path operations the directory copier relies on:
 * `str.strip`, `str.split`/`str.join` on one separator character,
 * `str.startswith`, and `os.path.isabs`, `os.path.join`,
 * `os.path.abspath` and `os.path.relpath` as posixpath defines them.
 */
module PosixPath {

  /** The characters `str.strip()` removes (those for which `str.isspace()` holds). */
  predicate IsSpace(c: char)
  {
    || '\t' <= c <= '\r' || '\U{1C}' <= c <= ' '
    || c == '\U{85}' || c == '\U{A0}' || c == '\U{1680}'
    || '\U{2000}' <= c <= '\U{200A}'
    || c == '\U{2028}' || c == '\U{2029}' || c == '\U{202F}' || c == '\U{205F}' || c == '\U{3000}'
  }

  /** `s.lstrip()`: the suffix left after the leading whitespace. */
  function TrimLeft(s: string): (r: string)
    ensures |r| <= |s| && r == s[|s| - |r|..]
    ensures r != [] ==> !IsSpace(r[0])
    ensures forall i :: 0 <= i < |s| - |r| ==> IsSpace(s[i])
  {
    if s != [] && IsSpace(s[0]) then TrimLeft(s[1..]) else s
  }

  /** `s.rstrip()`: the prefix left before the trailing whitespace. */
  function TrimRight(s: string): (r: string)
    ensures |r| <= |s| && r == s[..|r|]
    ensures r != [] ==> !IsSpace(r[|r| - 1])
    ensures forall i :: |r| <= i < |s| ==> IsSpace(s[i])
  {
    if s != [] && IsSpace(s[|s| - 1]) then TrimRight(s[..|s| - 1]) else s
  }

  /**
   * `s.strip()`: the piece of `s` left when the whitespace at both ends is
   * removed. It is empty exactly when `s` is all whitespace; otherwise it
   * neither begins nor ends with whitespace, and `s` is unchanged when it
   * has none at either end.
   */
  function Strip(s: string): (r: string)
    ensures |r| <= |s|
    ensures exists a :: 0 <= a <= |s| - |r| && StrippedAt(s, r, a)
    ensures r == [] <==> forall i :: 0 <= i < |s| ==> IsSpace(s[i])
    ensures r != [] ==> !IsSpace(r[0]) && !IsSpace(r[|r| - 1])
    ensures (s == [] || (!IsSpace(s[0]) && !IsSpace(s[|s| - 1]))) ==> r == s
  {
    var l := TrimLeft(s);
    var r := TrimRight(l);
    assert r == [] ==> l == [];
    assert r != [] ==> r[0] == l[0];
    TrimBothAt(s);
    r
  }

  /** lstrip then rstrip leaves the piece of `s` that starts after the leading whitespace. */
  lemma TrimBothAt(s: string)
    ensures StrippedAt(s, TrimRight(TrimLeft(s)), |s| - |TrimLeft(s)|)
  {
    TrimBothInside(s);
    TrimBothAfter(s);
  }

  lemma TrimBothInside(s: string)
    ensures var l := TrimLeft(s);
            var r := TrimRight(l);
            forall i :: 0 <= i < |r| ==> r[i] == s[|s| - |l| + i]
  {
    var l := TrimLeft(s);
    TrimLeftAt(s);
    TrimRightAt(l);
  }

  lemma TrimLeftAt(s: string)
    ensures var l := TrimLeft(s);
            forall i :: 0 <= i < |l| ==> l[i] == s[|s| - |l| + i]
  {
  }

  lemma TrimRightAt(s: string)
    ensures var r := TrimRight(s);
            forall i :: 0 <= i < |r| ==> r[i] == s[i]
  {
  }

  lemma TrimBothAfter(s: string)
    ensures var l := TrimLeft(s);
            var r := TrimRight(l);
            forall i :: |s| - |l| + |r| <= i < |s| ==> IsSpace(s[i])
  {
    var l := TrimLeft(s);
    var r := TrimRight(l);
    var a := |s| - |l|;
    forall i | a + |r| <= i < |s| ensures IsSpace(s[i]) {
      assert s[i] == l[i - a];
    }
  }

  /** `r` is the piece of `s` that starts at `a`, with only whitespace before and after it. */
  predicate StrippedAt(s: string, r: string, a: int)
  {
    && 0 <= a && a + |r| <= |s|
    && (forall i :: 0 <= i < |r| ==> r[i] == s[a + i])
    && (forall i :: 0 <= i < a ==> IsSpace(s[i]))
    && (forall i :: a + |r| <= i < |s| ==> IsSpace(s[i]))
  }

  /** `s.startswith(prefix)`. */
  predicate StartsWith(s: string, prefix: string)
  {
    |prefix| <= |s| && s[..|prefix|] == prefix
  }

  /** `os.path.isabs(p)`. */
  predicate IsAbs(p: string)
  {
    |p| > 0 && p[0] == '/'
  }

  /** `os.path.join(a, b)`: an absolute `b` replaces `a`; otherwise a `/` is put between them when needed. */
  function PathJoin(a: string, b: string): (r: string)
    ensures IsAbs(b) ==> r == b
    ensures !IsAbs(b) ==> r == a + (if a == [] || a[|a| - 1] == '/' then "" else "/") + b
  {
    if IsAbs(b) then b
    else if a == [] || a[|a| - 1] == '/' then a + b
    else a + "/" + b
  }

  // ---------------------------------------------------------------------------
  // Splitting and joining on one character
  // ---------------------------------------------------------------------------

  /** Index of the first `c` in `s`, or `|s|`. */
  function IndexOf(s: string, c: char): (k: nat)
    ensures k <= |s|
    ensures k < |s| ==> s[k] == c
    ensures forall i :: 0 <= i < k ==> s[i] != c
  {
    if s == [] then 0 else if s[0] == c then 0 else 1 + IndexOf(s[1..], c)
  }

  /** `sep.join(parts)`. */
  function JoinWith(parts: seq<string>, sep: char): string
  {
    if parts == [] then "" else if |parts| == 1 then parts[0] else parts[0] + [sep] + JoinWith(parts[1..], sep)
  }

  /** `s.split(sep)`: the pieces between separators; joining them gives `s` back. */
  function SplitOn(s: string, sep: char): (parts: seq<string>)
    ensures |parts| >= 1
    ensures forall i :: 0 <= i < |parts| ==> sep !in parts[i]
    ensures JoinWith(parts, sep) == s
    decreases |s|
  {
    var k := IndexOf(s, sep);
    if k == |s| then [s]
    else
      var rest := SplitOn(s[k + 1..], sep);
      var parts := [s[..k]] + rest;
      assert parts[1..] == rest;
      assert s == s[..k] + [sep] + s[k + 1..];
      parts
  }

  /** Splitting undoes joining when no part holds the separator. */
  lemma {:induction false} SplitJoin(parts: seq<string>, sep: char)
    requires |parts| >= 1
    requires forall i :: 0 <= i < |parts| ==> sep !in parts[i]
    ensures SplitOn(JoinWith(parts, sep), sep) == parts
  {
    var s := JoinWith(parts, sep);
    if |parts| == 1 {
      assert IndexOf(s, sep) == |s|;
    } else {
      var tail := JoinWith(parts[1..], sep);
      assert s == parts[0] + [sep] + tail;
      var k := IndexOf(s, sep);
      assert s[|parts[0]|] == sep;
      assert k == |parts[0]| by {
        forall i | 0 <= i < |parts[0]| ensures s[i] != sep { assert s[i] == parts[0][i]; }
      }
      assert s[..k] == parts[0];
      assert s[k + 1..] == tail;
      SplitJoin(parts[1..], sep);
    }
  }

  /** A joined path starts with `..` exactly when its first component does. */
  lemma JoinStartsWithDotDot(parts: seq<string>)
    requires parts != []
    ensures StartsWith(JoinWith(parts, '/'), "..") <==> StartsWith(parts[0], "..")
  {
    var j := JoinWith(parts, '/');
    if |parts| > 1 {
      assert j == parts[0] + ['/'] + JoinWith(parts[1..], '/');
      if |parts[0]| < 2 {
        assert j[|parts[0]|] == '/';
      } else {
        assert j[..2] == parts[0][..2];
      }
    }
  }

  // ---------------------------------------------------------------------------
  // abspath and relpath
  // ---------------------------------------------------------------------------

  /**
   * The components `os.path.normpath` keeps of an absolute path: empty and
   * `.` components vanish, `..` removes the component before it (and
   * nothing at the root).
   */
  function Normalize(comps: seq<string>): (r: seq<string>)
    ensures |r| <= |comps|
    ensures Clean(r)
    ensures forall c :: c in r ==> c in comps
    ensures Clean(comps) ==> r == comps
  {
    if comps == [] then []
    else
      var init, c := comps[..|comps| - 1], comps[|comps| - 1];
      var done := Normalize(init);
      StepFacts(done, c);
      assert Clean(comps) ==> Clean(init) && done == init && comps == init + [c];
      assert forall x :: x in init ==> x in comps;
      Step(done, c)
  }

  /** One component read by normpath: `""` and `.` vanish, `..` drops the last kept one, any other is kept. */
  function Step(done: seq<string>, c: string): seq<string>
  {
    if c == "" || c == "." then done
    else if c == ".." then (if done == [] then [] else done[..|done| - 1])
    else done + [c]
  }

  lemma StepFacts(done: seq<string>, c: string)
    requires Clean(done)
    ensures var r := Step(done, c);
            && |r| <= |done| + 1 && Clean(r)
            && (forall x :: x in r ==> x in done || x == c)
            && (CleanComponent(c) ==> r == done + [c])
  {
    if c == ".." && done != [] {
      var r := done[..|done| - 1];
      assert forall x :: x in r ==> x in done;
    }
  }

  lemma NormalizeSnoc(x: seq<string>, c: string)
    ensures Normalize(x + [c]) == Step(Normalize(x), c)
  {
    assert (x + [c])[..|x|] == x;
  }

  /** No component is empty, `.` or `..`. */
  predicate Clean(comps: seq<string>)
  {
    forall i :: 0 <= i < |comps| ==> CleanComponent(comps[i])
  }

  predicate CleanComponent(c: string)
  {
    c != "" && c != "." && c != ".."
  }

  /** Normalising a prefix first changes nothing: the components are read left to right. */
  lemma {:induction false} NormalizeAppend(a: seq<string>, b: seq<string>)
    ensures Normalize(a + b) == Normalize(Normalize(a) + b)
    decreases |b|
  {
    var n := Normalize(a);
    if b == [] {
      assert a + b == a && n + b == n;
    } else {
      var b', c := b[..|b| - 1], b[|b| - 1];
      NormalizeAppend(a, b');
      assert b == b' + [c];
      SnocAssoc(a, b', c);
      SnocAssoc(n, b', c);
      NormalizeSnoc(a + b', c);
      NormalizeSnoc(n + b', c);
    }
  }

  lemma SnocAssoc(x: seq<string>, y: seq<string>, c: string)
    ensures x + (y + [c]) == (x + y) + [c]
  {
  }

  /** `x/..` cancels: a clean component followed by `..` leaves what came before. */
  lemma DotDotCancels(c: seq<string>, x: string)
    requires CleanComponent(x)
    ensures Normalize(c + [x, ".."]) == Normalize(c)
  {
    var n := Normalize(c);
    assert c + [x, ".."] == (c + [x]) + [".."];
    NormalizeSnoc(c, x);
    NormalizeSnoc(c + [x], "..");
    assert (n + [x])[..|n|] == n;
  }

  /** At the root `..` goes nowhere, and empty and `.` components vanish. */
  lemma LeadingSkipped(x: string, c: seq<string>)
    requires x in {"", ".", ".."}
    ensures Normalize([x] + c) == Normalize(c)
  {
    var empty: seq<string> := [];
    NormalizeAppend([x], c);
    NormalizeSnoc(empty, x);
    assert empty + [x] == [x];
    assert Normalize([x]) == empty;
    assert empty + c == c;
  }

  /**
   * The components of `os.path.abspath(p)`: `p` joined to the working
   * directory `cwd` when it is relative, then normalised.
   */
  function AbsComps(p: string, cwd: string): (r: seq<string>)
    ensures Clean(r) && forall i :: 0 <= i < |r| ==> '/' !in r[i]
  {
    var parts := SplitOn(if IsAbs(p) then p else PathJoin(cwd, p), '/');
    var r := Normalize(parts);
    assert forall i :: 0 <= i < |r| ==> '/' !in r[i] by {
      forall i | 0 <= i < |r| ensures '/' !in r[i] {
        assert r[i] in parts;
      }
    }
    r
  }

  /** An absolute path that is already clean is its own abspath: `/` followed by its components. */
  lemma AbsCompsOfCleanPath(comps: seq<string>, cwd: string)
    requires Clean(comps) && forall i :: 0 <= i < |comps| ==> '/' !in comps[i]
    ensures AbsComps("/" + JoinWith(comps, '/'), cwd) == comps
  {
    var p := "/" + JoinWith(comps, '/');
    var rest := if comps == [] then [""] else comps;
    SplitRooted(comps);
    assert IsAbs(p);
    assert AbsComps(p, cwd) == Normalize([""] + rest);
    LeadingSkipped("", rest);
    if comps == [] {
      var empty: seq<string> := [];
      NormalizeSnoc(empty, "");
      assert empty + [""] == rest;
    }
  }

  /** Splitting `/` followed by the joined components gives an empty first piece, then the components. */
  lemma SplitRooted(comps: seq<string>)
    requires forall i :: 0 <= i < |comps| ==> '/' !in comps[i]
    ensures SplitOn("/" + JoinWith(comps, '/'), '/') == [""] + (if comps == [] then [""] else comps)
  {
    var parts := [""] + (if comps == [] then [""] else comps);
    JoinRooted(comps);
    forall i | 0 <= i < |parts| ensures '/' !in parts[i] {
      if i > 0 { assert parts[i] == (if comps == [] then [""] else comps)[i - 1]; }
    }
    SplitJoin(parts, '/');
  }

  lemma JoinRooted(comps: seq<string>)
    ensures JoinWith([""] + (if comps == [] then [""] else comps), '/') == "/" + JoinWith(comps, '/')
  {
    var rest := if comps == [] then [""] else comps;
    var parts := [""] + rest;
    assert parts[1..] == rest;
    assert JoinWith(rest, '/') == JoinWith(comps, '/');
    assert JoinWith(parts, '/') == parts[0] + ['/'] + JoinWith(rest, '/');
  }

  /** Length of the longest common prefix (`os.path.commonprefix` of two component lists). */
  function CommonPrefixLength(a: seq<string>, b: seq<string>): (k: nat)
    ensures k <= |a| && k <= |b| && a[..k] == b[..k]
    ensures k < |a| && k < |b| ==> a[k] != b[k]
  {
    if a == [] || b == [] || a[0] != b[0] then 0
    else
      var k := 1 + CommonPrefixLength(a[1..], b[1..]);
      assert a[..k] == [a[0]] + a[1..][..k - 1];
      assert b[..k] == [b[0]] + b[1..][..k - 1];
      k
  }

  function Repeat(s: string, n: nat): (r: seq<string>)
    ensures |r| == n && forall i :: 0 <= i < n ==> r[i] == s
  {
    if n == 0 then [] else [s] + Repeat(s, n - 1)
  }

  /** The component list `os.path.relpath(path, start)` joins: up out of `start`, then down into `path`. */
  function RelPathComps(path: string, start: string, cwd: string): seq<string>
  {
    var pathList, startList := AbsComps(path, cwd), AbsComps(start, cwd);
    var i := CommonPrefixLength(startList, pathList);
    Repeat("..", |startList| - i) + pathList[i..]
  }

  /** `os.path.relpath(path, start)`, with `cwd` as the working directory. */
  function RelPath(path: string, start: string, cwd: string): (r: string)
    ensures r != []
  {
    var rel := RelPathComps(path, start, cwd);
    if rel == [] then "."
    else
      assert rel[0] != [] by {
        var pathList, startList := AbsComps(path, cwd), AbsComps(start, cwd);
        var i := CommonPrefixLength(startList, pathList);
        if |startList| - i == 0 { assert rel[0] == pathList[i]; }
      }
      JoinWith(rel, '/')
  }

  /** A path below `start` is reached by going down from it: the remaining components. */
  lemma RelPathBelow(path: string, start: string, cwd: string, rest: seq<string>)
    requires AbsComps(path, cwd) == AbsComps(start, cwd) + rest
    ensures RelPathComps(path, start, cwd) == rest
  {
    var pathList, startList := AbsComps(path, cwd), AbsComps(start, cwd);
    var i := CommonPrefixLength(startList, pathList);
    assert pathList[|startList|..] == rest;
  }

  /** When the common prefix covers all of `a`, `a` is a prefix of `b`. */
  lemma CommonPrefixCovers(a: seq<string>, b: seq<string>)
    ensures CommonPrefixLength(a, b) == |a| ==> a <= b
  {
    var k := CommonPrefixLength(a, b);
    if k == |a| {
      assert a == a[..k] == b[..k];
    }
  }

  /** A non-empty list of relative components is joined with `/`. */
  lemma RelPathJoined(path: string, start: string, cwd: string)
    requires RelPathComps(path, start, cwd) != []
    ensures RelPath(path, start, cwd) == JoinWith(RelPathComps(path, start, cwd), '/')
  {
  }

  /** A path not below `start` (nor `start` itself) is reached by first going up: its relative path starts with `..`. */
  lemma RelPathOutside(path: string, start: string, cwd: string)
    requires !(AbsComps(start, cwd) <= AbsComps(path, cwd))
    ensures StartsWith(RelPath(path, start, cwd), "..")
  {
    var rel := RelPathComps(path, start, cwd);
    RelPathCompsOutside(path, start, cwd);
    RelPathJoined(path, start, cwd);
    JoinStartsWithDotDot(rel);
    assert StartsWith(rel[0], "..");
  }

  /** Outside `start`, the relative component list begins by going up. */
  lemma RelPathCompsOutside(path: string, start: string, cwd: string)
    requires !(AbsComps(start, cwd) <= AbsComps(path, cwd))
    ensures RelPathComps(path, start, cwd) != [] && RelPathComps(path, start, cwd)[0] == ".."
  {
    var pathList, startList := AbsComps(path, cwd), AbsComps(start, cwd);
    var i := CommonPrefixLength(startList, pathList);
    CommonPrefixCovers(startList, pathList);
    var up := Repeat("..", |startList| - i);
    assert up[0] == "..";
    assert (up + pathList[i..])[0] == "..";
  }
}
