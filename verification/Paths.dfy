/** POSIX path algebra on paths that are split at their slashes. Splitting loses nothing:
    a path is the list of the texts between its slashes, so "/a/b" is ["", "a", "b"]. */
module Paths {

  type Path = seq<string>

  // ---------- Splitting and gluing ----------

  function Glue(p: Path): string {
    if p == [] then "" else if |p| == 1 then p[0] else p[0] + "/" + Glue(p[1..])
  }

  function Split(s: string): (p: Path)
    ensures p != []
  {
    if s == "" then [""]
    else if s[0] == '/' then [""] + Split(s[1..])
    else
      var rest := Split(s[1..]);
      [[s[0]] + rest[0]] + rest[1..]
  }

  predicate SlashFree(p: Path) {
    forall i :: 0 <= i < |p| ==> '/' !in p[i]
  }

  lemma {:induction false} GlueOfSplit(s: string)
    ensures Glue(Split(s)) == s && SlashFree(Split(s))
  {
    if s == "" {
    } else {
      var rest := Split(s[1..]);
      GlueOfSplit(s[1..]);
      if s[0] == '/' {
        assert ([""] + rest)[1..] == rest;
      } else {
        assert ([[s[0]] + rest[0]] + rest[1..])[1..] == rest[1..];
        assert s == [s[0]] + s[1..];
      }
    }
  }

  lemma {:induction false} SplitPrefix(name: string, s: string)
    requires '/' !in name
    ensures Split(name + "/" + s) == [name] + Split(s)
    ensures Split(name) == [name]
  {
    if name == "" {
      assert name + "/" + s == "/" + s && ("/" + s)[1..] == s;
    } else {
      SplitPrefix(name[1..], s);
      assert (name + "/" + s)[1..] == name[1..] + "/" + s;
      assert [name[0]] + name[1..] == name;
    }
  }

  /** Splitting undoes gluing, and gluing undoes splitting. */
  lemma {:induction false} SplitOfGlue(p: Path)
    requires p != [] && SlashFree(p)
    ensures Split(Glue(p)) == p
  {
    if |p| == 1 {
      SplitPrefix(p[0], "");
    } else {
      SplitOfGlue(p[1..]);
      SplitPrefix(p[0], Glue(p[1..]));
    }
  }

  // ---------- dirname, join, normpath, relpath ----------

  predicate AllEmpty(p: Path) {
    forall i :: 0 <= i < |p| ==> p[i] == ""
  }

  function DropTrailingEmpty(p: Path): Path {
    if |p| > 1 && p[|p| - 1] == "" then DropTrailingEmpty(p[..|p| - 1]) else p
  }

  /** Everything before the last slash; slashes at its end are dropped unless there is nothing else. */
  function Dirname(p: Path): Path {
    if |p| <= 1 then [""]
    else
      var head := p[..|p| - 1];
      if AllEmpty(head) then head + [""] else DropTrailingEmpty(head)
  }

  function Basename(p: Path): string {
    if p == [] then "" else p[|p| - 1]
  }

  predicate IsAbsolute(p: Path) {
    |p| > 1 && p[0] == ""
  }

  function Join(a: Path, b: Path): Path {
    if IsAbsolute(b) || a == [""] || a == [] then b
    else if a[|a| - 1] == "" then a[..|a| - 1] + b
    else a + b
  }

  /** One or two leading slashes are kept, three or more count as one. */
  function LeadingSlashes(p: Path): nat {
    if !IsAbsolute(p) then 0
    else if |p| >= 3 && p[1] == "" && !(|p| >= 4 && p[2] == "") then 2
    else 1
  }

  function Reduce(done: Path, todo: Path, absolute: bool): Path
    decreases |todo|
  {
    if todo == [] then done
    else if todo[0] == "" || todo[0] == "." then Reduce(done, todo[1..], absolute)
    else if todo[0] != ".." || (!absolute && done == []) || (done != [] && done[|done| - 1] == "..") then
      Reduce(done + [todo[0]], todo[1..], absolute)
    else if done != [] then Reduce(done[..|done| - 1], todo[1..], absolute)
    else Reduce(done, todo[1..], absolute)
  }

  function Normpath(p: Path): Path {
    var slashes := LeadingSlashes(p);
    var parts := Reduce([], p, slashes > 0);
    if slashes == 0 then (if parts == [] then ["."] else parts)
    else if parts == [] then seq(slashes + 1, i => "")
    else seq(slashes, i => "") + parts
  }

  function Common(a: Path, b: Path): (n: nat)
    ensures n <= |a| && n <= |b| && a[..n] == b[..n]
  {
    if a == [] || b == [] || a[0] != b[0] then 0
    else
      var n := Common(a[1..], b[1..]);
      assert a[..n + 1] == [a[0]] + a[1..][..n] && b[..n + 1] == [b[0]] + b[1..][..n];
      n + 1
  }

  function Ups(n: nat): (u: Path)
    ensures |u| == n && forall i :: 0 <= i < n ==> u[i] == ".."
  {
    seq(n, i => "..")
  }

  /** The path as seen from `start`, for two relative paths that do not climb above their common origin. */
  function Relpath(path: Path, start: Path): Path {
    var p, s := Reduce([], path, false), Reduce([], start, false);
    var n := Common(p, s);
    var parts := Ups(|s| - n) + p[n..];
    if parts == [] then ["."] else parts
  }

  // ---------- Clean paths ----------

  predicate IsName(s: string) {
    s != "" && s != "." && s != ".." && '/' !in s
  }

  /** Relative, normalised and below its origin: nothing but names. */
  predicate Clean(p: Path) {
    forall i :: 0 <= i < |p| ==> IsName(p[i])
  }

  lemma {:induction false} ReduceClean(done: Path, p: Path, absolute: bool)
    requires Clean(p)
    ensures Reduce(done, p, absolute) == done + p
    decreases |p|
  {
    if p != [] {
      ReduceClean(done + [p[0]], p[1..], absolute);
      assert done + [p[0]] + p[1..] == done + p;
    }
  }

  lemma {:induction false} ReduceSplits(done: Path, a: Path, b: Path, absolute: bool)
    ensures Reduce(done, a + b, absolute) == Reduce(Reduce(done, a, absolute), b, absolute)
    decreases |a|
  {
    if a == [] {
      assert a + b == b;
    } else {
      assert (a + b)[1..] == a[1..] + b;
      if a[0] == "" || a[0] == "." {
        ReduceSplits(done, a[1..], b, absolute);
      } else if a[0] != ".." || (!absolute && done == []) || (done != [] && done[|done| - 1] == "..") {
        ReduceSplits(done + [a[0]], a[1..], b, absolute);
      } else if done != [] {
        ReduceSplits(done[..|done| - 1], a[1..], b, absolute);
      } else {
        ReduceSplits(done, a[1..], b, absolute);
      }
    }
  }

  lemma {:induction false} ReduceUps(done: Path, n: nat, absolute: bool)
    requires Clean(done) && n <= |done|
    ensures Reduce(done, Ups(n), absolute) == done[..|done| - n]
    decreases n
  {
    if n == 0 {
      assert done[..|done|] == done;
    } else {
      assert Ups(n)[1..] == Ups(n - 1);
      ReduceUps(done[..|done| - 1], n - 1, absolute);
      assert done[..|done| - 1][..|done| - n] == done[..|done| - n];
    }
  }

  lemma CleanNormal(p: Path)
    requires Clean(p) && p != []
    ensures Normpath(p) == p && !IsAbsolute(p)
  {
    ReduceClean([], p, false);
    assert [] + p == p;
  }

  /** Climbing from `dir` to its first n names and descending along `rest` reaches their path. */
  lemma ClimbAndDescend(dir: Path, n: nat, rest: Path)
    requires Clean(dir) && n <= |dir| && Clean(rest)
    ensures Reduce([], dir + (Ups(|dir| - n) + rest), false) == dir[..n] + rest
  {
    ReduceSplits([], dir, Ups(|dir| - n) + rest, false);
    ReduceClean([], dir, false);
    assert [] + dir == dir;
    ReduceSplits(dir, Ups(|dir| - n), rest, false);
    ReduceUps(dir, |dir| - n, false);
    ReduceClean(dir[..n], rest, false);
  }

  lemma RelpathOfClean(path: Path, dir: Path)
    requires Clean(path) && Clean(dir)
    ensures var n := Common(path, dir);
            var parts := Ups(|dir| - n) + path[n..];
            Relpath(path, dir) == if parts == [] then ["."] else parts
  {
    ReduceClean([], path, false);
    ReduceClean([], dir, false);
    assert [] + path == path && [] + dir == dir;
  }

  lemma DotStays(dir: Path)
    requires Clean(dir)
    ensures Reduce([], dir + ["."], false) == dir
  {
    ReduceSplits([], dir, ["."], false);
    ReduceClean([], dir, false);
    assert [] + dir == dir;
  }

  lemma RelpathParts(path: Path, dir: Path)
    requires Clean(path) && path != [] && Clean(dir)
    ensures var rel := Relpath(path, dir);
            && rel != [] && !IsAbsolute(rel) && rel[0] != ""
            && Reduce([], dir + rel, false) == path
  {
    RelpathOfClean(path, dir);
    var n := Common(path, dir);
    var parts := Ups(|dir| - n) + path[n..];
    ClimbAndDescend(dir, n, path[n..]);
    assert dir[..n] + path[n..] == path;
    if parts == [] {
      assert path[..n] == path && dir[..n] == dir;
      DotStays(dir);
    } else {
      assert parts[0] == ".." || IsName(parts[0]);
    }
  }

  /** A relative path, followed from where it starts, leads to the path it was computed for. */
  lemma RelpathLeadsBack(path: Path, dir: Path)
    requires Clean(path) && path != [] && Clean(dir) && dir != []
    ensures Normpath(Join(dir, Relpath(path, dir))) == path
  {
    RelpathParts(path, dir);
    assert IsName(dir[0]) && IsName(dir[|dir| - 1]);
    assert Join(dir, Relpath(path, dir)) == dir + Relpath(path, dir);
  }

  /** From the origin itself a clean path leads to itself. */
  lemma OriginLeadsBack(path: Path)
    requires Clean(path) && path != []
    ensures Normpath(Join([""], path)) == path
  {
    CleanNormal(path);
  }

  lemma DirnameClean(p: Path)
    requires Clean(p) && p != []
    ensures Dirname(p) == if |p| == 1 then [""] else p[..|p| - 1]
  {
    if |p| > 1 {
      assert IsName(p[..|p| - 1][|p| - 2]) && IsName(p[..|p| - 1][0]);
    }
  }
}
