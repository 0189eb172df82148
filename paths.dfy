/** A lexical model of the `pathlib` operations the sandbox relies on. A path
    is a posix string; a resolved absolute path is its list of components,
    and its string form is `"/"` followed by the components joined by `/`.
    Symbolic links are not followed: resolution handles `.`, `..` and
    repeated separators only. */
module Paths {
  import opened Common

  /** `s.split("/")` */
  function Split(s: string): (r: seq<string>)
    ensures |r| >= 1
    ensures forall i :: 0 <= i < |r| ==> '/' !in r[i]
  {
    if s == [] then [[]]
    else
      var rest := Split(s[1..]);
      if s[0] == '/' then [[]] + rest
      else [[s[0]] + rest[0]] + rest[1..]
  }

  /** `"/".join(parts)` */
  function Join(parts: seq<string>): string {
    if parts == [] then []
    else if |parts| == 1 then parts[0]
    else parts[0] + "/" + Join(parts[1..])
  }

  /** Splitting and joining again gives back the string. */
  lemma {:induction false} JoinSplit(s: string)
    ensures Join(Split(s)) == s
  {
    if s != [] {
      var rest := Split(s[1..]);
      JoinSplit(s[1..]);
      if s[0] == '/' {
        assert Split(s) == [[]] + rest;
        assert ([[]] + rest)[1..] == rest;
      } else {
        var r := Split(s);
        assert r == [[s[0]] + rest[0]] + rest[1..];
        if |rest| == 1 {
          assert s == [s[0]] + s[1..];
        } else {
          assert r[1..] == rest[1..];
          assert Join(rest) == rest[0] + "/" + Join(rest[1..]);
          assert s == [s[0]] + s[1..];
        }
      }
    }
  }

  lemma {:induction false} SplitName(s: string)
    requires '/' !in s
    ensures Split(s) == [s]
  {
    if s != [] {
      assert '/' !in s[1..] by {
        forall k | 0 <= k < |s[1..]| ensures s[1..][k] != '/' {
          assert s[1..][k] == s[k + 1];
        }
      }
      SplitName(s[1..]);
      assert s == [s[0]] + s[1..];
    }
  }

  lemma {:induction false} SplitAppend(a: string, b: string)
    ensures Split(a + "/" + b) == Split(a) + Split(b)
  {
    if a == [] {
      assert a + "/" + b == "/" + b;
      assert ("/" + b)[1..] == b;
    } else {
      var s := a + "/" + b;
      assert s[0] == a[0] && s[1..] == a[1..] + "/" + b;
      SplitAppend(a[1..], b);
    }
  }

  /** Joining parts free of `/` and splitting again gives back the parts. */
  lemma {:induction false} SplitJoin(parts: seq<string>)
    requires |parts| >= 1
    requires forall i :: 0 <= i < |parts| ==> '/' !in parts[i]
    ensures Split(Join(parts)) == parts
  {
    if |parts| == 1 {
      SplitName(parts[0]);
    } else {
      SplitAppend(parts[0], Join(parts[1..]));
      SplitName(parts[0]);
      SplitJoin(parts[1..]);
    }
  }

  lemma {:induction false} JoinAppend(a: seq<string>, b: seq<string>)
    requires a != [] && b != []
    ensures Join(a + b) == Join(a) + "/" + Join(b)
  {
    if |a| > 1 {
      assert (a + b)[1..] == a[1..] + b;
      JoinAppend(a[1..], b);
    } else {
      assert (a + b)[1..] == b;
    }
  }

  /** A component a resolved path can hold. */
  predicate IsName(c: string) {
    c != "" && c != "." && c != ".." && '/' !in c
  }

  predicate Normal(comps: seq<string>) {
    forall i :: 0 <= i < |comps| ==> IsName(comps[i])
  }

  predicate NoSlash(parts: seq<string>) {
    forall i :: 0 <= i < |parts| ==> '/' !in parts[i]
  }

  /** Lexical resolution: walk `parts` from the directory `dir`, skipping empty
      and `.` parts and stepping up on `..` (never above `/`). */
  function Walk(dir: seq<string>, parts: seq<string>): (r: seq<string>)
    ensures Normal(dir) && NoSlash(parts) ==> Normal(r)
    decreases |parts|
  {
    if parts == [] then dir
    else if parts[0] == "" || parts[0] == "." then Walk(dir, parts[1..])
    else if parts[0] == ".." then Walk(if dir == [] then [] else dir[..|dir| - 1], parts[1..])
    else Walk(dir + [parts[0]], parts[1..])
  }

  /** `Path(s).resolve()` with `cwd` as the process's working directory. */
  function Resolve(s: string, cwd: seq<string>): (r: seq<string>)
    requires Normal(cwd)
    ensures Normal(r)
  {
    Walk(if IsAbsolute(s) then [] else cwd, Split(s))
  }

  predicate IsAbsolute(s: string) {
    |s| > 0 && s[0] == '/'
  }

  /** `str(p)` for a resolved absolute path. */
  function PathString(comps: seq<string>): string {
    "/" + Join(comps)
  }

  /** The parts `PurePath(s)` keeps: empty and `.` parts dropped, `..` kept. */
  function Clean(parts: seq<string>): (r: seq<string>)
    ensures |r| <= |parts|
  {
    if parts == [] then []
    else if parts[0] == "" || parts[0] == "." then Clean(parts[1..])
    else [parts[0]] + Clean(parts[1..])
  }

  function PureParts(s: string): seq<string> {
    Clean(Split(s))
  }

  /** Walking parts that never step up only appends them. */
  lemma {:induction false} WalkDown(dir: seq<string>, parts: seq<string>)
    requires forall i :: 0 <= i < |parts| ==> parts[i] != ".."
    ensures Walk(dir, parts) == dir + Clean(parts)
    decreases |parts|
  {
    if parts != [] {
      WalkDown(if parts[0] == "" || parts[0] == "." then dir else dir + [parts[0]], parts[1..]);
    }
  }

  /** Walking only `..`, `.` and empty parts ends at an ancestor of `dir`,
      a proper one as soon as some part is `..` and `dir` is not `/`. */
  lemma {:induction false} WalkUp(dir: seq<string>, parts: seq<string>)
    requires forall i :: 0 <= i < |parts| ==> parts[i] in {"..", ".", ""}
    ensures IsPrefix(Walk(dir, parts), dir)
    ensures dir != [] && ".." in parts ==> |Walk(dir, parts)| < |dir|
    decreases |parts|
  {
    if parts != [] {
      var next := if parts[0] == ".." then (if dir == [] then [] else dir[..|dir| - 1]) else dir;
      WalkUp(next, parts[1..]);
      assert parts == [parts[0]] + parts[1..];
    }
  }

  /** The string of a descendant starts with the string of its ancestor. */
  lemma PathStringOfDescendant(dir: seq<string>, more: seq<string>)
    ensures IsPrefix(PathString(dir), PathString(dir + more))
  {
    if dir != [] && more != [] {
      JoinAppend(dir, more);
    } else if more == [] {
      assert dir + more == dir;
    }
  }

  /** The string of a proper ancestor is shorter, so it is not a prefix the
      other way round. */
  lemma PathStringOfAncestor(anc: seq<string>, dir: seq<string>)
    requires Normal(dir) && IsPrefix(anc, dir) && |anc| < |dir|
    ensures |PathString(anc)| < |PathString(dir)|
  {
    var more := dir[|anc|..];
    assert dir == anc + more;
    assert IsName(dir[|anc|]);
    if anc != [] {
      JoinAppend(anc, more);
    } else {
      JoinHolds(more);
    }
  }

  lemma {:induction false} JoinHolds(comps: seq<string>)
    requires comps != [] && IsName(comps[0])
    ensures |Join(comps)| >= |comps[0]| > 0
  {
  }

  /** The last component (`Path.name`); empty for `/`. */
  function Name(comps: seq<string>): string {
    if comps == [] then "" else comps[|comps| - 1]
  }

  /** `name.rfind(".")`: the index of the last dot, -1 when there is none. */
  function LastDot(name: string): (i: int)
    ensures -1 <= i < |name|
    ensures i >= 0 ==> name[i] == '.'
    ensures forall j :: i < j < |name| ==> name[j] != '.'
  {
    if name == [] then -1
    else if name[|name| - 1] == '.' then |name| - 1
    else LastDot(name[..|name| - 1])
  }

  /** `Path.suffix`: from the last dot of the final component, when that dot
      is neither its first nor its last character. */
  function Suffix(comps: seq<string>): (r: string)
    ensures r != "" ==> 2 <= |r| < |Name(comps)| && r[0] == '.'
                        && r == Name(comps)[|Name(comps)| - |r|..]
                        && '.' !in r[1..]
  {
    var name := Name(comps);
    var i := LastDot(name);
    if 0 < i < |name| - 1 then
      assert forall k :: 0 <= k < |name[i..][1..]| ==> name[i..][1..][k] == name[i + 1 + k];
      name[i..]
    else ""
  }

  /** Path.relative_to(root_dir) for an absolute resolved path: the parts left
      once the root's own parts are stripped, or ValueError. */
  function RelativeTo(comps: seq<string>, rootDir: string): (r: Result<seq<string>>)
    ensures r.Ok? ==> comps == PureParts(rootDir) + r.value
    ensures r.Err? ==> r.error == NotRelative
  {
    var rp := PureParts(rootDir);
    if IsAbsolute(rootDir) && IsPrefix(rp, comps) then
      assert comps == rp + comps[|rp|..];
      Ok(comps[|rp|..])
    else Err(NotRelative)
  }

  /** `as_posix()` of a relative path. */
  function PosixString(rel: seq<string>): string {
    if rel == [] then "." else Join(rel)
  }
}
