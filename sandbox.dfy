/** `safe_resolve`, `_matches_any`, `allowed_by_policy` and `read_text_safely`:
    confining paths to the policy root, the ordered allow/deny decision, and
    the bounded read. */
module Sandbox {
  import opened Common
  import opened Paths
  import Glob

  // ---------------------------------------------------------------------
  // safe_resolve
  // ---------------------------------------------------------------------

  /** `(root / relpath).resolve()` with `root` already resolved: an absolute
      `relpath` replaces the root, a relative one is walked from it. */
  function Joined(root: seq<string>, relpath: string): (p: seq<string>)
    requires Normal(root)
    ensures Normal(p)
  {
    Walk(if IsAbsolute(relpath) then [] else root, Split(relpath))
  }

  /** `safe_resolve(relpath, root_dir)`: the resolved path, or PermissionError
      when its string does not start with the string of the resolved root. */
  function SafeResolve(relpath: string, rootDir: string, cwd: seq<string>): (r: Result<seq<string>>)
    requires Normal(cwd)
    ensures r.Ok? ==> Normal(r.value) && IsPrefix(PathString(Resolve(rootDir, cwd)), PathString(r.value))
    ensures r.Ok? ==> r.value == Joined(Resolve(rootDir, cwd), relpath)
    ensures r.Err? ==> r.error == EscapesRoot
    ensures r.Err? ==> !IsPrefix(PathString(Resolve(rootDir, cwd)), PathString(Joined(Resolve(rootDir, cwd), relpath)))
  {
    var root := Resolve(rootDir, cwd);
    var p := Joined(root, relpath);
    if IsPrefix(PathString(root), PathString(p)) then Ok(p) else Err(EscapesRoot)
  }

  /** Every path that resolves inside the root is accepted, at its
      resolution: `a/../b` and an absolute path below the root as much as
      `a/b`. */
  lemma InsideRootAccepted(relpath: string, rootDir: string, cwd: seq<string>)
    requires Normal(cwd)
    requires IsPrefix(Resolve(rootDir, cwd), Joined(Resolve(rootDir, cwd), relpath))
    ensures SafeResolve(relpath, rootDir, cwd) == Ok(Joined(Resolve(rootDir, cwd), relpath))
  {
    var root := Resolve(rootDir, cwd);
    var p := Joined(root, relpath);
    assert p == root + p[|root|..];
    PathStringOfDescendant(root, p[|root|..]);
  }

  /** Stepping into a directory and back out again stays inside:
      `a/../b` is accepted and lands at the root's child `b`. */
  lemma DownAndUpAccepted(a: string, b: string, rootDir: string, cwd: seq<string>)
    requires Normal(cwd) && IsName(a) && IsName(b)
    ensures SafeResolve(a + "/../" + b, rootDir, cwd) == Ok(Resolve(rootDir, cwd) + [b])
  {
    var root := Resolve(rootDir, cwd);
    var rel := a + "/../" + b;
    assert rel == (a + "/" + "..") + "/" + b;
    SplitAppend(a + "/" + "..", b);
    SplitAppend(a, "..");
    SplitName(a);
    SplitName("..");
    SplitName(b);
    assert Split(rel) == [a, "..", b];
    assert !IsAbsolute(rel);
    assert Walk(root, [a, "..", b]) == Walk(root + [a], ["..", b]) by { assert [a, "..", b][1..] == ["..", b]; }
    assert Walk(root + [a], ["..", b]) == Walk(root, [b]) by {
      assert ["..", b][1..] == [b];
      assert (root + [a])[..|root + [a]| - 1] == root;
    }
    assert Walk(root, [b]) == Walk(root + [b], []) by { assert [b][1..] == []; }
    InsideRootAccepted(rel, rootDir, cwd);
  }

  /** A relative path that never steps up is accepted and lands below the
      root, at the root's components followed by its own parts. */
  lemma ResolveBelowRoot(relpath: string, rootDir: string, cwd: seq<string>)
    requires Normal(cwd) && !IsAbsolute(relpath)
    requires forall i :: 0 <= i < |Split(relpath)| ==> Split(relpath)[i] != ".."
    ensures SafeResolve(relpath, rootDir, cwd) == Ok(Resolve(rootDir, cwd) + PureParts(relpath))
  {
    var root := Resolve(rootDir, cwd);
    WalkDown(root, Split(relpath));
    PathStringOfDescendant(root, PureParts(relpath));
  }

  /** A relative path made only of `..` (and `.` or empty) parts, with at
      least one `..`, climbs above any root other than `/` and is rejected. */
  lemma ClimbingAboveRootRejected(relpath: string, rootDir: string, cwd: seq<string>)
    requires Normal(cwd) && !IsAbsolute(relpath)
    requires forall i :: 0 <= i < |Split(relpath)| ==> Split(relpath)[i] in {"..", ".", ""}
    requires ".." in Split(relpath)
    requires Resolve(rootDir, cwd) != []
    ensures SafeResolve(relpath, rootDir, cwd) == Err(EscapesRoot)
  {
    var root := Resolve(rootDir, cwd);
    var p := Joined(root, relpath);
    WalkUp(root, Split(relpath));
    PathStringOfAncestor(p, root);
  }

  lemma PrefixAfterCommon(a: string, b: string, x: string)
    ensures IsPrefix(a + b, a + x) <==> IsPrefix(b, x)
  {
    if IsPrefix(b, x) {
      assert (a + x)[..|a + b|] == a + x[..|b|];
    }
    if IsPrefix(a + b, a + x) {
      assert (a + x)[..|a + b|][|a|..] == x[..|b|];
      assert (a + b)[|a|..] == b;
    }
  }

  lemma SplitUpThenName(x: string)
    requires IsName(x)
    ensures Split("../" + x) == ["..", x]
  {
    assert "../" + x == ".." + "/" + x;
    SplitAppend("..", x);
    SplitName("..");
    SplitName(x);
  }

  /** Two siblings' strings share everything up to their last names. */
  lemma SiblingStrings(up: seq<string>, a: string, x: string)
    ensures IsPrefix(PathString(up + [a]), PathString(up + [x])) <==> IsPrefix(a, x)
  {
    if up == [] {
      assert up + [a] == [a] && up + [x] == [x];
      PrefixAfterCommon("/", a, x);
    } else {
      JoinAppend(up, [x]);
      JoinAppend(up, [a]);
      assert PathString(up + [x]) == ("/" + Join(up) + "/") + x;
      assert PathString(up + [a]) == ("/" + Join(up) + "/") + a;
      PrefixAfterCommon("/" + Join(up) + "/", a, x);
    }
  }

  /** `../x` from a root other than `/` lands on a sibling `x` of the root. The
      raw string-prefix test accepts it exactly when the root's own name is a
      prefix of `x`: `/a/b` rejects `../x` but accepts `../bc`, which is not
      inside it. */
  lemma SiblingOfRoot(rootDir: string, cwd: seq<string>, x: string)
    requires Normal(cwd) && IsName(x)
    requires Resolve(rootDir, cwd) != []
    ensures var root := Resolve(rootDir, cwd);
            SafeResolve("../" + x, rootDir, cwd)
              == if IsPrefix(Name(root), x) then Ok(root[..|root| - 1] + [x]) else Err(EscapesRoot)
  {
    var root := Resolve(rootDir, cwd);
    var up := root[..|root| - 1];
    var rel := "../" + x;
    SplitUpThenName(x);
    assert !IsAbsolute(rel);
    assert Walk(root, ["..", x]) == Walk(up, [x]) by { assert ["..", x][1..] == [x]; }
    assert Walk(up, [x]) == Walk(up + [x], []) by { assert [x][1..] == []; }
    assert Joined(root, rel) == up + [x];
    assert root == up + [Name(root)];
    SiblingStrings(up, Name(root), x);
  }

  /** An absolute `relpath` ignores the root entirely: it is accepted only if
      its own resolution happens to start with the root's string. */
  lemma AbsoluteRelpath(relpath: string, rootDir: string, cwd: seq<string>)
    requires Normal(cwd) && IsAbsolute(relpath)
    ensures SafeResolve(relpath, rootDir, cwd).Ok? ==> SafeResolve(relpath, rootDir, cwd).value == Resolve(relpath, cwd)
  {
  }

  // ---------------------------------------------------------------------
  // allowed_by_policy
  // ---------------------------------------------------------------------

  /** `x or []` */
  function OrEmpty(v: Value): Value {
    if Truthy(v) then v else Arr([])
  }

  /** `x in v` for a string `x` and a JSON value `v`. */
  function In(x: string, v: Value, field: string): (r: Result<bool>)
    ensures r.Err? <==> v.Null? || v.Bool? || v.Num?
    ensures r.Err? ==> r.error == WrongType(field)
    ensures v.Arr? ==> r == Ok(Str(x) in v.items)
  {
    match v
    case Arr(items) => Ok(Str(x) in items)
    case Str(s) => Ok(IsSubstring(x, s))
    case Obj(m) => Ok(x in m)
    case _ => Err(WrongType(field))
  }

  /** `any(fnmatch(s, pat) for pat in items)`, stopping at the first match; a
      pattern that is not a string raises TypeError when it is reached. */
  function AnyMatch(s: string, items: seq<Value>, field: string): (r: Result<bool>)
    ensures r.Err? ==> r.error == WrongType(field)
    ensures (forall i :: 0 <= i < |items| ==> items[i].Str?) ==>
              r == Ok(exists i :: 0 <= i < |items| && Glob.Matches(s, items[i].s))
  {
    if items == [] then Ok(false)
    else match items[0]
      case Str(p) => if Glob.Matches(s, p) then Ok(true) else AnyMatch(s, items[1..], field)
      case _ => Err(WrongType(field))
  }

  /** `_matches_any(rel, patterns)`: iterating a string yields its characters,
      iterating an object its keys. */
  function MatchesAny(s: string, patterns: Value, field: string): (r: Result<bool>)
    ensures r.Err? ==> r.error == WrongType(field)
  {
    match patterns
    case Arr(items) => AnyMatch(s, items, field)
    case Str(chars) => Ok(exists i :: 0 <= i < |chars| && Glob.Matches(s, [chars[i]]))
    case Obj(m) => Ok(exists k :: k in m && Glob.Matches(s, k))
    case _ => Err(WrongType(field))
  }

  /** `policy["root_dir"]` as a string. */
  function RootDir(pol: map<string, Value>): Result<string> {
    if "root_dir" in pol && pol["root_dir"].Str? then Ok(pol["root_dir"].s)
    else Err(WrongType("root_dir"))
  }

  /** The five policy fields the decision reads; a falsy allow list reads as
      the empty list. */
  datatype Rules = Rules(denyExt: Value, allowExt: Value, root: Result<string>, denyGlobs: Value, allowGlobs: Value)

  function RulesOf(pol: map<string, Value>): Rules {
    Rules(Get(pol, "deny_extensions", Arr([])), OrEmpty(Get(pol, "allow_extensions", Null)), RootDir(pol),
          Get(pol, "deny_globs", Arr([])), OrEmpty(Get(pol, "allow_globs", Null)))
  }

  /** `allowed_by_policy(path, policy)`: deny extension, allow extension, deny
      glob, allow glob, in that order; globs see the root-relative posix path. */
  function AllowedByPolicy(path: seq<string>, pol: map<string, Value>): Result<bool> {
    Decide(path, RulesOf(pol))
  }

  function Decide(path: seq<string>, rules: Rules): Result<bool> {
    var suffix := Suffix(path);
    var deniedExt :- In(suffix, rules.denyExt, "deny_extensions");
    if deniedExt then Ok(false)
    else
      var extOk :- if Truthy(rules.allowExt) then In(suffix, rules.allowExt, "allow_extensions") else Ok(true);
      if !extOk then Ok(false)
      else
        var rootDir :- rules.root;
        var rel :- RelativeTo(path, rootDir);
        var s := PosixString(rel);
        var deniedGlob :- MatchesAny(s, rules.denyGlobs, "deny_globs");
        if deniedGlob then Ok(false)
        else
          if !Truthy(rules.allowGlobs) then Ok(true) else MatchesAny(s, rules.allowGlobs, "allow_globs")
  }

  /** The decision fails only on a policy field of the wrong shape or a path
      that is not below the policy's root; it never fails as a denial. */
  lemma AllowedErrorKinds(path: seq<string>, pol: map<string, Value>)
    ensures AllowedByPolicy(path, pol).Err? ==>
              AllowedByPolicy(path, pol).error.WrongType? || AllowedByPolicy(path, pol).error == NotRelative
  {
  }

  /** The decision reads only its own policy fields: setting any other key
      leaves it as it was. */
  lemma AllowedIgnoresOtherKeys(path: seq<string>, pol: map<string, Value>, key: string, v: Value)
    requires key !in {"deny_extensions", "allow_extensions", "root_dir", "deny_globs", "allow_globs"}
    ensures AllowedByPolicy(path, pol[key := v]) == AllowedByPolicy(path, pol)
  {
    var pol' := pol[key := v];
    assert RootDir(pol') == RootDir(pol);
    assert RulesOf(pol') == RulesOf(pol);
  }

  // The decision for a policy whose list fields are lists of strings.

  predicate IsStrList(v: Value) {
    v.Arr? && forall i :: 0 <= i < |v.items| ==> v.items[i].Str?
  }

  /** A list field that is absent, null or a list of strings. */
  predicate ListField(pol: map<string, Value>, key: string) {
    key !in pol || pol[key] == Null || IsStrList(pol[key])
  }

  predicate Typed(pol: map<string, Value>) {
    ListField(pol, "deny_extensions") && Get(pol, "deny_extensions", Arr([])) != Null
    && ListField(pol, "allow_extensions")
    && ListField(pol, "deny_globs") && Get(pol, "deny_globs", Arr([])) != Null
    && ListField(pol, "allow_globs")
    && RootDir(pol).Ok?
  }

  /** The strings of a list field; empty when absent or null. */
  function Strings(pol: map<string, Value>, key: string): (r: seq<string>)
    requires ListField(pol, key)
    ensures key in pol && pol[key].Arr? ==> |r| == |pol[key].items|
  {
    if key in pol && pol[key].Arr? then
      seq(|pol[key].items|, i requires 0 <= i < |pol[key].items| => pol[key].items[i].s)
    else []
  }

  predicate AnyGlob(s: string, pats: seq<string>) {
    exists i :: 0 <= i < |pats| && Glob.Matches(s, pats[i])
  }

  /** The decision as one formula: every deny rule fails and every non-empty
      allow list admits the path. Deny always wins over allow. */
  predicate Permitted(suffix: string, rel: string, pol: map<string, Value>)
    requires Typed(pol)
  {
    suffix !in Strings(pol, "deny_extensions")
    && (Strings(pol, "allow_extensions") == [] || suffix in Strings(pol, "allow_extensions"))
    && !AnyGlob(rel, Strings(pol, "deny_globs"))
    && (Strings(pol, "allow_globs") == [] || AnyGlob(rel, Strings(pol, "allow_globs")))
  }

  lemma InStrings(x: string, pol: map<string, Value>, key: string)
    requires ListField(pol, key) && key in pol && pol[key].Arr?
    ensures In(x, pol[key], key) == Ok(x in Strings(pol, key))
  {
    var items := pol[key].items;
    var ss := Strings(pol, key);
    if Str(x) in items {
      var i :| 0 <= i < |items| && items[i] == Str(x);
      assert ss[i] == x;
    }
    if x in ss {
      var i :| 0 <= i < |ss| && ss[i] == x;
      assert items[i] == Str(x);
    }
  }

  lemma MatchesStrings(s: string, pol: map<string, Value>, key: string)
    requires ListField(pol, key) && key in pol && pol[key].Arr?
    ensures MatchesAny(s, pol[key], key) == Ok(AnyGlob(s, Strings(pol, key)))
  {
    var items := pol[key].items;
    var ss := Strings(pol, key);
    assert forall i :: 0 <= i < |items| ==> items[i].s == ss[i];
  }

  /** A deny list (absent means empty) as `In` and `MatchesAny` see it. */
  lemma DenyList(x: string, pol: map<string, Value>, key: string)
    requires ListField(pol, key) && Get(pol, key, Arr([])) != Null
    ensures In(x, Get(pol, key, Arr([])), key) == Ok(x in Strings(pol, key))
    ensures MatchesAny(x, Get(pol, key, Arr([])), key) == Ok(AnyGlob(x, Strings(pol, key)))
  {
    if key in pol {
      InStrings(x, pol, key);
      MatchesStrings(x, pol, key);
    }
  }

  /** An allow list (absent or null means empty) as the decision sees it: it
      imposes something exactly when it has strings. */
  lemma AllowList(x: string, pol: map<string, Value>, key: string)
    requires ListField(pol, key)
    ensures Truthy(OrEmpty(Get(pol, key, Null))) <==> Strings(pol, key) != []
    ensures Truthy(OrEmpty(Get(pol, key, Null))) ==>
              In(x, OrEmpty(Get(pol, key, Null)), key) == Ok(x in Strings(pol, key))
              && MatchesAny(x, OrEmpty(Get(pol, key, Null)), key) == Ok(AnyGlob(x, Strings(pol, key)))
  {
    if key in pol && pol[key].Arr? {
      InStrings(x, pol, key);
      MatchesStrings(x, pol, key);
    }
  }

  /** For a policy of the expected shape and a path below the policy root, the
      ordered decision list computes exactly `Permitted`. */
  lemma AllowedIsPermitted(path: seq<string>, pol: map<string, Value>)
    requires Typed(pol) && RelativeTo(path, RootDir(pol).value).Ok?
    ensures AllowedByPolicy(path, pol)
              == Ok(Permitted(Suffix(path), PosixString(RelativeTo(path, RootDir(pol).value).value), pol))
  {
    var suffix := Suffix(path);
    var rel := PosixString(RelativeTo(path, RootDir(pol).value).value);
    DenyList(suffix, pol, "deny_extensions");
    AllowList(suffix, pol, "allow_extensions");
    DenyList(rel, pol, "deny_globs");
    AllowList(rel, pol, "allow_globs");
  }

  /** A suffix on the deny list is refused whatever the other rules say, even
      before the root or the globs are looked at. */
  lemma DeniedExtensionWins(path: seq<string>, pol: map<string, Value>)
    requires "deny_extensions" in pol && pol["deny_extensions"].Arr?
    requires Str(Suffix(path)) in pol["deny_extensions"].items
    ensures AllowedByPolicy(path, pol) == Ok(false)
  {
  }

  /** A non-empty allow-extension list refuses every other suffix, before the
      root or the globs are looked at. */
  lemma UnlistedExtensionRefused(path: seq<string>, pol: map<string, Value>)
    requires "deny_extensions" in pol && pol["deny_extensions"].Arr?
    requires Str(Suffix(path)) !in pol["deny_extensions"].items
    requires "allow_extensions" in pol && pol["allow_extensions"].Arr? && pol["allow_extensions"].items != []
    requires Str(Suffix(path)) !in pol["allow_extensions"].items
    ensures AllowedByPolicy(path, pol) == Ok(false)
  {
  }

  /** An empty, null or missing allow-extension list imposes nothing: the
      decision is the one made without the key. */
  lemma EmptyAllowExtensionsIgnored(path: seq<string>, pol: map<string, Value>)
    requires !Truthy(Get(pol, "allow_extensions", Null))
    ensures AllowedByPolicy(path, pol) == AllowedByPolicy(path, pol - {"allow_extensions"})
  {
    var p2 := pol - {"allow_extensions"};
    assert RootDir(pol) == RootDir(p2);
    assert RulesOf(p2) == RulesOf(pol);
  }

  /** A path matching a deny glob is refused even when an allow glob matches. */
  lemma DenyGlobWins(path: seq<string>, pol: map<string, Value>)
    requires Typed(pol) && RelativeTo(path, RootDir(pol).value).Ok?
    requires AnyGlob(PosixString(RelativeTo(path, RootDir(pol).value).value), Strings(pol, "deny_globs"))
    ensures AllowedByPolicy(path, pol) == Ok(false)
  {
    AllowedIsPermitted(path, pol);
  }

  // ---------------------------------------------------------------------
  // read_text_safely
  // ---------------------------------------------------------------------

  datatype ReadText = ReadText(content: string, snipped: bool)

  /** `read_text_safely(path, max_bytes)` given the file's bytes and the UTF-8
      decoder: truncate to `max_bytes` when longer, and say so. */
  function ReadTextSafely(raw: seq<byte>, maxBytes: int, decode: seq<byte> -> string): (r: ReadText)
    ensures r.snipped <==> |raw| > maxBytes
    ensures 0 <= maxBytes ==> r.content == decode(raw[..if |raw| <= maxBytes then |raw| else maxBytes])
    ensures maxBytes < 0 ==> r.content == decode(raw[..SliceIndex(|raw|, maxBytes)])
  {
    if |raw| > maxBytes then ReadText(decode(Take(raw, maxBytes)), true)
    else
      assert raw[..|raw|] == raw;
      ReadText(decode(raw), false)
  }
}
