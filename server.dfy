/** The tool functions of the server: `get_policy`, `set_policy`, `list_dir`,
    `scan_text`, `safe_read_file`, `copy_redacted_file` and the
    `privacy://{relpath}` resource. Each tool's decision (what it returns,
    which error it raises, which audit record it writes) is a function of the
    live policy and the world it runs in; the `Server` class performs it
    step by step against the shared `Policy` and `Auditor`. */
module Server {
  import opened Common
  import opened Paths
  import opened Sandbox
  import opened Detect
  import opened Redact
  import PolicyStore
  import Audit

  /** An entry of the filesystem the server sees, by resolved path: a file
      with its bytes, or a directory with the names it holds. */
  datatype Node = File(bytes: seq<byte>) | Dir(names: seq<string>)

  /** Everything outside the policy and the log that the tools depend on: the
      working directory, the filesystem, the detector's matchers, the
      Presidio analyser (None when it cannot be loaded) and the UTF-8
      decoder. */
  datatype World = World(cwd: seq<string>, files: map<seq<string>, Node>, battery: Battery,
                         engine: Option<Engine>, decode: seq<byte> -> string)

  predicate IsFile(w: World, p: seq<string>) { p in w.files && w.files[p].File? }

  predicate IsDir(w: World, p: seq<string>) { p in w.files && w.files[p].Dir? }

  /** A tool's result and the audit event it writes, if any. */
  datatype Outcome<T> = Outcome(result: Result<T>, event: Option<Dict>)

  /** The log after a tool that writes `event`. */
  function Logged(lines: seq<Audit.Line>, event: Option<Dict>, ts: string,
                  sha256: string -> string, dumps: Dict -> string): seq<Audit.Line>
  {
    match event
    case None => lines
    case Some(e) => lines + [Audit.Entry(Audit.NextRecord(lines, e, ts, sha256, dumps))]
  }

  /** The event a tool logs, if any, leaves `prev_hash` for `log` to add. */
  predicate Unhashed(event: Option<Dict>) {
    event.Some? ==> "prev_hash" !in Keys(event.value)
  }

  /** Logging a tool's event keeps an intact hash chain intact. */
  lemma LoggedKeepsChain(lines: seq<Audit.Line>, event: Option<Dict>, ts: string,
                         sha256: string -> string, dumps: Dict -> string)
    requires Audit.Chained(lines, sha256, dumps) && Unhashed(event)
    ensures Audit.Chained(Logged(lines, event, ts, sha256, dumps), sha256, dumps)
    ensures |Logged(lines, event, ts, sha256, dumps)| == |lines| + (if event.Some? then 1 else 0)
  {
    if event.Some? {
      Audit.LogExtendsChain(lines, event.value, ts, sha256, dumps);
    }
  }

  // ---------------------------------------------------------------------
  // Policy fields as the tools read them
  // ---------------------------------------------------------------------

  /** `pol.get("use_presidio", False)` */
  function UsePresidio(pol: map<string, Value>): Value { Get(pol, "use_presidio", Bool(false)) }

  /** `pol.get("presidio_entities", [])` */
  function Entities(pol: map<string, Value>): Value { Get(pol, "presidio_entities", Arr([])) }

  /** `max_bytes or pol["max_bytes"]`, as the integer the read compares with. */
  function ByteCap(maxBytes: Option<int>, pol: map<string, Value>): (r: Result<int>)
    ensures maxBytes.Some? && maxBytes.value != 0 ==> r == Ok(maxBytes.value)
    ensures (maxBytes.None? || maxBytes == Some(0)) && "max_bytes" in pol && pol["max_bytes"].Num? ==>
              r == Ok(pol["max_bytes"].n)
  {
    if maxBytes.Some? && maxBytes.value != 0 then Ok(maxBytes.value)
    else if "max_bytes" !in pol then Err(WrongType("max_bytes"))
    else match pol["max_bytes"]
      case Num(n) => Ok(n)
      case Bool(b) => Ok(if b then 1 else 0)
      case _ => Err(WrongType("max_bytes"))
  }

  /** `pol["redact_on_read"] if redact is None else redact`, as a truth value. */
  function DoRedact(redact: Option<bool>, pol: map<string, Value>): Result<bool> {
    if redact.Some? then Ok(redact.value)
    else if "redact_on_read" in pol then Ok(Truthy(pol["redact_on_read"]))
    else Err(WrongType("redact_on_read"))
  }

  /** `pol["redaction_token"]`, which must be a string to be repeated into text. */
  function Token(pol: map<string, Value>): Result<string> {
    if "redaction_token" in pol && pol["redaction_token"].Str? then Ok(pol["redaction_token"].s)
    else Err(WrongType("redaction_token"))
  }

  // ---------------------------------------------------------------------
  // get_policy, set_policy, scan_text
  // ---------------------------------------------------------------------

  function GetPolicyEvent(): Dict { [("tool", Str("get_policy"))] }

  /** `list((patch or {}).keys())`, as JSON strings. */
  function KeyNames(patch: Dict): (r: seq<Value>)
    ensures |r| == |patch|
    ensures forall i :: 0 <= i < |r| ==> r[i] == Str(patch[i].0)
  {
    if patch == [] then [] else [Str(patch[0].0)] + KeyNames(patch[1..])
  }

  function SetPolicyEvent(patch: Option<Dict>): Dict {
    [("tool", Str("set_policy")), ("keys", Arr(KeyNames(patch.GetOr([]))))]
  }

  /** The strings a value holds, at any depth. */
  function StringsIn(v: Value): set<string>
    decreases v
  {
    match v
    case Str(s) => {s}
    case Arr(items) => set i, x | 0 <= i < |items| && x in StringsIn(items[i]) :: x
    case Obj(fields) => fields.Keys + set k, x | k in fields && x in StringsIn(fields[k]) :: x
    case _ => {}
  }

  /** The `set_policy` record names the patched keys and nothing else: every
      string it holds is the tool's name or one of the patch's keys, so no
      patched value reaches the log. */
  lemma SetPolicyLogsKeysOnly(patch: Option<Dict>, x: string)
    ensures var e := SetPolicyEvent(patch);
            forall i :: 0 <= i < |e| ==>
              (x in StringsIn(e[i].1) ==> x == "set_policy" || x in Keys(patch.GetOr([])))
  {
    var p := patch.GetOr([]);
    var names := KeyNames(p);
    if x in StringsIn(Arr(names)) {
      var i :| 0 <= i < |names| && x in StringsIn(names[i]);
      assert Keys(p)[i] == x;
    }
  }

  function ScanEvent(findings: seq<Finding>): Dict {
    [("tool", Str("scan_text")), ("findings", Num(|findings|))]
  }

  // ---------------------------------------------------------------------
  // list_dir
  // ---------------------------------------------------------------------

  /** Python's `<` on strings: code-point lexicographic order. */
  predicate StrLeq(a: string, b: string) {
    a == [] || (b != [] && (a[0] < b[0] || (a[0] == b[0] && StrLeq(a[1..], b[1..]))))
  }

  lemma {:induction false} StrLeqTotal(a: string, b: string)
    ensures StrLeq(a, b) || StrLeq(b, a)
  {
    if a != [] && b != [] && a[0] == b[0] {
      StrLeqTotal(a[1..], b[1..]);
    }
  }

  predicate NamesSorted(s: seq<string>) {
    forall i :: 0 < i < |s| ==> StrLeq(s[i - 1], s[i])
  }

  function InsertName(x: string, s: seq<string>): (r: seq<string>)
    ensures multiset(r) == multiset(s) + multiset{x}
    ensures |r| == |s| + 1
    ensures r[0] == x || (s != [] && r[0] == s[0])
    ensures NamesSorted(s) ==> NamesSorted(r)
  {
    if s == [] || StrLeq(x, s[0]) then [x] + s
    else
      assert s == [s[0]] + s[1..];
      StrLeqTotal(x, s[0]);
      var t := InsertName(x, s[1..]);
      InsertNameStep(x, s, t);
      [s[0]] + t
  }

  /** The recursive step of `InsertName` keeps the order. */
  lemma InsertNameStep(x: string, s: seq<string>, t: seq<string>)
    requires s != [] && StrLeq(s[0], x) && t != []
    requires t[0] == x || (|s| > 1 && t[0] == s[1])
    requires NamesSorted(s[1..]) ==> NamesSorted(t)
    ensures NamesSorted(s) ==> NamesSorted([s[0]] + t)
  {
    if NamesSorted(s) {
      var tail := s[1..];
      assert NamesSorted(tail) by {
        forall i | 0 < i < |tail| ensures StrLeq(tail[i - 1], tail[i]) {
          assert tail[i - 1] == s[i] && tail[i] == s[i + 1];
        }
      }
      var r := [s[0]] + t;
      forall i | 0 < i < |r| ensures StrLeq(r[i - 1], r[i]) {
        if i > 1 {
          assert r[i - 1] == t[i - 2] && r[i] == t[i - 1];
        }
      }
    }
  }

  /** `sorted(base.iterdir())`: the directory's names in ascending order. */
  function SortNames(names: seq<string>): (r: seq<string>)
    ensures multiset(r) == multiset(names)
    ensures NamesSorted(r)
  {
    if names == [] then []
    else
      assert names == [names[0]] + names[1..];
      InsertName(names[0], SortNames(names[1..]))
  }

  /** One entry of the listing. */
  datatype Item = FileItem(name: string, relpath: string, uri: string) | DirItem(name: string, relpath: string)

  datatype Listing = Listing(root: Value, items: seq<Item>)

  /** What one child contributes: a file only when the policy allows it, a
      directory always, anything else nothing. */
  function ItemFor(w: World, pol: map<string, Value>, rootDir: string, child: seq<string>): Result<seq<Item>> {
    if IsFile(w, child) then
      var allowed :- AllowedByPolicy(child, pol);
      if allowed then
        var rel :- RelativeTo(child, rootDir);
        Ok([FileItem(Name(child), PosixString(rel), "privacy://" + PosixString(rel))])
      else Ok([])
    else if IsDir(w, child) then
      var rel :- RelativeTo(child, rootDir);
      Ok([DirItem(Name(child) + "/", PosixString(rel))])
    else Ok([])
  }

  /** The items the children `names` of `base` contribute through `item`,
      in order; the first failure stops the listing. */
  function Collect(item: seq<string> -> Result<seq<Item>>, base: seq<string>, names: seq<string>): Result<seq<Item>> {
    if names == [] then Ok([])
    else
      var before :- Collect(item, base, names[..|names| - 1]);
      var last :- item(base + [names[|names| - 1]]);
      Ok(before + last)
  }

  /** A failure part-way through fails the whole listing. */
  lemma {:induction false} CollectFailure(item: seq<string> -> Result<seq<Item>>, base: seq<string>,
                                          names: seq<string>, k: nat)
    requires k <= |names| && Collect(item, base, names[..k]).Err?
    ensures Collect(item, base, names) == Collect(item, base, names[..k])
    decreases |names| - k
  {
    if k < |names| {
      var longer := names[..k + 1];
      assert longer[..|longer| - 1] == names[..k];
      CollectFailure(item, base, names, k + 1);
    } else {
      assert names[..k] == names;
    }
  }

  /** Every collected item comes from one of the children ... */
  lemma {:induction false} CollectSound(item: seq<string> -> Result<seq<Item>>, base: seq<string>,
                                        names: seq<string>, it: Item)
    requires Collect(item, base, names).Ok? && it in Collect(item, base, names).value
    ensures exists j :: 0 <= j < |names| && item(base + [names[j]]).Ok? && it in item(base + [names[j]]).value
    decreases |names|
  {
    var init := names[..|names| - 1];
    if it in Collect(item, base, init).value {
      CollectSound(item, base, init, it);
      var j :| 0 <= j < |init| && item(base + [init[j]]).Ok? && it in item(base + [init[j]]).value;
      assert init[j] == names[j];
    } else {
      assert it in item(base + [names[|names| - 1]]).value;
    }
  }

  /** ... and everything a child contributes is collected. */
  lemma {:induction false} CollectInclude(item: seq<string> -> Result<seq<Item>>, base: seq<string>,
                                          names: seq<string>, k: nat)
    requires Collect(item, base, names).Ok? && k < |names|
    ensures item(base + [names[k]]).Ok?
    ensures forall it :: it in item(base + [names[k]]).value ==> it in Collect(item, base, names).value
    decreases |names|
  {
    var init := names[..|names| - 1];
    if k < |init| {
      CollectInclude(item, base, init, k);
      assert init[k] == names[k];
    }
  }

  /** The items of the children `names` of `base`. */
  function ItemsFor(w: World, pol: map<string, Value>, rootDir: string, base: seq<string>,
                    names: seq<string>): Result<seq<Item>>
  {
    Collect(child => ItemFor(w, pol, rootDir, child), base, names)
  }

  /** What a child contributes: a directory its name with a `/`, a file the
      policy allows its name, and nothing else. */
  lemma ItemForShape(w: World, pol: map<string, Value>, rootDir: string, base: seq<string>, n: string)
    requires ItemFor(w, pol, rootDir, base + [n]).Ok?
    ensures var items := ItemFor(w, pol, rootDir, base + [n]).value;
            && (IsDir(w, base + [n]) ==> |items| == 1 && items[0].DirItem? && items[0].name == n + "/")
            && (IsFile(w, base + [n]) && AllowedByPolicy(base + [n], pol) == Ok(true) ==>
                  |items| == 1 && items[0].FileItem? && items[0].name == n)
            && (forall it :: it in items && it.FileItem? ==>
                  it.name == n && IsFile(w, base + [n]) && AllowedByPolicy(base + [n], pol) == Ok(true))
            && (forall it :: it in items && it.DirItem? ==> it.name == n + "/" && IsDir(w, base + [n]))
  {
    assert Name(base + [n]) == n;
  }

  /** Every item of a listing is a directory child, or a file child the
      policy allows; its name is the child's name (with `/` for a
      directory). */
  lemma ItemsSound(w: World, pol: map<string, Value>, rootDir: string,
                   base: seq<string>, names: seq<string>, it: Item)
    requires ItemsFor(w, pol, rootDir, base, names).Ok? && it in ItemsFor(w, pol, rootDir, base, names).value
    ensures it.FileItem? ==> exists n :: n in names && it.name == n && IsFile(w, base + [n])
                                         && AllowedByPolicy(base + [n], pol) == Ok(true)
    ensures it.DirItem? ==> exists n :: n in names && it.name == n + "/" && IsDir(w, base + [n])
  {
    var item := child => ItemFor(w, pol, rootDir, child);
    CollectSound(item, base, names, it);
    var j :| 0 <= j < |names| && item(base + [names[j]]).Ok? && it in item(base + [names[j]]).value;
    ItemForShape(w, pol, rootDir, base, names[j]);
  }

  /** Every directory child is listed, and so is every file child the policy
      allows. */
  lemma ItemsComplete(w: World, pol: map<string, Value>, rootDir: string,
                      base: seq<string>, names: seq<string>, k: nat)
    requires ItemsFor(w, pol, rootDir, base, names).Ok? && k < |names|
    ensures var items := ItemsFor(w, pol, rootDir, base, names).value;
            && (IsDir(w, base + [names[k]]) ==> exists it :: it in items && it.DirItem? && it.name == names[k] + "/")
            && (IsFile(w, base + [names[k]]) && AllowedByPolicy(base + [names[k]], pol) == Ok(true) ==>
                  exists it :: it in items && it.FileItem? && it.name == names[k])
  {
    var item := child => ItemFor(w, pol, rootDir, child);
    CollectInclude(item, base, names, k);
    ItemForShape(w, pol, rootDir, base, names[k]);
    var one := ItemFor(w, pol, rootDir, base + [names[k]]).value;
    if IsDir(w, base + [names[k]]) || (IsFile(w, base + [names[k]]) && AllowedByPolicy(base + [names[k]], pol) == Ok(true)) {
      assert one[0] in one;
    }
  }

  function ListEvent(relpath: string, items: seq<Item>): Dict {
    [("tool", Str("list_dir")), ("relpath", Str(relpath)), ("returned", Num(|items|))]
  }

  /** `list_dir(relpath)` */
  function ListDirOutcome(pol: map<string, Value>, w: World, relpath: string): Outcome<Listing>
    requires Normal(w.cwd)
  {
    var root := RootDir(pol);
    if root.Err? then Outcome(Err(root.error), None)
    else
      var base := SafeResolve(if relpath == "" then "." else relpath, root.value, w.cwd);
      if base.Err? then Outcome(Err(base.error), None)
      else if !IsDir(w, base.value) then Outcome(Err(FileNotFound("Not a directory")), None)
      else
        var items := ItemsFor(w, pol, root.value, base.value, SortNames(w.files[base.value].names));
        if items.Err? then Outcome(Err(items.error), None)
        else Outcome(Ok(Listing(pol["root_dir"], items.value)), Some(ListEvent(relpath, items.value)))
  }

  /** A listing is logged exactly when it succeeds, with the number of items
      it returns; a base that is not a directory raises and logs nothing. */
  lemma ListDirLogs(pol: map<string, Value>, w: World, relpath: string)
    requires Normal(w.cwd)
    ensures var o := ListDirOutcome(pol, w, relpath);
            && (o.event.Some? <==> o.result.Ok?)
            && (o.result.Ok? ==> o.event == Some(ListEvent(relpath, o.result.value.items))
                                 && o.event.value[2].1 == Num(|o.result.value.items|))
            && (RootDir(pol).Ok? && SafeResolve(if relpath == "" then "." else relpath, RootDir(pol).value, w.cwd).Ok?
                && !IsDir(w, SafeResolve(if relpath == "" then "." else relpath, RootDir(pol).value, w.cwd).value)
                ==> o == Outcome(Err(FileNotFound("Not a directory")), None))
  {
  }

  // ---------------------------------------------------------------------
  // safe_read_file
  // ---------------------------------------------------------------------

  datatype ReadResult = ReadResult(content: string, snipped: bool, findings: seq<Finding>, redactions: nat)

  function DeniedEvent(relpath: string): Dict {
    [("tool", Str("safe_read_file")), ("relpath", Str(relpath)), ("denied", Bool(true))]
  }

  function ReadEvent(relpath: string, snipped: bool, findings: nat, redactions: nat): Dict {
    [("tool", Str("safe_read_file")), ("relpath", Str(relpath)), ("snipped", Bool(snipped)),
     ("findings", Num(findings)), ("redactions", Num(redactions))]
  }

  /** The resolved path of an existing file: the policy's root, the sandbox
      check and the existence check, each failing in turn. */
  function Target(pol: map<string, Value>, w: World, relpath: string, missing: string): (r: Result<seq<string>>)
    requires Normal(w.cwd)
    ensures r.Ok? ==> IsFile(w, r.value) && RootDir(pol).Ok?
                      && r == SafeResolve(relpath, RootDir(pol).value, w.cwd)
    ensures r.Err? ==> r.error == WrongType("root_dir") || r.error == EscapesRoot || r.error == FileNotFound(missing)
    ensures RootDir(pol).Ok? && SafeResolve(relpath, RootDir(pol).value, w.cwd).Ok?
            && !IsFile(w, SafeResolve(relpath, RootDir(pol).value, w.cwd).value)
            ==> r == Err(FileNotFound(missing))
  {
    var rootDir :- RootDir(pol);
    var path :- SafeResolve(relpath, rootDir, w.cwd);
    if IsFile(w, path) then Ok(path) else Err(FileNotFound(missing))
  }

  /** A read of a file the policy allows, from its bytes on: cap, decode,
      detect, and redact when asked to. */
  function ReadAllowed(pol: map<string, Value>, w: World, relpath: string, bytes: seq<byte>,
                       maxBytes: Option<int>, redact: Option<bool>): (o: Outcome<ReadResult>)
    ensures o.result.Ok? ==> o.event == Some(ReadEvent(relpath, o.result.value.snipped,
                                                       |o.result.value.findings|, o.result.value.redactions))
    ensures o.result.Err? ==> o.event == None && o.result.error.WrongType?
  {
    var cap := ByteCap(maxBytes, pol);
    if cap.Err? then Outcome(Err(cap.error), None)
    else
      var rt := ReadTextSafely(bytes, cap.value, w.decode);
      var findings := Detected(rt.content, UsePresidio(pol), Entities(pol), w.battery, w.engine);
      var doRedact := DoRedact(redact, pol);
      if doRedact.Err? then Outcome(Err(doRedact.error), None)
      else if doRedact.value && findings != [] then
        var token := Token(pol);
        if token.Err? then Outcome(Err(token.error), None)
        else
          var content := MaskAll(rt.content, SortByStartDesc(findings), token.value);
          Outcome(Ok(ReadResult(content, rt.snipped, findings, |findings|)),
                  Some(ReadEvent(relpath, rt.snipped, |findings|, |findings|)))
      else
        Outcome(Ok(ReadResult(rt.content, rt.snipped, findings, 0)),
                Some(ReadEvent(relpath, rt.snipped, |findings|, 0)))
  }

  /** `safe_read_file(relpath, max_bytes, redact)` */
  function ReadFile(pol: map<string, Value>, w: World, relpath: string,
                    maxBytes: Option<int>, redact: Option<bool>): Outcome<ReadResult>
    requires Normal(w.cwd)
  {
    var path := Target(pol, w, relpath, "File not found");
    if path.Err? then Outcome(Err(path.error), None)
    else
      var allowed := AllowedByPolicy(path.value, pol);
      if allowed.Err? then Outcome(Err(allowed.error), None)
      else if !allowed.value then Outcome(Err(DeniedByPolicy), Some(DeniedEvent(relpath)))
      else ReadAllowed(pol, w, relpath, w.files[path.value].bytes, maxBytes, redact)
  }

  /** Which reads write a record: every successful read, and a read the
      policy denies, which writes `{tool, relpath, denied: True}` and returns
      no content. Every other failure writes nothing. */
  lemma ReadFileLogs(pol: map<string, Value>, w: World, relpath: string,
                     maxBytes: Option<int>, redact: Option<bool>)
    requires Normal(w.cwd)
    ensures var o := ReadFile(pol, w, relpath, maxBytes, redact);
            && (o.event.Some? <==> o.result.Ok? || o.result == Err(DeniedByPolicy))
            && (o.result == Err(DeniedByPolicy) ==> o.event == Some(DeniedEvent(relpath)))
            && (o.result.Ok? ==> o.event == Some(ReadEvent(relpath, o.result.value.snipped,
                                                           |o.result.value.findings|, o.result.value.redactions)))
  {
    var path := Target(pol, w, relpath, "File not found");
    if path.Ok? {
      AllowedErrorKinds(path.value, pol);
    }
  }

  /** The order of the checks: a path that resolves inside the root but is not
      a file raises FileNotFoundError and writes nothing; an existing file the
      policy denies raises PermissionError after writing the denial record;
      an allowed file is read. */
  lemma ReadStages(pol: map<string, Value>, w: World, relpath: string,
                   maxBytes: Option<int>, redact: Option<bool>)
    requires Normal(w.cwd) && RootDir(pol).Ok?
    requires SafeResolve(relpath, RootDir(pol).value, w.cwd).Ok?
    ensures var path := SafeResolve(relpath, RootDir(pol).value, w.cwd).value;
            && (!IsFile(w, path) ==>
                  ReadFile(pol, w, relpath, maxBytes, redact) == Outcome(Err(FileNotFound("File not found")), None))
            && (IsFile(w, path) && AllowedByPolicy(path, pol) == Ok(false) ==>
                  ReadFile(pol, w, relpath, maxBytes, redact) == Outcome(Err(DeniedByPolicy), Some(DeniedEvent(relpath))))
            && (IsFile(w, path) && AllowedByPolicy(path, pol) == Ok(true) ==>
                  ReadFile(pol, w, relpath, maxBytes, redact) == ReadAllowed(pol, w, relpath, w.files[path].bytes, maxBytes, redact))
  {
  }

  /** The effective redaction flag is `redact` when given, else the policy's
      `redact_on_read`; a read redacts (and counts one redaction per finding)
      exactly when that flag holds and there are findings, and otherwise
      returns the decoded text unchanged. */
  lemma ReadRedacts(pol: map<string, Value>, w: World, relpath: string, bytes: seq<byte>,
                    maxBytes: Option<int>, redact: Option<bool>)
    ensures var o := ReadAllowed(pol, w, relpath, bytes, maxBytes, redact);
            var flag := if redact.Some? then redact.value else "redact_on_read" in pol && Truthy(pol["redact_on_read"]);
            o.result.Ok? ==>
              && (o.result.value.redactions > 0 <==> flag && o.result.value.findings != [])
              && (o.result.value.redactions > 0 ==> o.result.value.redactions == |o.result.value.findings|)
              && (o.result.value.redactions == 0 ==>
                    o.result.value.content == ReadTextSafely(bytes, ByteCap(maxBytes, pol).value, w.decode).content)
  {
  }

  /** The byte cap is `max_bytes` when it is given and non-zero, otherwise
      the policy's; `snipped` says whether the file was longer than that,
      and the findings are those of the text as decoded. */
  lemma ReadCap(pol: map<string, Value>, w: World, relpath: string, bytes: seq<byte>,
                maxBytes: Option<int>, redact: Option<bool>)
    ensures var o := ReadAllowed(pol, w, relpath, bytes, maxBytes, redact);
            o.result.Ok? ==>
              && ByteCap(maxBytes, pol).Ok?
              && (o.result.value.snipped <==> |bytes| > ByteCap(maxBytes, pol).value)
              && o.result.value.findings ==
                   Detected(ReadTextSafely(bytes, ByteCap(maxBytes, pol).value, w.decode).content,
                            UsePresidio(pol), Entities(pol), w.battery, w.engine)
  {
  }

  /** The regex detector's spans lie inside the text it scanned. */
  lemma RegexInBounds(text: string, b: Battery)
    ensures InBounds(RegexFindings(text, b), |text|)
  {
    var fs := RegexFindings(text, b);
    RegexFindingsArranged(text, b);
    forall f | f in fs ensures 0 <= f.start <= f.end <= |text| {
      var i :| 0 <= i < |fs| && fs[i] == f;
    }
  }

  /** With the regex detector and a one-character token (the default `█`),
      a redacting read keeps the text's length, puts the token on every
      character of every finding and leaves every other character as
      decoded. */
  lemma ReadMasksFindings(pol: map<string, Value>, w: World, relpath: string, bytes: seq<byte>,
                          maxBytes: Option<int>, redact: Option<bool>, c: char)
    requires !Truthy(UsePresidio(pol)) && Token(pol) == Ok([c])
    ensures var o := ReadAllowed(pol, w, relpath, bytes, maxBytes, redact);
            o.result.Ok? && o.result.value.redactions > 0 ==>
              var text := ReadTextSafely(bytes, ByteCap(maxBytes, pol).value, w.decode).content;
              && |o.result.value.content| == |text|
              && forall i :: 0 <= i < |text| ==>
                   o.result.value.content[i] == (if Covered(o.result.value.findings, i) then c else text[i])
  {
    var o := ReadAllowed(pol, w, relpath, bytes, maxBytes, redact);
    if o.result.Ok? && o.result.value.redactions > 0 {
      var text := ReadTextSafely(bytes, ByteCap(maxBytes, pol).value, w.decode).content;
      var fs := RegexFindings(text, w.battery);
      assert o.result.value.findings == fs;
      assert o.result.value.content == MaskAll(text, SortByStartDesc(fs), [c]);
      RegexInBounds(text, w.battery);
      RedactedMask(text, fs, c);
    }
  }

  /** The records a read writes (see `ReadFileLogs`) hold no file content
      and no matched text: their only strings are the tool's name and the
      relpath asked for. */
  lemma ReadLogsNoContent(relpath: string, snipped: bool, findings: nat, redactions: nat)
    ensures var e := DeniedEvent(relpath);
            forall i :: 0 <= i < |e| ==> StringsIn(e[i].1) <= {"safe_read_file", relpath}
    ensures var e := ReadEvent(relpath, snipped, findings, redactions);
            forall i :: 0 <= i < |e| ==> StringsIn(e[i].1) <= {"safe_read_file", relpath}
  {
    FlatStrings(DeniedEvent(relpath), {"safe_read_file", relpath});
    FlatStrings(ReadEvent(relpath, snipped, findings, redactions), {"safe_read_file", relpath});
  }

  /** A record of strings, numbers and flags holds only its own strings. */
  lemma FlatStrings(e: Dict, allowed: set<string>)
    requires forall i :: 0 <= i < |e| ==> !e[i].1.Arr? && !e[i].1.Obj? && (e[i].1.Str? ==> e[i].1.s in allowed)
    ensures forall i :: 0 <= i < |e| ==> StringsIn(e[i].1) <= allowed
  {
  }

  // ---------------------------------------------------------------------
  // copy_redacted_file
  // ---------------------------------------------------------------------

  /** `str(Path("redacted") / (out_relpath or (src.name + ".redacted.txt")))` */
  function DestString(srcName: string, outRelpath: Option<string>): string {
    var x := if outRelpath.Some? && outRelpath.value != "" then outRelpath.value else srcName + ".redacted.txt";
    if IsAbsolute(x) then PathString(Clean(Split(x))) else Join(["redacted"] + Clean(Split(x)))
  }

  datatype Copied = Copied(dest: string, redactions: nat, findings: seq<Finding>, text: string)

  function CopyEvent(relpath: string, dest: string, redactions: nat): Dict {
    [("tool", Str("copy_redacted_file")), ("src", Str(relpath)), ("dest", Str(dest)), ("redactions", Num(redactions))]
  }

  /** A copy of a file the policy allows, from its bytes on: the text is
      always redacted, capped by the policy's `max_bytes`. */
  function CopyAllowed(pol: map<string, Value>, w: World, relpath: string, srcName: string, bytes: seq<byte>,
                       outRelpath: Option<string>): (o: Outcome<Copied>)
    ensures o.result.Ok? ==> o.event == Some(CopyEvent(relpath, o.result.value.dest, o.result.value.redactions))
                             && o.result.value.redactions == |o.result.value.findings|
                             && o.result.value.dest == DestString(srcName, outRelpath)
    ensures o.result.Err? ==> o.event == None && o.result.error.WrongType?
  {
    var cap := ByteCap(None, pol);
    if cap.Err? then Outcome(Err(cap.error), None)
    else
      var rt := ReadTextSafely(bytes, cap.value, w.decode);
      var findings := Detected(rt.content, UsePresidio(pol), Entities(pol), w.battery, w.engine);
      var token := Token(pol);
      if "redaction_token" !in pol || (findings != [] && token.Err?) then Outcome(Err(token.error), None)
      else
        var text := if findings == [] then rt.content else MaskAll(rt.content, SortByStartDesc(findings), token.value);
        var dest := DestString(srcName, outRelpath);
        Outcome(Ok(Copied(dest, |findings|, findings, text)), Some(CopyEvent(relpath, dest, |findings|)))
  }

  /** `copy_redacted_file(relpath, out_relpath)`: the result, the record,
      and the text written to `dest`. */
  function CopyFile(pol: map<string, Value>, w: World, relpath: string, outRelpath: Option<string>): Outcome<Copied>
    requires Normal(w.cwd)
  {
    var src := Target(pol, w, relpath, "Source not found");
    if src.Err? then Outcome(Err(src.error), None)
    else
      var allowed := AllowedByPolicy(src.value, pol);
      if allowed.Err? then Outcome(Err(allowed.error), None)
      else if !allowed.value then Outcome(Err(DeniedByPolicy), None)
      else CopyAllowed(pol, w, relpath, Name(src.value), w.files[src.value].bytes, outRelpath)
  }

  /** `{dest, redactions, findings}`, what a copy returns. */
  function CopyReply(res: Result<Copied>): (r: Result<(string, nat, seq<Finding>)>)
    ensures r.Ok? <==> res.Ok?
    ensures r.Err? ==> r.error == res.error
    ensures r.Ok? ==> r.value.0 == res.value.dest && r.value.1 == res.value.redactions && r.value.2 == res.value.findings
  {
    if res.Ok? then Ok((res.value.dest, res.value.redactions, res.value.findings)) else Err(res.error)
  }

  /** The files written by copies after one more copy: a successful copy
      (over)writes its destination, a failed one writes nothing. */
  function AfterCopy(written: map<seq<string>, string>, res: Result<Copied>, cwd: seq<string>): (r: map<seq<string>, string>)
    requires Normal(cwd)
    ensures res.Err? ==> r == written
    ensures res.Ok? ==> Resolve(res.value.dest, cwd) in r && r[Resolve(res.value.dest, cwd)] == res.value.text
    ensures res.Ok? ==> r.Keys == written.Keys + {Resolve(res.value.dest, cwd)}
    ensures forall p :: p in written && (res.Err? || p != Resolve(res.value.dest, cwd)) ==> p in r && r[p] == written[p]
  {
    if res.Ok? then written[Resolve(res.value.dest, cwd) := res.value.text] else written
  }

  /** Unlike a read, a denied copy raises without writing a record; only a
      successful copy is logged, and it counts one redaction per finding. */
  lemma CopyLogs(pol: map<string, Value>, w: World, relpath: string, outRelpath: Option<string>)
    requires Normal(w.cwd)
    ensures var o := CopyFile(pol, w, relpath, outRelpath);
            && (o.event.Some? <==> o.result.Ok?)
            && (o.result.Ok? ==> o.event == Some(CopyEvent(relpath, o.result.value.dest, o.result.value.redactions))
                                 && o.result.value.redactions == |o.result.value.findings|)
            && (RootDir(pol).Ok? && SafeResolve(relpath, RootDir(pol).value, w.cwd).Ok?
                && IsFile(w, SafeResolve(relpath, RootDir(pol).value, w.cwd).value)
                && AllowedByPolicy(SafeResolve(relpath, RootDir(pol).value, w.cwd).value, pol) == Ok(false)
                ==> o == Outcome(Err(DeniedByPolicy), None))
  {
  }

  /** With the regex detector and a one-character token, the copy keeps the
      text's length, puts the token on every character of every finding and
      leaves every other character as decoded. */
  lemma CopyMasksFindings(pol: map<string, Value>, w: World, relpath: string, srcName: string,
                          bytes: seq<byte>, outRelpath: Option<string>, c: char)
    requires !Truthy(UsePresidio(pol)) && Token(pol) == Ok([c])
    ensures var o := CopyAllowed(pol, w, relpath, srcName, bytes, outRelpath);
            o.result.Ok? ==>
              var text := ReadTextSafely(bytes, ByteCap(None, pol).value, w.decode).content;
              && |o.result.value.text| == |text|
              && forall i :: 0 <= i < |text| ==>
                   o.result.value.text[i] == (if Covered(o.result.value.findings, i) then c else text[i])
  {
    var o := CopyAllowed(pol, w, relpath, srcName, bytes, outRelpath);
    if o.result.Ok? {
      var text := ReadTextSafely(bytes, ByteCap(None, pol).value, w.decode).content;
      var fs := RegexFindings(text, w.battery);
      assert o.result.value.findings == fs;
      assert fs != [] ==> o.result.value.text == MaskAll(text, SortByStartDesc(fs), [c]);
      RegexInBounds(text, w.battery);
      RedactedMask(text, fs, c);
    }
  }

  /** A copy always redacts, whatever `redact_on_read` says. */
  lemma CopyIgnoresRedactOnRead(pol: map<string, Value>, w: World, relpath: string, outRelpath: Option<string>, v: Value)
    requires Normal(w.cwd)
    ensures CopyFile(pol["redact_on_read" := v], w, relpath, outRelpath) == CopyFile(pol, w, relpath, outRelpath)
  {
    var pol' := pol["redact_on_read" := v];
    assert RootDir(pol') == RootDir(pol);
    var src := Target(pol, w, relpath, "Source not found");
    assert Target(pol', w, relpath, "Source not found") == src;
    if src.Ok? {
      AllowedIgnoresOtherKeys(src.value, pol, "redact_on_read", v);
      CopyAllowedIgnoresRedactOnRead(pol, w, relpath, Name(src.value), w.files[src.value].bytes, outRelpath, v);
    }
  }

  lemma CopyAllowedIgnoresRedactOnRead(pol: map<string, Value>, w: World, relpath: string, srcName: string,
                                       bytes: seq<byte>, outRelpath: Option<string>, v: Value)
    ensures CopyAllowed(pol["redact_on_read" := v], w, relpath, srcName, bytes, outRelpath)
         == CopyAllowed(pol, w, relpath, srcName, bytes, outRelpath)
  {
    var pol' := pol["redact_on_read" := v];
    assert ByteCap(None, pol') == ByteCap(None, pol);
    assert Token(pol') == Token(pol);
    assert UsePresidio(pol') == UsePresidio(pol) && Entities(pol') == Entities(pol);
  }

  lemma {:induction false} CleanParts(parts: seq<string>)
    ensures forall i :: 0 <= i < |Clean(parts)| ==>
              Clean(parts)[i] in parts && Clean(parts)[i] != "" && Clean(parts)[i] != "."
  {
    if parts != [] {
      CleanParts(parts[1..]);
    }
  }

  /** A relative `out_relpath` without `..` lands below `redacted/` in the
      working directory ... */
  lemma DestBelowRedacted(cwd: seq<string>, srcName: string, outRelpath: Option<string>)
    requires Normal(cwd)
    requires var x := if outRelpath.Some? && outRelpath.value != "" then outRelpath.value else srcName + ".redacted.txt";
             !IsAbsolute(x) && forall i :: 0 <= i < |Split(x)| ==> Split(x)[i] != ".."
    ensures IsPrefix(cwd + ["redacted"], Resolve(DestString(srcName, outRelpath), cwd))
  {
    var x := if outRelpath.Some? && outRelpath.value != "" then outRelpath.value else srcName + ".redacted.txt";
    var rest := Clean(Split(x));
    CleanParts(Split(x));
    assert DestString(srcName, outRelpath) == Join(["redacted"] + rest);
    ResolveBelowRedacted(cwd, rest);
  }

  /** `redacted/` followed by plain names resolves below `redacted/`. */
  lemma ResolveBelowRedacted(cwd: seq<string>, rest: seq<string>)
    requires Normal(cwd) && Normal(rest)
    ensures Resolve(Join(["redacted"] + rest), cwd) == cwd + ["redacted"] + rest
  {
    RedactedJoin(rest);
    RedactedWalk(cwd, rest);
  }

  lemma RedactedJoin(rest: seq<string>)
    requires Normal(rest)
    ensures Split(Join(["redacted"] + rest)) == ["redacted"] + rest
    ensures !IsAbsolute(Join(["redacted"] + rest))
  {
    var parts := ["redacted"] + rest;
    assert parts[0] == "redacted" && parts[1..] == rest;
    assert NoSlash(parts) by {
      forall i | 0 <= i < |parts| ensures '/' !in parts[i] {
        if i > 0 {
          assert parts[i] == rest[i - 1] && IsName(rest[i - 1]);
        }
      }
    }
    SplitJoin(parts);
    var s := Join(parts);
    if rest != [] {
      assert s == parts[0] + "/" + Join(parts[1..]);
    }
    assert s[0] == 'r';
  }

  lemma RedactedWalk(cwd: seq<string>, rest: seq<string>)
    requires Normal(rest)
    ensures Walk(cwd, ["redacted"] + rest) == cwd + ["redacted"] + rest
  {
    var parts := ["redacted"] + rest;
    assert parts[0] == "redacted" && parts[1..] == rest;
    forall i | 0 <= i < |parts| ensures parts[i] != ".." {
      if i > 0 {
        assert parts[i] == rest[i - 1] && IsName(rest[i - 1]);
      }
    }
    WalkDown(cwd, parts);
    CleanNames(rest);
  }

  /** Plain names are left as they are by `Clean`. */
  lemma {:induction false} CleanNames(rest: seq<string>)
    requires Normal(rest)
    ensures Clean(rest) == rest
  {
    if rest != [] {
      CleanNames(rest[1..]);
    }
  }

  /** ... but nothing confines it there: an absolute `out_relpath` writes
      where it names ... */
  lemma DestAbsolute(cwd: seq<string>, srcName: string, name: string)
    requires Normal(cwd) && IsName(name)
    ensures Resolve(DestString(srcName, Some("/" + name)), cwd) == [name]
  {
    SplitAppend("", name);
    SplitName(name);
    assert "" + "/" + name == "/" + name;
    var parts := Split("/" + name);
    assert parts == ["", name];
    assert parts[1..] == [name];
    assert Clean(parts) == [name];
    assert DestString(srcName, Some("/" + name)) == "/" + name;
    assert Walk([], parts) == Walk([], [name]);
    assert Walk([] + [name], []) == [name];
  }

  /** ... and one that steps up leaves `redacted/`. */
  lemma DestUp(cwd: seq<string>, srcName: string, name: string)
    requires Normal(cwd) && IsName(name)
    ensures Resolve(DestString(srcName, Some("../" + name)), cwd) == cwd + [name]
  {
    SplitUpThenName(name);
    var x := "../" + name;
    assert !IsAbsolute(x);
    var up := Split(x);
    assert up[1..] == [name];
    assert Clean(up[1..]) == [name];
    assert Clean(up) == ["..", name];
    var parts := ["redacted", "..", name];
    assert ["redacted"] + Clean(up) == parts;
    var dest := Join(parts);
    assert dest == DestString(srcName, Some(x));
    assert dest == "redacted" + "/" + Join(parts[1..]);
    assert !IsAbsolute(dest) by {
      assert dest[0] == 'r';
    }
    SplitJoin(parts);
    assert Resolve(dest, cwd) == Walk(cwd, parts);
    assert parts[1..] == ["..", name] && parts[2..] == [name];
    assert Walk(cwd, parts) == Walk(cwd + ["redacted"], ["..", name]);
    assert (cwd + ["redacted"])[..|cwd|] == cwd;
    assert Walk(cwd + ["redacted"], ["..", name]) == Walk(cwd, [name]);
    assert Walk(cwd, [name]) == Walk(cwd + [name], []);
  }

  // ---------------------------------------------------------------------
  // The tools' steps, as the server performs them
  // ---------------------------------------------------------------------

  /** The loop of `list_dir` over the sorted children of `base`. */
  method ListItems(w: World, pol: map<string, Value>, rootDir: string, base: seq<string>, names: seq<string>)
    returns (r: Result<seq<Item>>)
    ensures r == ItemsFor(w, pol, rootDir, base, names)
  {
    ghost var itemOf := child => ItemFor(w, pol, rootDir, child);
    var items: seq<Item> := [];
    for i := 0 to |names|
      invariant Collect(itemOf, base, names[..i]) == Ok(items)
    {
      assert names[..i + 1][..i] == names[..i];
      var item := ItemFor(w, pol, rootDir, base + [names[i]]);
      assert item == itemOf(base + [names[i]]);
      if item.Err? {
        CollectFailure(itemOf, base, names, i + 1);
        return Err(item.error);
      }
      items := items + item.value;
    }
    assert names[..|names|] == names;
    r := Ok(items);
  }

  /** `safe_read_file` once the file is known to be allowed. */
  method ReadAllowedText(pol: map<string, Value>, w: World, relpath: string, bytes: seq<byte>,
                         maxBytes: Option<int>, redact: Option<bool>) returns (o: Outcome<ReadResult>)
    ensures o == ReadAllowed(pol, w, relpath, bytes, maxBytes, redact)
  {
    var cap := ByteCap(maxBytes, pol);
    if cap.Err? {
      return Outcome(Err(cap.error), None);
    }
    var rt := ReadTextSafely(bytes, cap.value, w.decode);
    var findings := Detect.Detect(rt.content, UsePresidio(pol), Entities(pol), w.battery, w.engine);
    var doRedact := DoRedact(redact, pol);
    if doRedact.Err? {
      return Outcome(Err(doRedact.error), None);
    }
    var content, redactions := rt.content, 0;
    if doRedact.value && findings != [] {
      var token := Token(pol);
      if token.Err? {
        return Outcome(Err(token.error), None);
      }
      content, redactions := ApplyRedactions(rt.content, findings, token.value);
    }
    o := Outcome(Ok(ReadResult(content, rt.snipped, findings, redactions)),
                 Some(ReadEvent(relpath, rt.snipped, |findings|, redactions)));
  }

  /** `copy_redacted_file` once the source is known to be allowed. */
  method CopyAllowedText(pol: map<string, Value>, w: World, relpath: string, srcName: string, bytes: seq<byte>,
                         outRelpath: Option<string>) returns (o: Outcome<Copied>)
    ensures o == CopyAllowed(pol, w, relpath, srcName, bytes, outRelpath)
  {
    var cap := ByteCap(None, pol);
    if cap.Err? {
      return Outcome(Err(cap.error), None);
    }
    var rt := ReadTextSafely(bytes, cap.value, w.decode);
    var findings := Detect.Detect(rt.content, UsePresidio(pol), Entities(pol), w.battery, w.engine);
    var token := Token(pol);
    if "redaction_token" !in pol || (findings != [] && token.Err?) {
      return Outcome(Err(token.error), None);
    }
    var redacted, count := ApplyRedactions(rt.content, findings, if token.Ok? then token.value else "");
    var dest := DestString(srcName, outRelpath);
    o := Outcome(Ok(Copied(dest, count, findings, redacted)), Some(CopyEvent(relpath, dest, count)));
  }

  /** A record whose keys are all other than `prev_hash` is unhashed. */
  lemma KeysUnhashed(e: Dict)
    requires forall i :: 0 <= i < |e| ==> e[i].0 != "prev_hash"
    ensures Unhashed(Some(e))
  {
  }

  /** Every tool builds its event from literal keys, none of them `prev_hash`,
      so every tool keeps the audit log's hash chain intact. */
  lemma ToolEventsUnhashed(pol: map<string, Value>, w: World, relpath: string, maxBytes: Option<int>,
                           redact: Option<bool>, outRelpath: Option<string>, patch: Option<Dict>,
                           findings: seq<Finding>)
    requires Normal(w.cwd)
    ensures Unhashed(Some(GetPolicyEvent())) && Unhashed(Some(SetPolicyEvent(patch)))
    ensures Unhashed(Some(ScanEvent(findings)))
    ensures Unhashed(ListDirOutcome(pol, w, relpath).event)
    ensures Unhashed(ReadFile(pol, w, relpath, maxBytes, redact).event)
    ensures Unhashed(CopyFile(pol, w, relpath, outRelpath).event)
  {
    KeysUnhashed(GetPolicyEvent());
    KeysUnhashed(SetPolicyEvent(patch));
    KeysUnhashed(ScanEvent(findings));
    ListDirUnhashed(pol, w, relpath);
    ReadFileUnhashed(pol, w, relpath, maxBytes, redact);
    CopyFileUnhashed(pol, w, relpath, outRelpath);
  }

  lemma ListDirUnhashed(pol: map<string, Value>, w: World, relpath: string)
    requires Normal(w.cwd)
    ensures Unhashed(ListDirOutcome(pol, w, relpath).event)
  {
    var o := ListDirOutcome(pol, w, relpath);
    ListDirLogs(pol, w, relpath);
    if o.event.Some? {
      KeysUnhashed(ListEvent(relpath, o.result.value.items));
    }
  }

  lemma ReadFileUnhashed(pol: map<string, Value>, w: World, relpath: string,
                         maxBytes: Option<int>, redact: Option<bool>)
    requires Normal(w.cwd)
    ensures Unhashed(ReadFile(pol, w, relpath, maxBytes, redact).event)
  {
    var o := ReadFile(pol, w, relpath, maxBytes, redact);
    ReadFileLogs(pol, w, relpath, maxBytes, redact);
    if o.result.Ok? {
      KeysUnhashed(ReadEvent(relpath, o.result.value.snipped, |o.result.value.findings|, o.result.value.redactions));
    } else if o.event.Some? {
      KeysUnhashed(DeniedEvent(relpath));
    }
  }

  lemma CopyFileUnhashed(pol: map<string, Value>, w: World, relpath: string, outRelpath: Option<string>)
    requires Normal(w.cwd)
    ensures Unhashed(CopyFile(pol, w, relpath, outRelpath).event)
  {
    var o := CopyFile(pol, w, relpath, outRelpath);
    CopyLogs(pol, w, relpath, outRelpath);
    if o.result.Ok? {
      CopyEventUnhashed(relpath, o.result.value.dest, o.result.value.redactions);
    }
  }

  lemma CopyEventUnhashed(relpath: string, dest: string, redactions: nat)
    ensures Unhashed(Some(CopyEvent(relpath, dest, redactions)))
  {
    KeysUnhashed(CopyEvent(relpath, dest, redactions));
  }

  // ---------------------------------------------------------------------
  // The server
  // ---------------------------------------------------------------------

  /** The module-level `policy` and `auditor` every tool shares, the world
      the tools run in, and the redacted copies they have written. */
  class Server {
    const policy: PolicyStore.Policy
    const auditor: Audit.Auditor
    const world: World
    /** The redacted copies written so far, by resolved path. */
    var written: map<seq<string>, string>

    /** The policy is valid over the world's working directory, and the
        audit log's hash chain is intact. */
    ghost predicate Valid()
      reads this, policy, auditor
    {
      PolicyValid() && LogIntact()
    }

    ghost predicate PolicyValid()
      reads this, policy
    {
      policy.Valid() && world.cwd == policy.cwd
    }

    ghost predicate LogIntact()
      reads this, auditor
    {
      Audit.Chained(auditor.lines, auditor.sha256, auditor.dumps)
    }

    constructor(policy: PolicyStore.Policy, auditor: Audit.Auditor, world: World)
      requires policy.Valid() && world.cwd == policy.cwd
      requires Audit.Chained(auditor.lines, auditor.sha256, auditor.dumps)
      ensures Valid()
      ensures this.policy == policy && this.auditor == auditor && this.world == world && written == map[]
    {
      this.policy := policy;
      this.auditor := auditor;
      this.world := world;
      written := map[];
    }

    /** Append the record a tool writes, if any. */
    method Record(event: Option<Dict>, ts: string)
      requires Audit.Chained(auditor.lines, auditor.sha256, auditor.dumps) && Unhashed(event)
      modifies auditor`lines
      ensures auditor.lines == Logged(old(auditor.lines), event, ts, auditor.sha256, auditor.dumps)
      ensures Audit.Chained(auditor.lines, auditor.sha256, auditor.dumps)
    {
      LoggedKeepsChain(auditor.lines, event, ts, auditor.sha256, auditor.dumps);
      if event.Some? {
        auditor.Log(event.value, ts);
      }
    }

    /** `get_policy()` */
    method GetPolicy(ts: string) returns (r: map<string, Value>)
      requires Valid()
      modifies auditor`lines
      ensures Valid()
      ensures r == policy.data
      ensures auditor.lines == Logged(old(auditor.lines), Some(GetPolicyEvent()), ts, auditor.sha256, auditor.dumps)
    {
      KeysUnhashed(GetPolicyEvent());
      Record(Some(GetPolicyEvent()), ts);
      r := policy.data;
    }

    /** `set_policy(patch)`: patch and persist, then log the key names. The
        patch arrives as a Python dict, so no key occurs in it twice. */
    method SetPolicy(patch: Option<Dict>, ts: string) returns (r: map<string, Value>)
      requires Valid()
      requires patch.Some? ==> UniqueKeys(patch.value)
      modifies policy, auditor`lines
      ensures Valid()
      ensures policy.data == PolicyStore.Patched(old(policy.data), patch)
      ensures policy.file == PolicyStore.Parsed(Obj(policy.data))
      ensures r == policy.data
      ensures auditor.lines == Logged(old(auditor.lines), Some(SetPolicyEvent(patch)), ts, auditor.sha256, auditor.dumps)
    {
      var p := patch.GetOr([]);
      assert PolicyStore.Patched(policy.data, Some(p)) == PolicyStore.Patched(policy.data, patch);
      r := policy.Patch(Some(p));
      KeysUnhashed(SetPolicyEvent(patch));
      Record(Some(SetPolicyEvent(patch)), ts);
    }

    /** `list_dir(relpath)` */
    method ListDir(relpath: string, ts: string) returns (r: Result<Listing>)
      requires Valid()
      modifies auditor`lines
      ensures Valid()
      ensures r == ListDirOutcome(policy.data, world, relpath).result
      ensures auditor.lines == Logged(old(auditor.lines), ListDirOutcome(policy.data, world, relpath).event,
                                      ts, auditor.sha256, auditor.dumps)
    {
      var pol := policy.data;
      var root := RootDir(pol);
      if root.Err? {
        return Err(root.error);
      }
      var base := SafeResolve(if relpath == "" then "." else relpath, root.value, world.cwd);
      if base.Err? {
        return Err(base.error);
      }
      if !IsDir(world, base.value) {
        return Err(FileNotFound("Not a directory"));
      }
      var items := ListItems(world, pol, root.value, base.value, SortNames(world.files[base.value].names));
      if items.Err? {
        return Err(items.error);
      }
      KeysUnhashed(ListEvent(relpath, items.value));
      Record(Some(ListEvent(relpath, items.value)), ts);
      r := Ok(Listing(pol["root_dir"], items.value));
    }

    /** `scan_text(text)` */
    method ScanText(text: string, ts: string) returns (findings: seq<Finding>)
      requires Valid()
      modifies auditor`lines
      ensures Valid()
      ensures findings == Detected(text, UsePresidio(policy.data), Entities(policy.data), world.battery, world.engine)
      ensures auditor.lines == Logged(old(auditor.lines), Some(ScanEvent(findings)), ts, auditor.sha256, auditor.dumps)
    {
      var pol := policy.data;
      findings := Detect.Detect(text, UsePresidio(pol), Entities(pol), world.battery, world.engine);
      KeysUnhashed(ScanEvent(findings));
      Record(Some(ScanEvent(findings)), ts);
      assert policy.data == pol;
    }

    /** `safe_read_file(relpath, max_bytes, redact)`: a denial is logged
        before PermissionError is raised, a successful read before it
        returns. */
    method SafeReadFile(relpath: string, maxBytes: Option<int>, redact: Option<bool>, ts: string)
      returns (r: Result<ReadResult>)
      requires Valid()
      modifies auditor`lines
      ensures Valid()
      ensures r == ReadFile(policy.data, world, relpath, maxBytes, redact).result
      ensures auditor.lines == Logged(old(auditor.lines), ReadFile(policy.data, world, relpath, maxBytes, redact).event,
                                      ts, auditor.sha256, auditor.dumps)
    {
      var pol := policy.data;
      var o: Outcome<ReadResult>;
      var path := Target(pol, world, relpath, "File not found");
      if path.Err? {
        o := Outcome(Err(path.error), None);
      } else {
        ReadStages(pol, world, relpath, maxBytes, redact);
        var allowed := AllowedByPolicy(path.value, pol);
        if allowed.Err? {
          o := Outcome(Err(allowed.error), None);
        } else if !allowed.value {
          o := Outcome(Err(DeniedByPolicy), Some(DeniedEvent(relpath)));
        } else {
          o := ReadAllowedText(pol, world, relpath, world.files[path.value].bytes, maxBytes, redact);
        }
      }
      assert o == ReadFile(pol, world, relpath, maxBytes, redact);
      ReadFileUnhashed(pol, world, relpath, maxBytes, redact);
      Record(o.event, ts);
      assert policy.data == pol;
      r := o.result;
    }

    /** `copy_redacted_file(relpath, out_relpath)`: the redacted text is
        written at `dest`, resolved against the working directory, and the
        copy is logged; a failure writes nothing. */
    method CopyRedactedFile(relpath: string, outRelpath: Option<string>, ts: string)
      returns (r: Result<(string, nat, seq<Finding>)>)
      requires Valid()
      modifies this`written, auditor`lines
      ensures Valid()
      ensures var o := CopyFile(policy.data, world, relpath, outRelpath);
              && r == CopyReply(o.result)
              && written == AfterCopy(old(written), o.result, world.cwd)
              && auditor.lines == Logged(old(auditor.lines), o.event, ts, auditor.sha256, auditor.dumps)
    {
      var pol := policy.data;
      var src := Target(pol, world, relpath, "Source not found");
      if src.Err? {
        return Err(src.error);
      }
      var allowed := AllowedByPolicy(src.value, pol);
      if allowed.Err? {
        return Err(allowed.error);
      }
      if !allowed.value {
        return Err(DeniedByPolicy);
      }
      var o := CopyAllowedText(pol, world, relpath, Name(src.value), world.files[src.value].bytes, outRelpath);
      written := AfterCopy(written, o.result, world.cwd);
      CopyFileUnhashed(pol, world, relpath, outRelpath);
      Record(o.event, ts);
      r := CopyReply(o.result);
    }

    /** The `privacy://{relpath}` resource: the content `safe_read_file`
        returns with its defaults. */
    method ResourceFile(relpath: string, ts: string) returns (r: Result<string>)
      requires Valid()
      modifies auditor`lines
      ensures Valid()
      ensures var o := ReadFile(policy.data, world, relpath, None, None);
              && r == (if o.result.Ok? then Ok(o.result.value.content) else Err(o.result.error))
              && auditor.lines == Logged(old(auditor.lines), o.event, ts, auditor.sha256, auditor.dumps)
    {
      var data := SafeReadFile(relpath, None, None, ts);
      if data.Err? {
        return Err(data.error);
      }
      r := Ok(data.value.content);
    }
  }
}
