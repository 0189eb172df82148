/** `DEFAULT_POLICY` and the `Policy` store: built-in defaults overlaid by the
    persisted policy file, patched one top-level key at a time, and written
    back in full after every patch. */
module PolicyStore {
  import opened Common
  import Paths

  /** `DEFAULT_POLICY`, whose root is `demo/sandbox` resolved against the
      process's working directory. */
  function DefaultPolicy(cwd: seq<string>): map<string, Value>
    requires Paths.Normal(cwd)
  {
    map[
      "root_dir" := Str(Paths.PathString(Paths.Resolve("demo/sandbox", cwd))),
      "allow_globs" := Arr([Str("**/*.txt"), Str("**/*.md"), Str("**/*.json")]),
      "deny_globs" := Arr([Str("**/.env"), Str("**/.git/**"), Str("**/node_modules/**")]),
      "allow_extensions" := Arr([Str(".txt"), Str(".md"), Str(".json")]),
      "deny_extensions" := Arr([Str(".pem"), Str(".key"), Str(".pfx"), Str(".crt")]),
      "max_bytes" := Num(2000000),
      "redact_on_read" := Bool(true),
      "use_presidio" := Bool(false),
      "presidio_entities" := Arr([Str("PERSON"), Str("EMAIL_ADDRESS"), Str("PHONE_NUMBER"),
                                  Str("CREDIT_CARD"), Str("LOCATION")]),
      "redaction_token" := Str("\U{2588}")
    ]
  }

  /** The keys of `DEFAULT_POLICY`, which do not depend on the working directory. */
  const DefaultKeys: set<string> :=
    {"root_dir", "allow_globs", "deny_globs", "allow_extensions", "deny_extensions",
     "max_bytes", "redact_on_read", "use_presidio", "presidio_entities", "redaction_token"}

  lemma DefaultPolicyKeys(cwd: seq<string>)
    requires Paths.Normal(cwd)
    ensures DefaultPolicy(cwd).Keys == DefaultKeys
  {
  }

  /** The policy file as the constructor finds it: missing, not JSON, or the
      JSON value it holds. */
  datatype PolicyFile = Absent | Unparsable | Parsed(json: Value)

  /** One element of the iterable `dict.update` is given when the file holds
      a JSON list: it must be a key/value pair. A two-element list pairs its
      items; a two-character string pairs its characters. A pair whose key is
      a number, boolean or null is accepted by Python but adds a key no
      string lookup finds, so it leaves the string-keyed policy as it is
      (None). Anything else raises (TypeError or ValueError). */
  function PairOf(item: Value): Result<Option<(string, Value)>> {
    match item
    case Arr(xs) =>
      if |xs| != 2 then Err(MalformedPolicy)
      else (match xs[0]
        case Str(k) => Ok(Some((k, xs[1])))
        case Arr(_) => Err(MalformedPolicy)
        case Obj(_) => Err(MalformedPolicy)
        case _ => Ok(None))
    case Str(s) => if |s| == 2 then Ok(Some(([s[0]], Str([s[1]])))) else Err(MalformedPolicy)
    case _ => Err(MalformedPolicy)
  }

  /** Whether `item` is a pair that sets the string key `k`. */
  predicate SetsKey(item: Value, k: string) {
    PairOf(item).Ok? && PairOf(item).value.Some? && PairOf(item).value.value.0 == k
  }

  /** `data.update(items)` for a list: the pairs in order, a later pair
      overriding an earlier one; the first element that is not a pair
      raises. */
  function UpdatePairs(data: map<string, Value>, items: seq<Value>): Result<map<string, Value>>
    decreases |items|
  {
    if items == [] then Ok(data)
    else
      var p :- PairOf(items[0]);
      UpdatePairs(if p.Some? then data[p.value.0 := p.value.1] else data, items[1..])
  }

  /** The list update succeeds exactly when every element is a pair. */
  lemma {:induction false} UpdatePairsOk(data: map<string, Value>, items: seq<Value>)
    ensures UpdatePairs(data, items).Ok? <==> forall i :: 0 <= i < |items| ==> PairOf(items[i]).Ok?
    ensures UpdatePairs(data, items).Err? ==> UpdatePairs(data, items).error == MalformedPolicy
    decreases |items|
  {
    if items != [] && PairOf(items[0]).Ok? {
      var p := PairOf(items[0]).value;
      var next := if p.Some? then data[p.value.0 := p.value.1] else data;
      UpdatePairsOk(next, items[1..]);
      assert forall i :: 1 <= i < |items| ==> items[i] == items[1..][i - 1];
    }
  }

  /** A key no pair sets keeps its presence and its value. */
  lemma {:induction false} UpdatePairsUntouched(data: map<string, Value>, items: seq<Value>, k: string)
    requires UpdatePairs(data, items).Ok?
    requires forall i :: 0 <= i < |items| ==> !SetsKey(items[i], k)
    ensures k in UpdatePairs(data, items).value <==> k in data
    ensures k in data ==> UpdatePairs(data, items).value[k] == data[k]
    decreases |items|
  {
    if items != [] {
      var p := PairOf(items[0]).value;
      var next := if p.Some? then data[p.value.0 := p.value.1] else data;
      assert !SetsKey(items[0], k);
      assert forall i :: 0 <= i < |items[1..]| ==> items[1..][i] == items[i + 1];
      UpdatePairsUntouched(next, items[1..], k);
    }
  }

  /** A key takes the value of the last pair that sets it. */
  lemma {:induction false} UpdatePairsLast(data: map<string, Value>, items: seq<Value>, i: nat, k: string, v: Value)
    requires UpdatePairs(data, items).Ok?
    requires i < |items| && PairOf(items[i]) == Ok(Some((k, v)))
    requires forall j :: i < j < |items| ==> !SetsKey(items[j], k)
    ensures k in UpdatePairs(data, items).value && UpdatePairs(data, items).value[k] == v
    decreases |items|
  {
    var p := PairOf(items[0]).value;
    var next := if p.Some? then data[p.value.0 := p.value.1] else data;
    assert forall j :: 0 <= j < |items[1..]| ==> items[1..][j] == items[j + 1];
    if i == 0 {
      UpdatePairsUntouched(next, items[1..], k);
    } else {
      UpdatePairsLast(next, items[1..], i - 1, k, v);
    }
  }

  /** The list update only adds keys. */
  lemma {:induction false} UpdatePairsGrows(data: map<string, Value>, items: seq<Value>)
    requires UpdatePairs(data, items).Ok?
    ensures data.Keys <= UpdatePairs(data, items).value.Keys
    decreases |items|
  {
    if items != [] {
      var p := PairOf(items[0]).value;
      var next := if p.Some? then data[p.value.0 := p.value.1] else data;
      UpdatePairsGrows(next, items[1..]);
    }
  }

  /** The data the constructor builds from a policy file: the defaults
      updated by what the file parses to. `dict.update` takes an object key
      by key and a list pair by pair; an empty string is an empty iterable
      and keeps the defaults; any other string, a number, a boolean or null
      raises. */
  function Load(cwd: seq<string>, file: PolicyFile): (r: Result<map<string, Value>>)
    requires Paths.Normal(cwd)
    ensures file.Absent? ==> r == Ok(DefaultPolicy(cwd))
    ensures file.Unparsable? ==> r == Err(MalformedPolicy)
    ensures file.Parsed? && (file.json.Null? || file.json.Bool? || file.json.Num?) ==> r == Err(MalformedPolicy)
    ensures file.Parsed? && file.json.Str? ==>
              r == if file.json.s == "" then Ok(DefaultPolicy(cwd)) else Err(MalformedPolicy)
    ensures file == Parsed(Arr([])) ==> r == Ok(DefaultPolicy(cwd))
    ensures file.Parsed? && file.json.Obj? ==>
              r.Ok?
              && r.value.Keys == DefaultPolicy(cwd).Keys + file.json.fields.Keys
              && (forall k :: k in file.json.fields ==> r.value[k] == file.json.fields[k])
              && (forall k :: k in DefaultPolicy(cwd) && k !in file.json.fields ==>
                    r.value[k] == DefaultPolicy(cwd)[k])
    ensures r.Ok? ==> DefaultPolicy(cwd).Keys <= r.value.Keys
  {
    match file
    case Absent => Ok(DefaultPolicy(cwd))
    case Unparsable => Err(MalformedPolicy)
    case Parsed(v) =>
      match v
      case Obj(fields) => Ok(DefaultPolicy(cwd) + fields)
      case Arr(items) =>
        var r := UpdatePairs(DefaultPolicy(cwd), items);
        if r.Ok? then UpdatePairsGrows(DefaultPolicy(cwd), items); r else r
      case Str(s) => if s == "" then Ok(DefaultPolicy(cwd)) else Err(MalformedPolicy)
      case _ => Err(MalformedPolicy)
  }

  /** A list of pairs in the policy file overrides the defaults like an
      object does: the file `[["root_dir", "/"]]` moves the root to `/`. */
  lemma PairListSetsRoot(cwd: seq<string>)
    requires Paths.Normal(cwd)
    ensures Load(cwd, Parsed(Arr([Arr([Str("root_dir"), Str("/")])]))).Ok?
    ensures Load(cwd, Parsed(Arr([Arr([Str("root_dir"), Str("/")])]))).value["root_dir"] == Str("/")
  {
    var data := DefaultPolicy(cwd);
    var items := [Arr([Str("root_dir"), Str("/")])];
    SinglePair(data, "root_dir", Str("/"));
    assert Load(cwd, Parsed(Arr(items))) == UpdatePairs(data, items);
  }

  lemma SinglePair(data: map<string, Value>, k: string, v: Value)
    ensures UpdatePairs(data, [Arr([Str(k), v])]) == Ok(data[k := v])
  {
    assert PairOf(Arr([Str(k), v])) == Ok(Some((k, v)));
    assert [Arr([Str(k), v])][1..] == [];
  }

  /** `data.update(patch or {})`: shallow, top-level replacement. */
  function Patched(data: map<string, Value>, patch: Option<Dict>): (r: map<string, Value>)
    ensures r.Keys == data.Keys + set k | k in Keys(patch.GetOr([]))
    ensures forall k :: k in Keys(patch.GetOr([])) ==> Some(r[k]) == Lookup(patch.GetOr([]), k)
    ensures forall k :: k in data && k !in Keys(patch.GetOr([])) ==> r[k] == data[k]
    ensures patch == None || patch == Some([]) ==> r == data
  {
    data + ToMap(patch.GetOr([]))
  }

  /** What `save()` writes reloads to the very same policy: the file holds
      every default key, so the overlay replaces all of them. */
  lemma ReloadAfterSave(cwd: seq<string>, data: map<string, Value>)
    requires Paths.Normal(cwd) && DefaultPolicy(cwd).Keys <= data.Keys
    ensures Load(cwd, Parsed(Obj(data))) == Ok(data)
  {
    OverlayAbsorbs(DefaultPolicy(cwd), data);
  }

  lemma OverlayAbsorbs(base: map<string, Value>, over: map<string, Value>)
    requires base.Keys <= over.Keys
    ensures base + over == over
  {
    var merged := base + over;
    assert merged.Keys == over.Keys;
    assert forall k :: k in over ==> merged[k] == over[k];
  }

  class Policy {
    /** The working directory the default root was resolved against. */
    const cwd: seq<string>
    /** `_data`, the live policy. */
    var data: map<string, Value>
    /** What the policy file on disk holds. */
    var file: PolicyFile

    /** Every default key is always present: keys are added by the overlay and
        by patches, never removed. */
    ghost predicate Valid()
      reads this
    {
      Paths.Normal(cwd) && DefaultKeys <= data.Keys
    }

    constructor FromData(cwd: seq<string>, data: map<string, Value>, file: PolicyFile)
      requires Paths.Normal(cwd) && DefaultPolicy(cwd).Keys <= data.Keys
      ensures Valid()
      ensures this.cwd == cwd && this.data == data && this.file == file
    {
      DefaultPolicyKeys(cwd);
      this.cwd := cwd;
      this.data := data;
      this.file := file;
    }

    /** `Policy(path)`: copy the defaults, then update them with the file
      when there is one. A file `update` cannot take makes construction
      fail. */
    static method Open(cwd: seq<string>, file: PolicyFile) returns (r: Result<Policy>)
      requires Paths.Normal(cwd)
      ensures r.Ok? <==> Load(cwd, file).Ok?
      ensures r.Err? ==> r.error == MalformedPolicy
      ensures r.Ok? ==> fresh(r.value) && r.value.Valid() && r.value.cwd == cwd
                        && r.value.data == Load(cwd, file).value && r.value.file == file
    {
      var loaded := Load(cwd, file);
      if loaded.Err? {
        if file.Parsed? && file.json.Arr? {
          UpdatePairsOk(DefaultPolicy(cwd), file.json.items);
        }
        return Err(MalformedPolicy);
      }
      var p := new Policy.FromData(cwd, loaded.value, file);
      return Ok(p);
    }

    /** `save()`: the file now holds the whole current policy. */
    method Save()
      modifies this`file
      ensures file == Parsed(Obj(data))
    {
      file := Parsed(Obj(data));
    }

    /** `patch(patch)`: update in place, persist, return the live data. */
    method Patch(patch: Option<Dict>) returns (r: map<string, Value>)
      requires Valid()
      modifies this
      ensures Valid()
      ensures data == Patched(old(data), patch)
      ensures file == Parsed(Obj(data))
      ensures r == data
    {
      data := data + ToMap(patch.GetOr([]));
      Save();
      r := data;
    }
  }
}
