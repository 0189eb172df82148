/** The `Auditor`: an append-only log of JSON records in which every record
    carries the hash of the one before it and a hash of its own payload
    chained onto that. SHA-256 and `json.dumps` are foreign code: the auditor
    is given them as functions, and nothing is assumed about either. */
module Audit {
  import opened Common

  /** One line of the log file: a record, or a line that does not parse as a
      JSON object carrying a string `hash`. Each record written is taken to
      read back as one whole line. */
  datatype Line = Entry(record: Dict) | Garbled

  /** `_last_hash()`: the `hash` of the last line; None when the log is empty,
      the last line does not parse, or it has no hash. */
  function LastHash(lines: seq<Line>): Option<string> {
    if lines == [] then None
    else match lines[|lines| - 1]
      case Garbled => None
      case Entry(rec) =>
        match Lookup(rec, "hash")
        case Some(Str(h)) => Some(h)
        case _ => None
  }

  /** `prev` as stored under `prev_hash`: null when there is none. */
  function PrevValue(prev: Option<string>): Value {
    match prev
    case None => Null
    case Some(h) => Str(h)
  }

  /** `prev or ""` */
  function PrevText(prev: Option<string>): string {
    match prev
    case None => ""
    case Some(h) => h
  }

  /** The record `log(event)` appends: the caller's fields with `ts` set, then
      `prev_hash`, then `hash` over the previous hash and the payload, where
      the payload is the stamped event without any `hash` key, serialised
      before `prev_hash` was added. */
  function NextRecord(lines: seq<Line>, event: Dict, ts: string,
                      sha256: string -> string, dumps: Dict -> string): Dict
  {
    var stamped := Put(event, "ts", Str(ts));
    var prev := LastHash(lines);
    var payload := dumps(Without(stamped, "hash"));
    Put(Put(stamped, "prev_hash", PrevValue(prev)), "hash", Str(sha256(PrevText(prev) + payload)))
  }

  /** What the new record holds, field by field: `ts`, `prev_hash` and `hash`
      as `log` sets them, every other field as the caller gave it. */
  lemma RecordFields(lines: seq<Line>, event: Dict, ts: string,
                     sha256: string -> string, dumps: Dict -> string, k: string)
    ensures var r := NextRecord(lines, event, ts, sha256, dumps);
            var prev := LastHash(lines);
            && Lookup(r, "ts") == Some(Str(ts))
            && Lookup(r, "prev_hash") == Some(PrevValue(prev))
            && Lookup(r, "hash") == Some(Str(sha256(PrevText(prev) + dumps(Without(Put(event, "ts", Str(ts)), "hash")))))
            && (k != "ts" && k != "prev_hash" && k != "hash" ==> Lookup(r, k) == Lookup(event, k))
  {
    var stamped := Put(event, "ts", Str(ts));
    var prev := LastHash(lines);
    var withPrev := Put(stamped, "prev_hash", PrevValue(prev));
    var hv := Str(sha256(PrevText(prev) + dumps(Without(stamped, "hash"))));
    LookupPut(event, "ts", Str(ts), k);
    LookupPut(stamped, "prev_hash", PrevValue(prev), k);
    LookupPut(withPrev, "hash", hv, k);
    LookupPut(event, "ts", Str(ts), "prev_hash");
    LookupPut(stamped, "prev_hash", PrevValue(prev), "prev_hash");
    LookupPut(withPrev, "hash", hv, "prev_hash");
    LookupPut(event, "ts", Str(ts), "ts");
    LookupPut(stamped, "prev_hash", PrevValue(prev), "ts");
    LookupPut(withPrev, "hash", hv, "ts");
    LookupPut(withPrev, "hash", hv, "hash");
  }

  /** The caller's fields come first, in the caller's order; the only keys
      `log` adds are `ts`, `prev_hash` and `hash`. */
  lemma RecordKeys(lines: seq<Line>, event: Dict, ts: string,
                   sha256: string -> string, dumps: Dict -> string)
    ensures var r := NextRecord(lines, event, ts, sha256, dumps);
            && IsPrefix(Keys(event), Keys(r))
            && (forall k :: k in Keys(r) <==> k in Keys(event) || k == "ts" || k == "prev_hash" || k == "hash")
  {
    var stamped := Put(event, "ts", Str(ts));
    var prev := LastHash(lines);
    StampKeys(event, Str(ts), PrevValue(prev), Str(sha256(PrevText(prev) + dumps(Without(stamped, "hash")))));
  }

  lemma StampKeys(d: Dict, ts: Value, prev: Value, hash: Value)
    ensures var r := Put(Put(Put(d, "ts", ts), "prev_hash", prev), "hash", hash);
            && IsPrefix(Keys(d), Keys(r))
            && (forall k :: k in Keys(r) <==> k in Keys(d) || k == "ts" || k == "prev_hash" || k == "hash")
  {
    var d1 := Put(d, "ts", ts);
    var d2 := Put(d1, "prev_hash", prev);
    var r := Put(d2, "hash", hash);
    PutKeys(d, "ts", ts);
    PutKeys(d1, "prev_hash", prev);
    PutKeys(d2, "hash", hash);
    PrefixTrans(Keys(d), Keys(d1), Keys(d2));
    PrefixTrans(Keys(d), Keys(d2), Keys(r));
  }

  // ---------------------------------------------------------------------
  // The chain a verifier checks
  // ---------------------------------------------------------------------

  /** The stored `hash` of a record. */
  function HashOf(rec: Dict): string {
    match Lookup(rec, "hash")
    case Some(Str(h)) => h
    case _ => ""
  }

  /** The stored `prev_hash` of a record, or "" when it is null. */
  function StoredPrev(rec: Dict): string {
    match Lookup(rec, "prev_hash")
    case Some(Str(h)) => h
    case _ => ""
  }

  /** Recomputing the record's hash from its stored `prev_hash` and the rest
      of the record gives back its stored `hash`. */
  predicate Recomputes(rec: Dict, sha256: string -> string, dumps: Dict -> string) {
    Lookup(rec, "hash") == Some(Str(sha256(StoredPrev(rec) + dumps(Without(Without(rec, "hash"), "prev_hash")))))
  }

  /** `rec` names `before`'s hash as its `prev_hash`. */
  predicate LinksTo(rec: Dict, before: Dict) {
    Lookup(rec, "prev_hash") == Some(Str(HashOf(before)))
  }

  /** An intact log: every line a record whose hash recomputes, the first
      with a null `prev_hash`, every other one linked to its predecessor. */
  predicate Chained(lines: seq<Line>, sha256: string -> string, dumps: Dict -> string) {
    (forall i :: 0 <= i < |lines| ==> lines[i].Entry?)
    && (forall i :: 0 <= i < |lines| ==> Recomputes(lines[i].record, sha256, dumps))
    && (|lines| > 0 ==> Lookup(lines[0].record, "prev_hash") == Some(Null))
    && (forall i :: 0 < i < |lines| ==>
          LinksTo(lines[i].record, lines[i - 1].record))
  }

  /** The payload a verifier recomputes from a stored record is the payload
      `log` hashed, as long as the caller did not supply `prev_hash` itself. */
  lemma PayloadRecovered(stamped: Dict, pv: Value, hv: Value)
    requires "prev_hash" !in Keys(stamped)
    ensures Without(Without(Put(Put(stamped, "prev_hash", pv), "hash", hv), "hash"), "prev_hash")
              == Without(stamped, "hash")
  {
    WithoutAfterPut(Put(stamped, "prev_hash", pv), "hash", hv);
    WithoutCommutesWithPut(stamped, "prev_hash", "hash", pv);
    WithoutAfterPut(Without(stamped, "hash"), "prev_hash", pv);
    LookupWithout(stamped, "hash", "prev_hash");
  }

  /** The record `log` builds passes the recomputation, and its `prev_hash`
      is the hash of the last line (null on an empty log). */
  lemma NewRecordRecomputes(lines: seq<Line>, event: Dict, ts: string,
                            sha256: string -> string, dumps: Dict -> string)
    requires "prev_hash" !in Keys(event)
    ensures var rec := NextRecord(lines, event, ts, sha256, dumps);
            Recomputes(rec, sha256, dumps) && Lookup(rec, "prev_hash") == Some(PrevValue(LastHash(lines)))
  {
    var stamped := Put(event, "ts", Str(ts));
    var prev := LastHash(lines);
    var h := sha256(PrevText(prev) + dumps(Without(stamped, "hash")));
    var withPrev := Put(stamped, "prev_hash", PrevValue(prev));
    var rec := Put(withPrev, "hash", Str(h));
    assert rec == NextRecord(lines, event, ts, sha256, dumps);
    LookupPut(event, "ts", Str(ts), "prev_hash");
    assert "prev_hash" !in Keys(stamped);
    LookupPut(withPrev, "hash", Str(h), "prev_hash");
    LookupPut(stamped, "prev_hash", PrevValue(prev), "prev_hash");
    assert Lookup(rec, "prev_hash") == Some(PrevValue(prev));
    assert StoredPrev(rec) == PrevText(prev);
    LookupPut(withPrev, "hash", Str(h), "hash");
    assert Lookup(rec, "hash") == Some(Str(h));
    PayloadRecovered(stamped, PrevValue(prev), Str(h));
    assert Without(Without(rec, "hash"), "prev_hash") == Without(stamped, "hash");
  }

  /** On an intact, non-empty log `_last_hash()` finds the last record's hash. */
  lemma LastHashOfChain(lines: seq<Line>, sha256: string -> string, dumps: Dict -> string)
    requires Chained(lines, sha256, dumps) && lines != []
    ensures LastHash(lines) == Some(HashOf(lines[|lines| - 1].record))
  {
    assert Recomputes(lines[|lines| - 1].record, sha256, dumps);
  }

  /** Appending the record `log` builds keeps an intact log intact. */
  lemma LogExtendsChain(lines: seq<Line>, event: Dict, ts: string,
                        sha256: string -> string, dumps: Dict -> string)
    requires Chained(lines, sha256, dumps)
    requires "prev_hash" !in Keys(event)
    ensures Chained(lines + [Entry(NextRecord(lines, event, ts, sha256, dumps))], sha256, dumps)
  {
    var rec := NextRecord(lines, event, ts, sha256, dumps);
    NewRecordRecomputes(lines, event, ts, sha256, dumps);
    if lines != [] {
      LastHashOfChain(lines, sha256, dumps);
    }
    AppendLinked(lines, rec, sha256, dumps);
  }

  /** A record that recomputes and links to the last one extends an intact log. */
  lemma AppendLinked(lines: seq<Line>, rec: Dict, sha256: string -> string, dumps: Dict -> string)
    requires Chained(lines, sha256, dumps)
    requires Recomputes(rec, sha256, dumps)
    requires lines == [] ==> Lookup(rec, "prev_hash") == Some(Null)
    requires lines != [] ==> LinksTo(rec, lines[|lines| - 1].record)
    ensures Chained(lines + [Entry(rec)], sha256, dumps)
  {
    var lines' := lines + [Entry(rec)];
    AppendRecomputes(lines, rec, sha256, dumps);
    AppendLinks(lines, rec);
    if lines != [] {
      assert lines'[0] == lines[0];
    }
  }

  lemma AppendRecomputes(lines: seq<Line>, rec: Dict, sha256: string -> string, dumps: Dict -> string)
    requires forall i :: 0 <= i < |lines| ==> lines[i].Entry?
    requires forall i :: 0 <= i < |lines| ==> Recomputes(lines[i].record, sha256, dumps)
    requires Recomputes(rec, sha256, dumps)
    ensures forall i :: 0 <= i < |lines + [Entry(rec)]| ==> (lines + [Entry(rec)])[i].Entry?
    ensures forall i :: 0 <= i < |lines + [Entry(rec)]| ==> Recomputes((lines + [Entry(rec)])[i].record, sha256, dumps)
  {
    var lines' := lines + [Entry(rec)];
    forall i | 0 <= i < |lines'|
      ensures lines'[i].Entry? && Recomputes(lines'[i].record, sha256, dumps)
    {
      if i < |lines| {
        assert lines'[i] == lines[i];
      }
    }
  }

  lemma AppendLinks(lines: seq<Line>, rec: Dict)
    requires forall i :: 0 <= i < |lines| ==> lines[i].Entry?
    requires forall i :: 0 < i < |lines| ==>
               LinksTo(lines[i].record, lines[i - 1].record)
    requires lines != [] ==> LinksTo(rec, lines[|lines| - 1].record)
    ensures forall i :: 0 < i < |lines + [Entry(rec)]| ==>
              LinksTo((lines + [Entry(rec)])[i].record, (lines + [Entry(rec)])[i - 1].record)
  {
    var lines' := lines + [Entry(rec)];
    forall i | 0 < i < |lines'|
      ensures LinksTo(lines'[i].record, lines'[i - 1].record)
    {
      assert lines'[i - 1] == lines[i - 1];
      if i < |lines| {
        assert lines'[i] == lines[i];
      }
    }
  }

  /** The log after a run of `log` calls, each with its event and timestamp. */
  function Replay(lines: seq<Line>, calls: seq<(Dict, string)>,
                  sha256: string -> string, dumps: Dict -> string): seq<Line>
    decreases |calls|
  {
    if calls == [] then lines
    else Replay(lines + [Entry(NextRecord(lines, calls[0].0, calls[0].1, sha256, dumps))],
                calls[1..], sha256, dumps)
  }

  /** Starting from an intact log (the empty one included), any run of `log`
      calls on events without their own `prev_hash` leaves an intact log with
      one more record per call and the earlier records untouched. */
  lemma ReplayKeepsChain(lines: seq<Line>, calls: seq<(Dict, string)>,
                         sha256: string -> string, dumps: Dict -> string)
    requires Chained(lines, sha256, dumps)
    requires forall i :: 0 <= i < |calls| ==> "prev_hash" !in Keys(calls[i].0)
    ensures var after := Replay(lines, calls, sha256, dumps);
            Chained(after, sha256, dumps) && |after| == |lines| + |calls| && after[..|lines|] == lines
  {
    ReplayChained(lines, calls, sha256, dumps);
    ReplayAppends(lines, calls, sha256, dumps);
  }

  lemma {:induction false} ReplayChained(lines: seq<Line>, calls: seq<(Dict, string)>,
                                         sha256: string -> string, dumps: Dict -> string)
    requires Chained(lines, sha256, dumps)
    requires forall i :: 0 <= i < |calls| ==> "prev_hash" !in Keys(calls[i].0)
    ensures Chained(Replay(lines, calls, sha256, dumps), sha256, dumps)
    decreases |calls|
  {
    if calls != [] {
      var next := lines + [Entry(NextRecord(lines, calls[0].0, calls[0].1, sha256, dumps))];
      LogExtendsChain(lines, calls[0].0, calls[0].1, sha256, dumps);
      var rest := calls[1..];
      assert forall i :: 0 <= i < |rest| ==> rest[i] == calls[i + 1];
      ReplayChained(next, rest, sha256, dumps);
      assert Replay(lines, calls, sha256, dumps) == Replay(next, rest, sha256, dumps);
    }
  }

  /** `Replay` only appends, one line per call. */
  lemma {:induction false} ReplayAppends(lines: seq<Line>, calls: seq<(Dict, string)>,
                                         sha256: string -> string, dumps: Dict -> string)
    ensures var after := Replay(lines, calls, sha256, dumps);
            |after| == |lines| + |calls| && after[..|lines|] == lines
    decreases |calls|
  {
    if calls != [] {
      var next := lines + [Entry(NextRecord(lines, calls[0].0, calls[0].1, sha256, dumps))];
      ReplayAppends(next, calls[1..], sha256, dumps);
      var after := Replay(next, calls[1..], sha256, dumps);
      assert Replay(lines, calls, sha256, dumps) == after;
      assert after[..|lines|] == after[..|next|][..|lines|];
    }
  }

  class Auditor {
    /** The log file's lines, oldest first. */
    var lines: seq<Line>
    const sha256: string -> string
    const dumps: Dict -> string

    /** `Auditor(path)` over a log file that already holds `existing`. */
    constructor(existing: seq<Line>, sha256: string -> string, dumps: Dict -> string)
      ensures lines == existing && this.sha256 == sha256 && this.dumps == dumps
    {
      lines := existing;
      this.sha256 := sha256;
      this.dumps := dumps;
    }

    /** `log(event)` at time `ts`: works on a copy of the event, stamps it,
        hashes it onto the previous hash and appends it as one line. */
    method Log(event: Dict, ts: string)
      modifies this`lines
      ensures lines == old(lines) + [Entry(NextRecord(old(lines), event, ts, sha256, dumps))]
    {
      var e := event;
      e := Put(e, "ts", Str(ts));
      var prev := LastHash(lines);
      var payload := dumps(Without(e, "hash"));
      e := Put(e, "prev_hash", PrevValue(prev));
      e := Put(e, "hash", Str(sha256(PrevText(prev) + payload)));
      lines := lines + [Entry(e)];
    }
  }
}
