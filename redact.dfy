/** `apply_redactions`: mask every finding's span with the token repeated
    once per masked character, working from the last start to the first so
    that the offsets of the spans still to come do not move. */
module Redact {
  import opened Common

  // ---------------------------------------------------------------------
  // The stable sort by descending start
  // ---------------------------------------------------------------------

  predicate SortedByStartDesc(fs: seq<Finding>) {
    forall i :: 0 < i < |fs| ==> fs[i - 1].start >= fs[i].start
  }

  /** Puts `x` in front of the first element whose start is not above its own. */
  function InsertByStart(x: Finding, s: seq<Finding>): (r: seq<Finding>)
    ensures multiset(r) == multiset(s) + multiset{x}
    ensures |r| == |s| + 1
    ensures r[0] == x || (s != [] && r[0] == s[0])
    ensures SortedByStartDesc(s) ==> SortedByStartDesc(r)
  {
    if s == [] || x.start >= s[0].start then [x] + s
    else
      assert s == [s[0]] + s[1..];
      var t := InsertByStart(x, s[1..]);
      InsertStepSorted(x, s, t);
      [s[0]] + t
  }

  /** The recursive step of `InsertByStart` keeps the order: the head of the
      inserted tail starts no later than `s[0]`. */
  lemma InsertStepSorted(x: Finding, s: seq<Finding>, t: seq<Finding>)
    requires s != [] && x.start < s[0].start && t != []
    requires t[0] == x || (|s| > 1 && t[0] == s[1])
    requires SortedByStartDesc(s[1..]) ==> SortedByStartDesc(t)
    ensures SortedByStartDesc(s) ==> SortedByStartDesc([s[0]] + t)
  {
    if SortedByStartDesc(s) {
      var tail := s[1..];
      assert SortedByStartDesc(tail) by {
        forall i | 0 < i < |tail| ensures tail[i - 1].start >= tail[i].start {
          assert tail[i - 1] == s[i] && tail[i] == s[i + 1];
        }
      }
      var r := [s[0]] + t;
      forall i | 0 < i < |r| ensures r[i - 1].start >= r[i].start {
        if i > 1 {
          assert r[i - 1] == t[i - 2] && r[i] == t[i - 1];
        }
      }
    }
  }

  /** `sorted(findings, key=lambda f: f["start"], reverse=True)`: a permutation
      of the findings, ordered by descending start. */
  function SortByStartDesc(fs: seq<Finding>): (r: seq<Finding>)
    ensures multiset(r) == multiset(fs)
    ensures |r| == |fs|
    ensures SortedByStartDesc(r)
  {
    if fs == [] then []
    else
      assert fs == [fs[0]] + fs[1..];
      InsertByStart(fs[0], SortByStartDesc(fs[1..]))
  }

  /** The findings that start at `k`, in their order in `fs`. */
  function StartingAt(fs: seq<Finding>, k: int): seq<Finding> {
    if fs == [] then []
    else (if fs[0].start == k then [fs[0]] else []) + StartingAt(fs[1..], k)
  }

  lemma StartingAtCons(a: Finding, s: seq<Finding>, k: int)
    ensures StartingAt([a] + s, k) == (if a.start == k then [a] else []) + StartingAt(s, k)
  {
    assert ([a] + s)[1..] == s;
  }

  lemma {:induction false} InsertKeepsTies(x: Finding, s: seq<Finding>, k: int)
    ensures StartingAt(InsertByStart(x, s), k) == (if x.start == k then [x] else []) + StartingAt(s, k)
  {
    if s == [] || x.start >= s[0].start {
      StartingAtCons(x, s, k);
    } else {
      var t := InsertByStart(x, s[1..]);
      assert InsertByStart(x, s) == [s[0]] + t;
      InsertKeepsTies(x, s[1..], k);
      StartingAtCons(s[0], t, k);
      StartingAtCons(s[0], s[1..], k);
      assert s == [s[0]] + s[1..];
      if x.start == k {
        assert s[0].start != k;
        assert StartingAt([s[0]] + t, k) == StartingAt(t, k);
        assert StartingAt(s, k) == StartingAt(s[1..], k);
      } else {
        assert StartingAt(t, k) == StartingAt(s[1..], k);
      }
    }
  }

  /** The sort is stable: findings with equal starts keep their input order. */
  lemma {:induction false} SortIsStable(fs: seq<Finding>, k: int)
    ensures StartingAt(SortByStartDesc(fs), k) == StartingAt(fs, k)
  {
    if fs != [] {
      SortIsStable(fs[1..], k);
      InsertKeepsTies(fs[0], SortByStartDesc(fs[1..]), k);
    }
  }

  // ---------------------------------------------------------------------
  // Masking
  // ---------------------------------------------------------------------

  /** One pass of the loop: `out[:start] + token * (end - start) + out[end:]`. */
  function MaskSpan(text: string, f: Finding, token: string): string {
    Take(text, f.start) + Repeat(token, f.end - f.start) + Drop(text, f.end)
  }

  /** The loop over the findings in the order given. */
  function MaskAll(text: string, fs: seq<Finding>, token: string): string
    decreases |fs|
  {
    if fs == [] then text else MaskAll(MaskSpan(text, fs[0], token), fs[1..], token)
  }

  /** Every span is a well-formed slice of a text of length `n`. */
  predicate InBounds(fs: seq<Finding>, n: int) {
    forall f :: f in fs ==> 0 <= f.start <= f.end <= n
  }

  /** Index `i` lies inside some finding's span. */
  predicate Covered(fs: seq<Finding>, i: int) {
    exists f :: f in fs && f.start <= i < f.end
  }

  /** The text with the union of the spans masked once by `c`. */
  function MaskUnion(text: string, fs: seq<Finding>, c: char): string {
    seq(|text|, i requires 0 <= i < |text| => if Covered(fs, i) then c else text[i])
  }

  lemma MaskSpanOneChar(text: string, f: Finding, c: char)
    requires 0 <= f.start <= f.end <= |text|
    ensures MaskSpan(text, f, [c]) == seq(|text|, i requires 0 <= i < |text| => if f.start <= i < f.end then c else text[i])
  {
    var r := MaskSpan(text, f, [c]);
    var rep := Repeat([c], f.end - f.start);
    assert |rep| == f.end - f.start;
    assert r == text[..f.start] + rep + text[f.end..];
    forall i | f.start <= i < f.end ensures r[i] == c {
      RepeatOneAt(c, f.end - f.start, i - f.start);
    }
  }

  /** With a one-character token and well-formed spans, running the loop in
      any order masks exactly the union of the spans. */
  lemma {:induction false} MaskAllIsUnion(text: string, fs: seq<Finding>, c: char)
    requires InBounds(fs, |text|)
    ensures MaskAll(text, fs, [c]) == MaskUnion(text, fs, c)
    decreases |fs|
  {
    if fs != [] {
      var f := fs[0];
      assert f in fs;
      var t1 := MaskSpan(text, f, [c]);
      MaskSpanOneChar(text, f, c);
      assert InBounds(fs[1..], |t1|) by {
        forall g | g in fs[1..] ensures 0 <= g.start <= g.end <= |t1| {
          assert g in fs;
        }
      }
      MaskAllIsUnion(t1, fs[1..], c);
      forall i | 0 <= i < |text| ensures MaskUnion(t1, fs[1..], c)[i] == MaskUnion(text, fs, c)[i] {
        if Covered(fs[1..], i) {
          var g :| g in fs[1..] && g.start <= i < g.end;
          assert g in fs;
        } else if f.start <= i < f.end {
          assert Covered(fs, i);
        }
      }
    }
  }

  lemma SameMembers(fs: seq<Finding>, gs: seq<Finding>)
    requires multiset(fs) == multiset(gs)
    ensures forall f :: f in fs <==> f in gs
  {
    forall f ensures f in fs <==> f in gs {
      assert f in fs <==> f in multiset(fs);
      assert f in gs <==> f in multiset(gs);
    }
  }

  /** `apply_redactions`: returns the masked text and `len(sorted_f)`. */
  method ApplyRedactions(text: string, findings: seq<Finding>, token: string) returns (out: string, count: nat)
    ensures count == |findings|
    ensures out == MaskAll(text, SortByStartDesc(findings), token)
    ensures findings == [] ==> out == text
    ensures |token| == 1 && InBounds(findings, |text|) ==>
              |out| == |text| && out == MaskUnion(text, findings, token[0])
  {
    var sorted := SortByStartDesc(findings);
    out := text;
    for k := 0 to |sorted|
      invariant MaskAll(out, sorted[k..], token) == MaskAll(text, sorted, token)
    {
      assert sorted[k..] == [sorted[k]] + sorted[k + 1..];
      out := MaskSpan(out, sorted[k], token);
    }
    count := |sorted|;
    if |token| == 1 && InBounds(findings, |text|) {
      SameMembers(sorted, findings);
      assert token == [token[0]];
      MaskAllIsUnion(text, sorted, token[0]);
      assert MaskUnion(text, sorted, token[0]) == MaskUnion(text, findings, token[0]);
    }
  }

  // ---------------------------------------------------------------------
  // Properties of the result
  // ---------------------------------------------------------------------

  /** The result of `apply_redactions` on well-formed spans with a
      one-character token, stated pointwise. */
  lemma RedactedAt(text: string, findings: seq<Finding>, c: char, i: int)
    requires InBounds(findings, |text|) && 0 <= i < |text|
    ensures |MaskAll(text, SortByStartDesc(findings), [c])| == |text|
    ensures Covered(findings, i) ==> MaskAll(text, SortByStartDesc(findings), [c])[i] == c
    ensures !Covered(findings, i) ==> MaskAll(text, SortByStartDesc(findings), [c])[i] == text[i]
  {
    RedactedMask(text, findings, c);
    var u := MaskUnion(text, findings, c);
    assert u[i] == if Covered(findings, i) then c else text[i];
  }

  /** Re-applying the same findings to the redacted text changes nothing. */
  lemma ReapplyIsIdentity(text: string, findings: seq<Finding>, c: char)
    requires InBounds(findings, |text|)
    ensures var once := MaskAll(text, SortByStartDesc(findings), [c]);
            MaskAll(once, SortByStartDesc(findings), [c]) == once
  {
    var sorted := SortByStartDesc(findings);
    SameMembers(sorted, findings);
    MaskAllIsUnion(text, sorted, c);
    var once := MaskAll(text, sorted, [c]);
    assert InBounds(sorted, |once|);
    MaskAllIsUnion(once, sorted, c);
  }

  /** The findings given in any order produce the same text. */
  lemma OrderIrrelevant(text: string, fs: seq<Finding>, gs: seq<Finding>, c: char)
    requires multiset(fs) == multiset(gs) && InBounds(fs, |text|)
    ensures MaskAll(text, SortByStartDesc(fs), [c]) == MaskAll(text, SortByStartDesc(gs), [c])
  {
    SameMembers(fs, gs);
    RedactedMask(text, fs, c);
    RedactedMask(text, gs, c);
    assert MaskUnion(text, fs, c) == MaskUnion(text, gs, c);
  }

  lemma RedactedMask(text: string, findings: seq<Finding>, c: char)
    requires InBounds(findings, |text|)
    ensures MaskAll(text, SortByStartDesc(findings), [c]) == MaskUnion(text, findings, c)
  {
    var sorted := SortByStartDesc(findings);
    SameMembers(sorted, findings);
    MaskAllIsUnion(text, sorted, c);
    assert MaskUnion(text, sorted, c) == MaskUnion(text, findings, c);
  }

  /** The smallest span holding both `a` and `b`. */
  function Hull(a: Finding, b: Finding): Finding {
    Finding(a.entity,
            if a.start <= b.start then a.start else b.start,
            if a.end >= b.end then a.end else b.end,
            a.matched)
  }

  /** Two overlapping (or touching) findings mask the same text as the one
      span that is their union, while the count reports both. */
  lemma OverlapMasksUnion(text: string, rest: seq<Finding>, a: Finding, b: Finding, c: char)
    requires InBounds(rest + [a, b], |text|)
    requires a.start <= b.end && b.start <= a.end
    ensures var merged := rest + [Hull(a, b)];
            MaskAll(text, SortByStartDesc(rest + [a, b]), [c])
              == MaskAll(text, SortByStartDesc(merged), [c])
            && |rest + [a, b]| == |merged| + 1
  {
    var both, merged := rest + [a, b], rest + [Hull(a, b)];
    assert a in both && b in both;
    assert InBounds(merged, |text|) by {
      forall f | f in merged ensures 0 <= f.start <= f.end <= |text| {
        if f != Hull(a, b) {
          assert f in rest;
          assert f in both;
        }
      }
    }
    RedactedMask(text, both, c);
    RedactedMask(text, merged, c);
    HullCoversSame(rest, a, b, |text|);
    SameCoverSameMask(text, both, merged, c);
  }

  /** Masks agree wherever the coverage does. */
  lemma SameCoverSameMask(text: string, fs: seq<Finding>, gs: seq<Finding>, c: char)
    requires forall i :: 0 <= i < |text| ==> Covered(fs, i) == Covered(gs, i)
    ensures MaskUnion(text, fs, c) == MaskUnion(text, gs, c)
  {
  }

  /** Replacing two overlapping spans by their hull covers the same indices. */
  lemma HullCoversSame(rest: seq<Finding>, a: Finding, b: Finding, n: int)
    requires a.start <= b.end && b.start <= a.end
    ensures forall i :: 0 <= i < n ==> Covered(rest + [a, b], i) == Covered(rest + [Hull(a, b)], i)
  {
    var both, merged := rest + [a, b], rest + [Hull(a, b)];
    assert a in both && b in both;
    forall i | 0 <= i < n ensures Covered(both, i) == Covered(merged, i) {
      if Covered(both, i) {
        var f :| f in both && f.start <= i < f.end;
        if f in rest {
          assert f in merged;
        } else {
          assert Hull(a, b) in merged;
        }
      }
      if Covered(merged, i) {
        var f :| f in merged && f.start <= i < f.end;
        if f in rest {
          assert f in both;
        } else if a.start <= i < a.end {
          assert Covered(both, i);
        } else {
          assert b.start <= i < b.end;
          assert Covered(both, i);
        }
      }
    }
  }
}
