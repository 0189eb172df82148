/** `detect`, `detect_regex` and `detect_presidio`. The regular-expression
    engine and the Presidio analyser are code this model cannot see: each
    pattern is a matcher that returns the spans `finditer` reports, known only
    to be non-empty, inside the text, ascending, non-overlapping and in the
    pattern's language; the analyser is a function that may be missing. */
module Detect {
  import opened Common
  import opened Patterns

  type Span = (int, int)

  /** The spans of one `finditer` run: non-empty, inside the text, each
      starting at or after the end of the one before. */
  predicate SpansOk(text: string, spans: seq<Span>) {
    (forall i :: 0 <= i < |spans| ==> 0 <= spans[i].0 < spans[i].1 <= |text|)
    && (forall i :: 0 < i < |spans| ==> spans[i - 1].1 <= spans[i].0)
  }

  /** A matcher whose every match lies in the language `form`. */
  ghost predicate Sound(m: string -> seq<Span>, form: string -> bool) {
    forall t :: SpansOk(t, m(t)) && forall i :: 0 <= i < |m(t)| ==> form(t[m(t)[i].0..m(t)[i].1])
  }

  function NoMatch(t: string): seq<Span> { [] }

  datatype Matchers = Matchers(email: string -> seq<Span>, phone: string -> seq<Span>,
                               card: string -> seq<Span>, sin: string -> seq<Span>)

  /** `REGEXES`, one sound matcher per pattern. */
  type Battery = b: Matchers
    | Sound(b.email, EmailForm) && Sound(b.phone, PhoneForm) && Sound(b.card, CardForm) && Sound(b.sin, SinForm)
    witness Matchers(NoMatch, NoMatch, NoMatch, NoMatch)

  /** The labels in the order `REGEXES` lists them. */
  const Labels: seq<string> := ["EMAIL", "PHONE", "CREDIT_CARD", "CAN_SIN"]

  /** The position of an entity in `Labels`; 4 for any other. */
  function Rank(entity: string): nat {
    if entity == "EMAIL" then 0
    else if entity == "PHONE" then 1
    else if entity == "CREDIT_CARD" then 2
    else if entity == "CAN_SIN" then 3
    else 4
  }

  function MatcherAt(b: Battery, k: nat): string -> seq<Span>
    requires k < 4
  {
    [b.email, b.phone, b.card, b.sin][k]
  }

  function FormAt(k: nat): string -> bool
    requires k < 4
  {
    [EmailForm, PhoneForm, CardForm, SinForm][k]
  }

  lemma MatcherAtSound(b: Battery, k: nat, text: string)
    requires k < 4
    ensures Rank(Labels[k]) == k
    ensures SpansOk(text, MatcherAt(b, k)(text))
    ensures forall i :: 0 <= i < |MatcherAt(b, k)(text)| ==>
              FormAt(k)(text[MatcherAt(b, k)(text)[i].0..MatcherAt(b, k)(text)[i].1])
  {
    assert Sound(MatcherAt(b, k), FormAt(k));
  }

  /** One finding record per span, in the matcher's order. */
  function SpanFindings(entity: string, text: string, spans: seq<Span>): (fs: seq<Finding>)
    requires forall i :: 0 <= i < |spans| ==> 0 <= spans[i].0 <= spans[i].1 <= |text|
    ensures |fs| == |spans|
    ensures forall i :: 0 <= i < |fs| ==>
              fs[i] == Finding(entity, spans[i].0, spans[i].1, text[spans[i].0..spans[i].1])
  {
    if spans == [] then []
    else
      var last := spans[|spans| - 1];
      SpanFindings(entity, text, spans[..|spans| - 1]) + [Finding(entity, last.0, last.1, text[last.0..last.1])]
  }

  /** The findings of the first `k` patterns. */
  function RegexFindingsUpTo(text: string, b: Battery, k: nat): seq<Finding>
    requires k <= 4
  {
    if k == 0 then []
    else
      MatcherAtSound(b, k - 1, text);
      RegexFindingsUpTo(text, b, k - 1) + SpanFindings(Labels[k - 1], text, MatcherAt(b, k - 1)(text))
  }

  /** What `detect_regex(text)` returns. */
  function RegexFindings(text: string, b: Battery): seq<Finding> {
    RegexFindingsUpTo(text, b, 4)
  }

  /** `detect_regex`: for each pattern in turn, one finding per match. */
  method DetectRegex(text: string, b: Battery) returns (findings: seq<Finding>)
    ensures findings == RegexFindings(text, b)
  {
    findings := [];
    for k := 0 to 4
      invariant findings == RegexFindingsUpTo(text, b, k)
    {
      MatcherAtSound(b, k, text);
      findings := AppendFindings(findings, Labels[k], text, MatcherAt(b, k)(text));
    }
  }

  /** The inner loop of `detect_regex`: one finding appended per span. */
  method AppendFindings(prefix: seq<Finding>, entity: string, text: string, spans: seq<Span>)
    returns (findings: seq<Finding>)
    requires forall i :: 0 <= i < |spans| ==> 0 <= spans[i].0 <= spans[i].1 <= |text|
    ensures findings == prefix + SpanFindings(entity, text, spans)
  {
    findings := prefix;
    for i := 0 to |spans|
      invariant findings == prefix + SpanFindings(entity, text, spans[..i])
    {
      assert spans[..i + 1][..i] == spans[..i];
      findings := findings + [Finding(entity, spans[i].0, spans[i].1, text[spans[i].0..spans[i].1])];
    }
    assert spans[..|spans|] == spans;
  }

  /** Each finding is a non-empty match of its own pattern, with the text it covers. */
  ghost predicate Located(text: string, fs: seq<Finding>, k: nat)
    requires k <= 4
  {
    forall i :: 0 <= i < |fs| ==>
      Rank(fs[i].entity) < k
      && 0 <= fs[i].start < fs[i].end <= |text|
      && fs[i].matched == text[fs[i].start..fs[i].end]
      && FormAt(Rank(fs[i].entity))(fs[i].matched)
  }

  /** Grouped by pattern, in the order of `Labels`. */
  predicate RankSorted(fs: seq<Finding>) {
    forall i, j :: 0 <= i < j < |fs| ==> Rank(fs[i].entity) <= Rank(fs[j].entity)
  }

  /** Ascending and non-overlapping within one pattern. */
  predicate Disjoint(fs: seq<Finding>) {
    forall i, j :: 0 <= i < j < |fs| && fs[i].entity == fs[j].entity ==> fs[i].end <= fs[j].start
  }

  ghost predicate Arranged(text: string, fs: seq<Finding>, k: nat)
    requires k <= 4
  {
    Located(text, fs, k) && RankSorted(fs) && Disjoint(fs)
  }

  lemma {:induction false} UpToArranged(text: string, b: Battery, k: nat)
    requires k <= 4
    ensures Arranged(text, RegexFindingsUpTo(text, b, k), k)
  {
    if k > 0 {
      UpToArranged(text, b, k - 1);
      MatcherAtSound(b, k - 1, text);
      var before := RegexFindingsUpTo(text, b, k - 1);
      var spans := MatcherAt(b, k - 1)(text);
      BlockLocated(text, before, spans, k);
      BlockSorted(text, before, spans, k);
      BlockDisjoint(text, before, spans, k);
    }
  }

  lemma BlockLocated(text: string, before: seq<Finding>, spans: seq<Span>, k: nat)
    requires 0 < k <= 4
    requires Located(text, before, k - 1)
    requires SpansOk(text, spans)
    requires forall i :: 0 <= i < |spans| ==> FormAt(k - 1)(text[spans[i].0..spans[i].1])
    ensures Located(text, before + SpanFindings(Labels[k - 1], text, spans), k)
  {
    var block := SpanFindings(Labels[k - 1], text, spans);
    var fs := before + block;
    assert Rank(Labels[k - 1]) == k - 1;
    forall i | 0 <= i < |fs|
      ensures Rank(fs[i].entity) < k
      ensures 0 <= fs[i].start < fs[i].end <= |text|
      ensures fs[i].matched == text[fs[i].start..fs[i].end]
      ensures FormAt(Rank(fs[i].entity))(fs[i].matched)
    {
      if i >= |before| {
        assert fs[i] == block[i - |before|];
      } else {
        assert fs[i] == before[i];
      }
    }
  }

  lemma BlockSorted(text: string, before: seq<Finding>, spans: seq<Span>, k: nat)
    requires 0 < k <= 4
    requires Located(text, before, k - 1) && RankSorted(before)
    requires SpansOk(text, spans)
    ensures RankSorted(before + SpanFindings(Labels[k - 1], text, spans))
  {
    var block := SpanFindings(Labels[k - 1], text, spans);
    var fs := before + block;
    assert Rank(Labels[k - 1]) == k - 1;
    forall i, j | 0 <= i < j < |fs|
      ensures Rank(fs[i].entity) <= Rank(fs[j].entity)
    {
      if j < |before| {
        assert fs[i] == before[i] && fs[j] == before[j];
      } else if i < |before| {
        assert fs[i] == before[i] && fs[j] == block[j - |before|];
      } else {
        assert fs[i] == block[i - |before|] && fs[j] == block[j - |before|];
      }
    }
  }

  lemma BlockDisjoint(text: string, before: seq<Finding>, spans: seq<Span>, k: nat)
    requires 0 < k <= 4
    requires Located(text, before, k - 1) && Disjoint(before)
    requires SpansOk(text, spans)
    ensures Disjoint(before + SpanFindings(Labels[k - 1], text, spans))
  {
    var block := SpanFindings(Labels[k - 1], text, spans);
    var fs := before + block;
    assert Rank(Labels[k - 1]) == k - 1;
    forall i, j | 0 <= i < j < |fs| && fs[i].entity == fs[j].entity
      ensures fs[i].end <= fs[j].start
    {
      if j < |before| {
        assert fs[i] == before[i] && fs[j] == before[j];
      } else if i < |before| {
        assert false;
      } else {
        assert fs[i] == block[i - |before|] && fs[j] == block[j - |before|];
        BlockOrdered(text, spans, i - |before|, j - |before|);
      }
    }
  }

  /** Within one pattern, matches come ascending and without overlap. */
  lemma {:induction false} BlockOrdered(text: string, spans: seq<Span>, i: nat, j: nat)
    requires SpansOk(text, spans) && i < j < |spans|
    ensures spans[i].1 <= spans[j].0
    decreases j - i
  {
    if i + 1 < j {
      BlockOrdered(text, spans, i + 1, j);
    }
  }

  /** Every regex finding lies inside the text, is non-empty and records the
      text it covers; the findings are grouped by pattern in the order EMAIL,
      PHONE, CREDIT_CARD, CAN_SIN, ascending and non-overlapping within one
      pattern. */
  lemma RegexFindingsArranged(text: string, b: Battery)
    ensures var fs := RegexFindings(text, b);
            && (forall i :: 0 <= i < |fs| ==>
                  fs[i].entity in Labels && 0 <= fs[i].start < fs[i].end <= |text|
                  && fs[i].matched == text[fs[i].start..fs[i].end])
            && (forall i, j :: 0 <= i < j < |fs| ==> Rank(fs[i].entity) <= Rank(fs[j].entity))
            && (forall i, j :: 0 <= i < j < |fs| && fs[i].entity == fs[j].entity ==> fs[i].end <= fs[j].start)
  {
    UpToArranged(text, b, 4);
  }

  /** The shape facts the pattern text fixes: a CAN_SIN match has nine
      digits and 9 to 11 characters, a CREDIT_CARD match 13 to 19 digits, a
      PHONE match 7 to 13 digits, an EMAIL match exactly one `@`. */
  lemma RegexFindingShapes(text: string, b: Battery)
    ensures var fs := RegexFindings(text, b);
            forall i :: 0 <= i < |fs| ==>
              (fs[i].entity == "CAN_SIN" ==> DigitCount(fs[i].matched) == 9 && 9 <= |fs[i].matched| <= 11)
              && (fs[i].entity == "CREDIT_CARD" ==> 13 <= DigitCount(fs[i].matched) <= 19)
              && (fs[i].entity == "PHONE" ==> 7 <= DigitCount(fs[i].matched) <= 13)
              && (fs[i].entity == "EMAIL" ==> CountIf(fs[i].matched, IsAt) == 1)
  {
    var fs := RegexFindings(text, b);
    UpToArranged(text, b, 4);
    forall i | 0 <= i < |fs|
      ensures fs[i].entity == "CAN_SIN" ==> DigitCount(fs[i].matched) == 9 && 9 <= |fs[i].matched| <= 11
      ensures fs[i].entity == "CREDIT_CARD" ==> 13 <= DigitCount(fs[i].matched) <= 19
      ensures fs[i].entity == "PHONE" ==> 7 <= DigitCount(fs[i].matched) <= 13
      ensures fs[i].entity == "EMAIL" ==> CountIf(fs[i].matched, IsAt) == 1
    {
      var m := fs[i].matched;
      assert FormAt(Rank(fs[i].entity))(m);
      if fs[i].entity == "CAN_SIN" {
        SinShape(m);
      } else if fs[i].entity == "CREDIT_CARD" {
        CardShape(m);
      } else if fs[i].entity == "PHONE" {
        PhoneShape(m);
      } else if fs[i].entity == "EMAIL" {
        EmailShape(m);
      }
    }
  }

  lemma {:induction false} UpToPrefix(text: string, b: Battery, k: nat, k': nat)
    requires k <= k' <= 4
    ensures IsPrefix(RegexFindingsUpTo(text, b, k), RegexFindingsUpTo(text, b, k'))
    decreases k' - k
  {
    if k < k' {
      UpToPrefix(text, b, k, k' - 1);
      UpToStep(text, b, k' - 1);
      PrefixTrans(RegexFindingsUpTo(text, b, k), RegexFindingsUpTo(text, b, k' - 1), RegexFindingsUpTo(text, b, k'));
    } else {
      var s := RegexFindingsUpTo(text, b, k);
      assert s[..|s|] == s;
    }
  }

  lemma UpToStep(text: string, b: Battery, k: nat)
    requires k < 4
    ensures IsPrefix(RegexFindingsUpTo(text, b, k), RegexFindingsUpTo(text, b, k + 1))
  {
    var shorter := RegexFindingsUpTo(text, b, k);
    var longer := RegexFindingsUpTo(text, b, k + 1);
    MatcherAtSound(b, k, text);
    assert longer == shorter + SpanFindings(Labels[k], text, MatcherAt(b, k)(text));
    assert longer[..|shorter|] == shorter;
  }

  /** Nothing is dropped or merged: every match of every pattern is a
      finding, overlaps between patterns included. */
  lemma EveryMatchKept(text: string, b: Battery, k: nat, i: nat)
    requires k < 4 && i < |MatcherAt(b, k)(text)|
    ensures var s := MatcherAt(b, k)(text)[i];
            0 <= s.0 < s.1 <= |text| && Finding(Labels[k], s.0, s.1, text[s.0..s.1]) in RegexFindings(text, b)
  {
    MatcherAtSound(b, k, text);
    var s := MatcherAt(b, k)(text)[i];
    BlockInUpTo(text, b, k, i);
    UpToPrefix(text, b, k + 1, 4);
    PrefixMember(RegexFindingsUpTo(text, b, k + 1), RegexFindings(text, b), Finding(Labels[k], s.0, s.1, text[s.0..s.1]));
  }

  lemma BlockInUpTo(text: string, b: Battery, k: nat, i: nat)
    requires k < 4 && i < |MatcherAt(b, k)(text)|
    ensures var s := MatcherAt(b, k)(text)[i];
            0 <= s.0 < s.1 <= |text| && Finding(Labels[k], s.0, s.1, text[s.0..s.1]) in RegexFindingsUpTo(text, b, k + 1)
  {
    MatcherAtSound(b, k, text);
    var before := RegexFindingsUpTo(text, b, k);
    var block := SpanFindings(Labels[k], text, MatcherAt(b, k)(text));
    var upto := RegexFindingsUpTo(text, b, k + 1);
    assert upto == before + block;
    assert upto[|before| + i] == block[i];
  }

  /** ... and there are exactly as many findings as matches. */
  lemma MatchCount(text: string, b: Battery)
    ensures |RegexFindings(text, b)| == |b.email(text)| + |b.phone(text)| + |b.card(text)| + |b.sin(text)|
  {
    assert |RegexFindingsUpTo(text, b, 1)| == |b.email(text)|;
    assert |RegexFindingsUpTo(text, b, 2)| == |b.email(text)| + |b.phone(text)|;
    assert |RegexFindingsUpTo(text, b, 3)| == |b.email(text)| + |b.phone(text)| + |b.card(text)|;
  }

  // ---------------------------------------------------------------------
  // Presidio and the dispatch
  // ---------------------------------------------------------------------

  /** One `RecognizerResult` of the analyser. */
  datatype Recognized = Recognized(entityType: string, start: int, end: int)

  /** `AnalyzerEngine().analyze(text=..., entities=..., language="en")` */
  type Engine = (string, Value) -> seq<Recognized>

  /** `detect_presidio`: no findings when the analyser cannot be loaded;
      otherwise one finding per analyser result, with the text its offsets
      cover (Python slicing, so out-of-range offsets are clamped). */
  function DetectPresidio(text: string, entities: Value, engine: Option<Engine>): (fs: seq<Finding>)
    ensures engine.None? ==> fs == []
    ensures engine.Some? ==> |fs| == |engine.value(text, entities)|
    ensures engine.Some? ==> forall i :: 0 <= i < |fs| ==>
              var r := engine.value(text, entities)[i];
              && fs[i].entity == r.entityType && fs[i].start == r.start && fs[i].end == r.end
              && fs[i].matched == Slice(text, r.start, r.end)
              && (0 <= r.start <= r.end <= |text| ==> fs[i].matched == text[r.start..r.end])
  {
    match engine
    case None => []
    case Some(analyze) =>
      var res := analyze(text, entities);
      seq(|res|, i requires 0 <= i < |res| =>
        Finding(res[i].entityType, res[i].start, res[i].end, Slice(text, res[i].start, res[i].end)))
  }

  /** What `detect(text, use_presidio, entities)` returns. */
  function Detected(text: string, usePresidio: Value, entities: Value, b: Battery, engine: Option<Engine>): seq<Finding> {
    if Truthy(usePresidio) then DetectPresidio(text, entities, engine) else RegexFindings(text, b)
  }

  /** The entity list and the analyser reach only the Presidio path; the
      regex matchers reach only the regex path. */
  lemma DispatchUses(text: string, usePresidio: Value, e1: Value, e2: Value,
                     b1: Battery, b2: Battery, g1: Option<Engine>, g2: Option<Engine>)
    ensures !Truthy(usePresidio) ==>
              Detected(text, usePresidio, e1, b1, g1) == Detected(text, usePresidio, e2, b1, g2)
    ensures Truthy(usePresidio) ==>
              Detected(text, usePresidio, e1, b1, g1) == Detected(text, usePresidio, e1, b2, g1)
    ensures Truthy(usePresidio) && g1.None? ==> Detected(text, usePresidio, e1, b1, g1) == []
  {
  }

  /** `detect`: the Presidio path exactly when `use_presidio` is truthy. */
  method Detect(text: string, usePresidio: Value, entities: Value, b: Battery, engine: Option<Engine>)
    returns (findings: seq<Finding>)
    ensures findings == Detected(text, usePresidio, entities, b, engine)
  {
    if Truthy(usePresidio) {
      findings := DetectPresidio(text, entities, engine);
    } else {
      findings := DetectRegex(text, b);
    }
  }

  /** "contact me at alice@example.com": the address sits at offsets 14 to
      31, is in the EMAIL language, and a matcher reporting that span makes
      it the first finding. */
  lemma ContactExample(b: Battery)
    requires b.email("contact me at alice@example.com") == [(14, 31)]
    ensures var text := "contact me at alice@example.com";
            && text[14..31] == "alice@example.com" && EmailForm(text[14..31])
            && |RegexFindings(text, b)| > 0
            && RegexFindings(text, b)[0] == Finding("EMAIL", 14, 31, "alice@example.com")
  {
    var text := "contact me at alice@example.com";
    assert text[14..31] == "alice@example.com";
    ExampleAddress();
    EveryMatchKept(text, b, 0, 0);
    UpToPrefix(text, b, 1, 4);
    assert RegexFindingsUpTo(text, b, 1)[0] == Finding("EMAIL", 14, 31, text[14..31]);
  }
}
