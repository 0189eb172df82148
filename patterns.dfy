/** The languages of the four detector patterns (the text a match may cover),
    written out from the pattern text. Word boundaries, greediness and
    laziness decide where a match starts and ends; they do not widen the
    language and are not modelled. `\d` is an ASCII digit and `\s` ASCII
    white space. */
module Patterns {

  predicate IsDigit(c: char) { '0' <= c <= '9' }

  predicate IsLetter(c: char) { 'A' <= c <= 'Z' || 'a' <= c <= 'z' }

  predicate IsSpace(c: char) {
    c == ' ' || c == '\t' || c == '\n' || c == '\r' || c == '\U{0B}' || c == '\U{0C}'
  }

  predicate AllDigits(s: string) {
    forall i :: 0 <= i < |s| ==> IsDigit(s[i])
  }

  /** The number of characters of `s` that satisfy `p`. */
  function CountIf(s: string, p: char -> bool): (n: nat)
    ensures n <= |s|
  {
    if s == [] then 0 else CountIf(s[..|s| - 1], p) + (if p(s[|s| - 1]) then 1 else 0)
  }

  lemma {:induction false} CountIfAppend(a: string, b: string, p: char -> bool)
    ensures CountIf(a + b, p) == CountIf(a, p) + CountIf(b, p)
    decreases |b|
  {
    if b != [] {
      assert (a + b)[..|a + b| - 1] == a + b[..|b| - 1];
      CountIfAppend(a, b[..|b| - 1], p);
    } else {
      assert a + b == a;
    }
  }

  lemma {:induction false} CountIfAll(s: string, p: char -> bool)
    requires forall i :: 0 <= i < |s| ==> p(s[i])
    ensures CountIf(s, p) == |s|
    decreases |s|
  {
    if s != [] {
      CountIfAll(s[..|s| - 1], p);
    }
  }

  lemma {:induction false} CountIfNone(s: string, p: char -> bool)
    requires forall i :: 0 <= i < |s| ==> !p(s[i])
    ensures CountIf(s, p) == 0
    decreases |s|
  {
    if s != [] {
      CountIfNone(s[..|s| - 1], p);
    }
  }

  function DigitCount(s: string): nat {
    CountIf(s, IsDigit)
  }

  // ---------------------------------------------------------------------
  // CAN_SIN: \d{3}[- ]?\d{3}[- ]?\d{3}
  // ---------------------------------------------------------------------

  predicate SinSep(c: char) { c == '-' || c == ' ' }

  /** `[- ]?` in front of a digit group: skip one separator if there is one. */
  function SkipSinSep(s: string): (r: string)
    ensures |r| <= |s|
  {
    if s != [] && SinSep(s[0]) then s[1..] else s
  }

  predicate SinForm(s: string) {
    |s| >= 3 && AllDigits(s[..3])
    && var t := SkipSinSep(s[3..]);
    |t| >= 3 && AllDigits(t[..3])
    && var u := SkipSinSep(t[3..]);
    |u| == 3 && AllDigits(u)
  }

  /** Three digits and at most one separator. */
  lemma GroupThenSep(s: string)
    requires |s| >= 3 && AllDigits(s[..3])
    ensures DigitCount(s) == 3 + DigitCount(SkipSinSep(s[3..]))
    ensures |s| - 3 - |SkipSinSep(s[3..])| <= 1
  {
    assert s == s[..3] + s[3..];
    CountIfAppend(s[..3], s[3..], IsDigit);
    CountIfAll(s[..3], IsDigit);
    var rest := s[3..];
    if rest != [] && SinSep(rest[0]) {
      assert rest == [rest[0]] + rest[1..];
      CountIfAppend([rest[0]], rest[1..], IsDigit);
      CountIfNone([rest[0]], IsDigit);
    }
  }

  /** Every CAN_SIN match holds exactly nine digits and is 9 to 11 long. */
  lemma SinShape(s: string)
    requires SinForm(s)
    ensures DigitCount(s) == 9
    ensures 9 <= |s| <= 11
  {
    var t := SkipSinSep(s[3..]);
    var u := SkipSinSep(t[3..]);
    GroupThenSep(s);
    GroupThenSep(t);
    CountIfAll(u, IsDigit);
  }

  // ---------------------------------------------------------------------
  // CREDIT_CARD: (?:\d[ -]*?){13,19}
  // ---------------------------------------------------------------------

  /** The number of separators `[ -]` at the front of `s`. */
  function SepRun(s: string): (n: nat)
    ensures n <= |s|
    ensures forall i :: 0 <= i < n ==> SinSep(s[i])
    ensures n < |s| ==> !SinSep(s[n])
  {
    if s != [] && SinSep(s[0]) then 1 + SepRun(s[1..]) else 0
  }

  /** `s` is `n` groups, each a digit followed by any run of separators. */
  predicate CardGroups(s: string, n: nat)
    decreases n
  {
    if n == 0 then s == []
    else |s| > 0 && IsDigit(s[0]) && CardGroups(s[1 + SepRun(s[1..])..], n - 1)
  }

  predicate CardForm(s: string) {
    exists n :: 13 <= n <= 19 && CardGroups(s, n)
  }

  lemma {:induction false} CardGroupsDigits(s: string, n: nat)
    requires CardGroups(s, n)
    ensures DigitCount(s) == n
    ensures n > 0 ==> IsDigit(s[0])
    decreases n
  {
    if n > 0 {
      var k := 1 + SepRun(s[1..]);
      CardGroupsDigits(s[k..], n - 1);
      assert forall i :: 1 <= i < k ==> s[i] == s[1..][i - 1];
      GroupDigits(s, k);
    }
  }

  /** A digit followed by separators up to `k` adds one digit. */
  lemma GroupDigits(s: string, k: nat)
    requires 1 <= k <= |s| && IsDigit(s[0])
    requires forall i :: 1 <= i < k ==> SinSep(s[i])
    ensures DigitCount(s) == 1 + DigitCount(s[k..])
  {
    CountIfSplit(s, 1, k, IsDigit);
    CountIfAll(s[..1], IsDigit);
    assert forall i :: 0 <= i < |s[1..k]| ==> s[1..k][i] == s[i + 1];
    CountIfNone(s[1..k], IsDigit);
  }

  /** Every CREDIT_CARD match starts with a digit and holds 13 to 19 digits. */
  lemma CardShape(s: string)
    requires CardForm(s)
    ensures 13 <= DigitCount(s) <= 19
    ensures IsDigit(s[0])
  {
    var n :| 13 <= n <= 19 && CardGroups(s, n);
    CardGroupsDigits(s, n);
  }

  // ---------------------------------------------------------------------
  // PHONE: (?:\+?\d{1,3}[-.\s]?)?(?:\(?\d{3}\)?[-.\s]?)?\d{3}[-.\s]?\d{4}
  // ---------------------------------------------------------------------

  predicate PhoneSep(c: char) { c == '-' || c == '.' || IsSpace(c) }

  /** `s` less one trailing separator, when it has one. */
  function DropTrailingSep(s: string): string {
    if s != [] && PhoneSep(s[|s| - 1]) then s[..|s| - 1] else s
  }

  /** `\+?\d{1,3}[-.\s]?` */
  predicate CountryCode(s: string) {
    var u := if s != [] && s[0] == '+' then s[1..] else s;
    var v := DropTrailingSep(u);
    1 <= |v| <= 3 && AllDigits(v)
  }

  /** `\(?\d{3}\)?[-.\s]?` */
  predicate AreaCode(s: string) {
    var u := if s != [] && s[0] == '(' then s[1..] else s;
    var v := DropTrailingSep(u);
    var w := if v != [] && v[|v| - 1] == ')' then v[..|v| - 1] else v;
    |w| == 3 && AllDigits(w)
  }

  /** `\d{3}[-.\s]?\d{4}` */
  predicate LocalNumber(s: string) {
    (|s| == 7 && AllDigits(s))
    || (|s| == 8 && AllDigits(s[..3]) && PhoneSep(s[3]) && AllDigits(s[4..]))
  }

  /** An optional country code, an optional area code, then the local number. */
  predicate PhoneForm(s: string) {
    exists i, j :: 0 <= i <= j <= |s| && PhoneParts(s, i, j)
  }

  predicate PhoneParts(s: string, i: int, j: int)
    requires 0 <= i <= j <= |s|
  {
    (i == 0 || CountryCode(s[..i])) && (j == i || AreaCode(s[i..j])) && LocalNumber(s[j..])
  }

  /** Removing separators and one bracket or plus sign removes no digit. */
  lemma StripDigits(s: string, k: nat)
    requires k <= |s|
    requires forall i :: 0 <= i < k ==> !IsDigit(s[i])
    ensures DigitCount(s) == DigitCount(s[k..])
  {
    assert s == s[..k] + s[k..];
    CountIfAppend(s[..k], s[k..], IsDigit);
    CountIfNone(s[..k], IsDigit);
  }

  lemma DropTrailingDigits(s: string)
    ensures DigitCount(s) == DigitCount(DropTrailingSep(s))
  {
    if s != [] && PhoneSep(s[|s| - 1]) {
      assert s == s[..|s| - 1] + [s[|s| - 1]];
      CountIfAppend(s[..|s| - 1], [s[|s| - 1]], IsDigit);
      CountIfNone([s[|s| - 1]], IsDigit);
    }
  }

  lemma CountryDigits(s: string)
    requires CountryCode(s)
    ensures 1 <= DigitCount(s) <= 3
  {
    var u := if s != [] && s[0] == '+' then s[1..] else s;
    if s != [] && s[0] == '+' {
      StripDigits(s, 1);
    }
    DropTrailingDigits(u);
    CountIfAll(DropTrailingSep(u), IsDigit);
  }

  lemma AreaDigits(s: string)
    requires AreaCode(s)
    ensures DigitCount(s) == 3
  {
    var u := if s != [] && s[0] == '(' then s[1..] else s;
    var v := DropTrailingSep(u);
    var w := if v != [] && v[|v| - 1] == ')' then v[..|v| - 1] else v;
    if s != [] && s[0] == '(' {
      StripDigits(s, 1);
    }
    DropTrailingDigits(u);
    if v != [] && v[|v| - 1] == ')' {
      assert v == w + [v[|v| - 1]];
      CountIfAppend(w, [v[|v| - 1]], IsDigit);
      CountIfNone([v[|v| - 1]], IsDigit);
    }
    CountIfAll(w, IsDigit);
  }

  lemma LocalDigits(s: string)
    requires LocalNumber(s)
    ensures DigitCount(s) == 7
  {
    if |s| == 7 {
      CountIfAll(s, IsDigit);
    } else {
      assert s == s[..3] + [s[3]] + s[4..];
      CountIfAppend(s[..3] + [s[3]], s[4..], IsDigit);
      CountIfAppend(s[..3], [s[3]], IsDigit);
      CountIfAll(s[..3], IsDigit);
      CountIfNone([s[3]], IsDigit);
      CountIfAll(s[4..], IsDigit);
    }
  }

  lemma CountIfSplit(s: string, i: int, j: int, p: char -> bool)
    requires 0 <= i <= j <= |s|
    ensures CountIf(s, p) == CountIf(s[..i], p) + CountIf(s[i..j], p) + CountIf(s[j..], p)
  {
    assert s[..j] == s[..i] + s[i..j];
    assert s == s[..j] + s[j..];
    CountIfAppend(s[..j], s[j..], p);
    CountIfAppend(s[..i], s[i..j], p);
  }

  /** Every PHONE match holds 7 to 13 digits: the local number's seven, up to
      three of a country code and three of an area code. */
  lemma PhoneShape(s: string)
    requires PhoneForm(s)
    ensures 7 <= DigitCount(s) <= 13
  {
    var i, j :| 0 <= i <= j <= |s| && PhoneParts(s, i, j);
    CountIfSplit(s, i, j, IsDigit);
    if i != 0 { CountryDigits(s[..i]); }
    if j != i { AreaDigits(s[i..j]); }
    LocalDigits(s[j..]);
  }

  // ---------------------------------------------------------------------
  // EMAIL: [A-Za-z0-9._%+-]+@[A-Za-z0-9.-]+\.[A-Za-z]{2,}
  // ---------------------------------------------------------------------

  predicate LocalChar(c: char) {
    IsLetter(c) || IsDigit(c) || c == '.' || c == '_' || c == '%' || c == '+' || c == '-'
  }

  predicate DomainChar(c: char) {
    IsLetter(c) || IsDigit(c) || c == '.' || c == '-'
  }

  predicate AllOf(s: string, p: char -> bool) {
    forall i :: 0 <= i < |s| ==> p(s[i])
  }

  /** `[A-Za-z0-9.-]+\.[A-Za-z]{2,}` split at the dot `j`. */
  predicate DomainAt(d: string, j: int)
    requires 0 <= j < |d|
  {
    0 < j && d[j] == '.' && AllOf(d[..j], DomainChar) && |d| - j - 1 >= 2 && AllOf(d[j + 1..], IsLetter)
  }

  /** The whole match split at the `@` at `i` and the dot at `j` (counted from
      the start of the domain). */
  predicate EmailAt(s: string, i: int, j: int)
    requires 0 <= i < |s|
  {
    0 < i && s[i] == '@' && AllOf(s[..i], LocalChar) && 0 <= j < |s| - i - 1 && DomainAt(s[i + 1..], j)
  }

  predicate EmailForm(s: string) {
    exists i, j :: 0 <= i < |s| && 0 <= j < |s| && EmailAt(s, i, j)
  }

  predicate IsAt(c: char) { c == '@' }

  /** No `@` in a domain. */
  lemma DomainHasNoAt(d: string, j: int)
    requires 0 <= j < |d| && DomainAt(d, j)
    ensures CountIf(d, IsAt) == 0
  {
    forall k | 0 <= k < |d| ensures !IsAt(d[k]) {
      if k < j {
        assert d[k] == d[..j][k];
      } else if k > j {
        assert d[k] == d[j + 1..][k - j - 1];
      }
    }
    CountIfNone(d, IsAt);
  }

  lemma AtCountAt(s: string, i: int, j: int)
    requires 0 <= i < |s| && EmailAt(s, i, j)
    ensures CountIf(s, IsAt) == 1
  {
    CountIfSplit(s, i, i + 1, IsAt);
    assert s[i..i + 1] == [s[i]];
    CountIfAll([s[i]], IsAt);
    var local := s[..i];
    assert AllOf(local, LocalChar);
    forall k | 0 <= k < |local| ensures !IsAt(local[k]) {
      assert LocalChar(local[k]);
    }
    CountIfNone(local, IsAt);
    DomainHasNoAt(s[i + 1..], j);
  }

  /** Every EMAIL match holds exactly one `@`, with a non-empty local part
      before it and a domain with a dot after it. */
  lemma EmailShape(s: string)
    requires EmailForm(s)
    ensures CountIf(s, IsAt) == 1
    ensures exists i :: 0 < i < |s| && s[i] == '@' && '.' in s[i + 1..]
  {
    var i, j :| 0 <= i < |s| && 0 <= j < |s| && EmailAt(s, i, j);
    AtCountAt(s, i, j);
    assert s[i + 1..][j] == '.';
  }

  /** The address in the detector's example text is in the EMAIL language. */
  lemma ExampleAddress()
    ensures EmailForm("alice@example.com")
  {
    var s := "alice@example.com";
    var d := s[6..];
    assert d == "example.com";
    assert d[..7] == "example" && d[8..] == "com";
    assert DomainAt(d, 7);
    assert s[..5] == "alice";
    assert EmailAt(s, 5, 7);
  }
}
