/** The retention rule of the document migration: a German free-text
    retention phrase becomes "not specified" (`None`), "keep indefinitely"
    (`Some(0)`) or a number of years. */
module Retention {
  import opened Wrappers
  import opened JsString

  const BisErsatz := "bis Ersatz"
  const Unbefristet := "unbefristet"
  const KeineAufbewahrung := "keine Aufbewahrung"
  const BisBearbeitungszweck := "bis Bearbeitungszweck entfällt"

  /** "Jahr" in any mix of upper and lower case starts at index `i`. The
      optional trailing `e` of `Jahre?` never decides whether or where the
      pattern matches, nor what its group captures. */
  predicate JahrAt(s: string, i: int) {
    0 <= i && i + 4 <= |s|
    && (s[i] == 'J' || s[i] == 'j')
    && (s[i + 1] == 'A' || s[i + 1] == 'a')
    && (s[i + 2] == 'H' || s[i + 2] == 'h')
    && (s[i + 3] == 'R' || s[i + 3] == 'r')
  }

  /** `(\d+)\s*Jahre?` (flag `i`) matches at index `p` with a group of `k`
      digits followed by `w` whitespace characters. */
  predicate YearsMatch(s: string, p: int, k: int, w: int) {
    0 <= p && 1 <= k && 0 <= w && p + k + w <= |s|
    && (forall i :: p <= i < p + k ==> IsDigit(s[i]))
    && (forall i :: p + k <= i < p + k + w ==> IsWhitespace(s[i]))
    && JahrAt(s, p + k + w)
  }

  /** At a given start the pattern can match in one way only: the digit group
      and the whitespace are the longest runs there. So the greedy group is
      the only possible group. */
  lemma YearsMatchIsLongestRuns(s: string, p: nat, k: nat, w: nat)
    requires YearsMatch(s, p, k, w)
    ensures k == Span(s, p, IsDigit) && w == Span(s, p + k, IsWhitespace)
  {
    SpanIsLongest(s, p, IsDigit, k);
    SpanIsLongest(s, p + k, IsWhitespace, w);
    assert !IsDigit(s[p + k]);
    assert !IsWhitespace(s[p + k + w]);
  }

  /** `parseInt(digits, 10)` of a run of decimal digits. */
  function DecimalValue(digits: string): nat
    requires forall i :: 0 <= i < |digits| ==> IsDigit(digits[i])
  {
    if digits == [] then 0
    else
      var last := digits[|digits| - 1];
      assert IsDigit(last);
      10 * DecimalValue(digits[..|digits| - 1]) + (last as int - '0' as int)
  }

  /** The match the regular expression engine reports when it tries the
      start positions from `p` on: the leftmost start, and there the
      longest group. */
  ghost predicate FirstYearsMatch(s: string, from: int, p: int, k: int, w: int) {
    from <= p && YearsMatch(s, p, k, w)
    && forall q, k', w' :: from <= q && YearsMatch(s, q, k', w') ==> p < q || (p == q && k' <= k)
  }

  /** `v` is the value of the digit group of that match. */
  ghost predicate ReportsYears(s: string, from: int, v: nat) {
    exists q, k, w :: FirstYearsMatch(s, from, q, k, w) && v == DecimalValue(s[q..q + k])
  }

  /** The scan's test at start `p`: the longest digit run there is non-empty
      and, after the longest whitespace run, "Jahr" follows. */
  predicate YearsHere(s: string, p: nat)
    requires p <= |s|
  {
    var k := Span(s, p, IsDigit);
    k > 0 && JahrAt(s, p + k + Span(s, p + k, IsWhitespace))
  }

  lemma YearsHereIsFirst(s: string, p: nat)
    requires p <= |s| && YearsHere(s, p)
    ensures FirstYearsMatch(s, p, p, Span(s, p, IsDigit), Span(s, p + Span(s, p, IsDigit), IsWhitespace))
  {
    var k := Span(s, p, IsDigit);
    var w := Span(s, p + k, IsWhitespace);
    assert YearsMatch(s, p, k, w);
    forall q, k', w' | p <= q && YearsMatch(s, q, k', w') && q == p
      ensures k' <= k
    {
      YearsMatchIsLongestRuns(s, q, k', w');
    }
  }

  lemma YearsMatchHere(s: string, p: nat, k: nat, w: nat)
    requires YearsMatch(s, p, k, w)
    ensures p <= |s| && YearsHere(s, p)
  {
    YearsMatchIsLongestRuns(s, p, k, w);
    assert JahrAt(s, p + Span(s, p, IsDigit) + Span(s, p + k, IsWhitespace));
  }

  lemma NotYearsHere(s: string, p: nat)
    requires p <= |s| && !YearsHere(s, p)
    ensures forall k, w :: !YearsMatch(s, p, k, w)
  {
    forall k: nat, w: nat | YearsMatch(s, p, k, w)
      ensures false
    {
      YearsMatchHere(s, p, k, w);
    }
  }

  /** The engine's scan for `(\d+)\s*Jahre?`: try the start positions from
      `p` on, and give the value of the captured digits at the first start
      that matches. */
  function FindYearsFrom(s: string, p: nat): Option<nat>
    requires p <= |s|
    decreases |s| - p
  {
    if p == |s| then None
    else if YearsHere(s, p) then Some(DecimalValue(s[p..p + Span(s, p, IsDigit)]))
    else FindYearsFrom(s, p + 1)
  }

  /** The scan from `p` finds nothing exactly when the pattern matches at no
      start from `p` on. */
  lemma {:induction false} FindYearsFromNoneIffNoMatch(s: string, p: nat)
    requires p <= |s|
    ensures FindYearsFrom(s, p).None? <==> forall q, k, w :: p <= q ==> !YearsMatch(s, q, k, w)
    decreases |s| - p
  {
    if p == |s| {
    } else if YearsHere(s, p) {
      YearsHereIsFirst(s, p);
    } else {
      NotYearsHere(s, p);
      FindYearsFromNoneIffNoMatch(s, p + 1);
    }
  }

  /** A match at `p` itself is the first one from `p` on. */
  lemma ReportsYearsHere(s: string, p: nat)
    requires p <= |s| && YearsHere(s, p)
    ensures ReportsYears(s, p, DecimalValue(s[p..p + Span(s, p, IsDigit)]))
  {
    YearsHereIsFirst(s, p);
    var k := Span(s, p, IsDigit);
    assert FirstYearsMatch(s, p, p, k, Span(s, p + k, IsWhitespace));
  }

  /** When the pattern does not match at `p`, the first match from `p` on is
      the first one from `p + 1` on. */
  lemma FirstYearsMatchLater(s: string, p: nat, q: int, k: int, w: int)
    requires p < |s| && !YearsHere(s, p) && FirstYearsMatch(s, p + 1, q, k, w)
    ensures FirstYearsMatch(s, p, q, k, w)
  {
    NotYearsHere(s, p);
  }

  lemma ReportsYearsLater(s: string, p: nat, v: nat)
    requires p < |s| && !YearsHere(s, p) && ReportsYears(s, p + 1, v)
    ensures ReportsYears(s, p, v)
  {
    var q, k, w :| FirstYearsMatch(s, p + 1, q, k, w) && v == DecimalValue(s[q..q + k]);
    FirstYearsMatchLater(s, p, q, k, w);
  }

  /** Otherwise the scan reports the leftmost, greedy match. */
  lemma {:induction false} FindYearsFromIsFirstMatch(s: string, p: nat)
    requires p <= |s|
    ensures FindYearsFrom(s, p).Some? ==> ReportsYears(s, p, FindYearsFrom(s, p).value)
    decreases |s| - p
  {
    if p == |s| {
    } else if YearsHere(s, p) {
      ReportsYearsHere(s, p);
    } else {
      FindYearsFromIsFirstMatch(s, p + 1);
      if FindYearsFrom(s, p + 1).Some? {
        ReportsYearsLater(s, p, FindYearsFrom(s, p + 1).value);
      }
    }
  }

  /** `retentionStr.match(/(\d+)\s*Jahre?/i)` followed by `parseInt` of the
      group: the value of the leftmost digit run that is followed by optional
      whitespace and "Jahr", or `None` when there is none. */
  function FindYears(s: string): (r: Option<nat>)
    ensures r.None? <==> forall q, k, w :: !YearsMatch(s, q, k, w)
    ensures r.Some? ==> ReportsYears(s, 0, r.value)
  {
    FindYearsFromNoneIffNoMatch(s, 0);
    FindYearsFromIsFirstMatch(s, 0);
    FindYearsFrom(s, 0)
  }

  /** `parseRetention(retentionStr)`: `None` for "not specified", `Some(0)`
      for "keep indefinitely", `Some(n)` for n years. The keyword checks are
      tried in a fixed order, so an earlier keyword wins over a later one
      and over any "N Jahre" phrase. */
  function ParseRetention(retention: Option<string>): (r: Option<nat>)
    ensures !Truthy(retention) ==> r.None?
    ensures retention.Some? && (Contains(retention.value, BisErsatz) || Contains(retention.value, Unbefristet))
            ==> r == Some(0)
    ensures retention.Some? && !Contains(retention.value, BisErsatz) && !Contains(retention.value, Unbefristet)
            && Contains(retention.value, KeineAufbewahrung)
            ==> r.None?
    ensures retention.Some? && !Contains(retention.value, BisErsatz) && !Contains(retention.value, Unbefristet)
            && !Contains(retention.value, KeineAufbewahrung) && Contains(retention.value, BisBearbeitungszweck)
            ==> r == Some(0)
    ensures retention.Some? && !Contains(retention.value, BisErsatz) && !Contains(retention.value, Unbefristet)
            && !Contains(retention.value, KeineAufbewahrung) && !Contains(retention.value, BisBearbeitungszweck)
            ==> r == FindYears(retention.value)
  {
    if !Truthy(retention) then None
    else
      var s := retention.value;
      if Contains(s, BisErsatz) || Contains(s, Unbefristet) then Some(0)
      else if Contains(s, KeineAufbewahrung) then None
      else if Contains(s, BisBearbeitungszweck) then Some(0)
      else FindYears(s)
  }

  // Worked examples of the retention rule.

  // The worked examples below take the phrase as a parameter fixed by their
  // precondition. The proofs then reason about the variable `s` rather than
  // a string literal repeated in every step, which keeps each of them small.

  /** "bis Ersatz" (until replaced) means: keep indefinitely. */
  lemma UntilReplacedIsIndefinite(s: string)
    requires s == "bis Ersatz"
    ensures ParseRetention(Some(s)) == Some(0)
  {
    assert OccursAt(s, BisErsatz, 0);
  }

  /** "keine Aufbewahrung" (no retention) means: not specified. */
  lemma NoRetentionIsUnspecified(s: string)
    requires s == "keine Aufbewahrung"
    ensures ParseRetention(Some(s)) == None
  {
    LacksReplacementKeywords(s);
    assert OccursAt(s, KeineAufbewahrung, 0);
  }

  /** "10 Jahre" means ten years. */
  lemma TenYears(s: string)
    requires s == "10 Jahre"
    ensures ParseRetention(Some(s)) == Some(10)
  {
    LacksAllKeywords(s);
    TenYearsScan(s);
  }

  lemma TenYearsScan(s: string)
    requires s == "10 Jahre"
    ensures FindYears(s) == Some(10)
  {
    assert Span(s, 0, IsDigit) == 2 by {
      assert Span(s, 2, IsDigit) == 0;
    }
    assert Span(s, 2, IsWhitespace) == 1 by {
      assert Span(s, 3, IsWhitespace) == 0;
    }
    assert YearsHere(s, 0);
    assert s[0..2] == "10";
    assert DecimalValue("10") == 10 by {
      assert "10"[..1] == "1";
      assert "1"[..0] == "";
    }
  }

  /** A phrase with neither an 'E' nor an 's' contains neither "bis Ersatz"
      nor "unbefristet". */
  lemma LacksReplacementKeywords(s: string)
    requires 'E' !in s && 's' !in s
    ensures !Contains(s, BisErsatz) && !Contains(s, Unbefristet)
  {
    assert BisErsatz[4] == 'E';
    MissingCharNotContained(s, BisErsatz, 'E');
    assert Unbefristet[7] == 's';
    MissingCharNotContained(s, Unbefristet, 's');
  }

  /** A phrase with no 'E', 's' or 'k' contains none of the four keywords. */
  lemma LacksAllKeywords(s: string)
    requires 'E' !in s && 's' !in s && 'k' !in s
    ensures !Contains(s, BisErsatz) && !Contains(s, Unbefristet)
    ensures !Contains(s, KeineAufbewahrung) && !Contains(s, BisBearbeitungszweck)
  {
    LacksReplacementKeywords(s);
    assert KeineAufbewahrung[0] == 'k';
    MissingCharNotContained(s, KeineAufbewahrung, 'k');
    assert BisBearbeitungszweck[2] == 's';
    MissingCharNotContained(s, BisBearbeitungszweck, 's');
  }

  /** A missing or empty phrase means: not specified. */
  lemma NoPhraseIsUnspecified()
    ensures ParseRetention(Some("")) == None
    ensures ParseRetention(None) == None
  {
  }
}
