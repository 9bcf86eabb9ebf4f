/** `clean_price`: the numeric value of a free-text price cell, read by
    `re.search(r'(\d{1,3}(,\d{3})*|\d+)', price)`, stripped of commas and
    converted with `int`.

    Python's backtracking matcher tries start positions from the left and,
    at each, the alternatives in order. Both alternatives need a digit at
    the start, and the first one (`\d{1,3}` followed by zero or more
    `,ddd` groups) succeeds at any digit, so the match begins at the first
    digit, the second alternative `\d+` is never used, and an ungrouped run
    of four or more digits is cut after three. */
module Price {
  import opened Wrappers

  const COMMA: char := ','

  /** What `\d` and `int` treat as a decimal digit here: ASCII digits and the
      full-width digits U+FF10..U+FF19 found in Japanese text. */
  predicate IsDigit(c: char)
  {
    ('0' <= c <= '9') || ('\U{FF10}' <= c <= '\U{FF19}')
  }

  function DigitValue(c: char): (d: nat)
    requires IsDigit(c)
    ensures d < 10
  {
    if c <= '9' then (c as int) - ('0' as int) else (c as int) - ('\U{FF10}' as int)
  }

  predicate AllDigits(s: string)
  {
    forall i :: 0 <= i < |s| ==> IsDigit(s[i])
  }

  /** `int(ds)` for a non-empty string of decimal digits (leading zeros allowed). */
  function Value(ds: string): nat
    requires AllDigits(ds)
  {
    if ds == [] then 0 else Value(ds[..|ds| - 1]) * 10 + DigitValue(ds[|ds| - 1])
  }

  /** `str.replace(',', '')`. */
  function RemoveCommas(m: string): (r: string)
    ensures COMMA !in r
    ensures |r| == |m| - Count(m, COMMA)
  {
    if m == [] then []
    else (if m[0] == COMMA then [] else [m[0]]) + RemoveCommas(m[1..])
  }

  /** One character: a comma goes, any other character stays. */
  lemma RemoveCommasChar(c: char)
    ensures RemoveCommas([c]) == (if c == COMMA then [] else [c])
  {
  }

  /** Commas are removed piece by piece, in order: removing them from a
      concatenation concatenates the removals. */
  lemma {:induction false} RemoveCommasConcat(a: string, b: string)
    ensures RemoveCommas(a + b) == RemoveCommas(a) + RemoveCommas(b)
  {
    if a == [] {
      assert a + b == b;
    } else {
      assert (a + b)[0] == a[0];
      assert (a + b)[1..] == a[1..] + b;
      RemoveCommasConcat(a[1..], b);
    }
  }

  /** How often `c` occurs in `m`. */
  function Count(m: string, c: char): nat
  {
    if m == [] then 0 else (if m[0] == c then 1 else 0) + Count(m[1..], c)
  }

  /** Text made of digits and commas loses only its commas. */
  lemma {:induction false} RemoveCommasLeavesDigits(m: string)
    requires forall i :: 0 <= i < |m| ==> IsDigit(m[i]) || m[i] == COMMA
    ensures AllDigits(RemoveCommas(m))
  {
    if m != [] {
      RemoveCommasLeavesDigits(m[1..]);
    }
  }

  // ---------------------------------------------------------------
  // The matcher, step by step as the regex engine takes it.
  // ---------------------------------------------------------------

  /** Index of the first digit at or after `from`, if any: where `re.search`
      finds its match. */
  function FirstDigit(s: string, from: nat): (p: Option<nat>)
    requires from <= |s|
    ensures p.None? ==> forall i :: from <= i < |s| ==> !IsDigit(s[i])
    ensures p.Some? ==> from <= p.value < |s| && IsDigit(s[p.value])
                        && forall i :: from <= i < p.value ==> !IsDigit(s[i])
    decreases |s| - from
  {
    if from == |s| then None
    else if IsDigit(s[from]) then Some(from)
    else FirstDigit(s, from + 1)
  }

  /** How many digits the greedy `\d{1,3}` takes at `p`. */
  function LeadLength(s: string, p: nat): (k: nat)
    requires p <= |s|
    ensures k <= 3 && p + k <= |s|
    ensures AllDigits(s[p..p + k])
    ensures k < 3 ==> p + k == |s| || !IsDigit(s[p + k])
  {
    if p + 1 > |s| || !IsDigit(s[p]) then 0
    else if p + 2 > |s| || !IsDigit(s[p + 1]) then 1
    else if p + 3 > |s| || !IsDigit(s[p + 2]) then 2
    else 3
  }

  /** At `e`: does `,\d{3}` match? */
  predicate GroupAt(s: string, e: nat)
  {
    e + 4 <= |s| && s[e] == COMMA && IsDigit(s[e + 1]) && IsDigit(s[e + 2]) && IsDigit(s[e + 3])
  }

  /** Where the greedy `(,\d{3})*` stops when started at `e`. */
  function GroupsEnd(s: string, e: nat): (end: nat)
    requires e <= |s|
    ensures e <= end <= |s|
    ensures !GroupAt(s, end)
    decreases |s| - e
  {
    if GroupAt(s, e) then GroupsEnd(s, e + 4) else e
  }

  /** The span `s[start..end]` that `re.search` matches, if any. */
  function Search(s: string): (m: Option<(nat, nat)>)
    ensures m.Some? ==> m.value.0 < m.value.1 <= |s|
  {
    match FirstDigit(s, 0)
    case None => None
    case Some(p) => Some((p, GroupsEnd(s, p + LeadLength(s, p))))
  }

  /** `clean_price(price)`; `None` stands for a cell that is not a string
      (pandas' NaN for an empty cell). */
  function CleanPrice(price: Option<string>): Option<nat>
  {
    match price
    case None => None
    case Some(s) =>
      match Search(s)
      case None => None
      case Some((start, end)) =>
        MatchedDigitsOrCommas(s, start, end);
        Some(Value(RemoveCommas(s[start..end])))
  }

  // ---------------------------------------------------------------
  // The pattern as a language, and what the matcher finds in it.
  // ---------------------------------------------------------------

  /** `(,\d{3})*` as a set of strings. */
  ghost predicate Groups(t: string)
    decreases |t|
  {
    t == [] || (|t| >= 4 && t[0] == COMMA && AllDigits(t[1..4]) && Groups(t[4..]))
  }

  /** The first alternative `\d{1,3}(,\d{3})*` as a set of strings. */
  ghost predicate InFirstAlternative(m: string)
  {
    exists k :: 1 <= k <= 3 && k <= |m| && AllDigits(m[..k]) && Groups(m[k..])
  }

  /** The second alternative `\d+` as a set of strings. */
  ghost predicate InSecondAlternative(m: string)
  {
    |m| >= 1 && AllDigits(m)
  }

  /** The greedy `(,\d{3})*` spans a run of groups. */
  lemma {:induction false} GroupsEndSpan(s: string, e: nat)
    requires e <= |s|
    ensures Groups(s[e..GroupsEnd(s, e)])
    decreases |s| - e
  {
    if GroupAt(s, e) {
      GroupsEndSpan(s, e + 4);
      var t := s[e..GroupsEnd(s, e)];
      assert t[1..4] == s[e + 1..e + 4];
      assert t[4..] == s[e + 4..GroupsEnd(s, e + 4)];
    } else {
      assert s[e..e] == [];
    }
  }

  /** A run of groups holds only digits and commas. */
  lemma {:induction false} GroupsEndChars(s: string, e: nat)
    requires e <= |s|
    ensures forall i :: e <= i < GroupsEnd(s, e) ==> IsDigit(s[i]) || s[i] == COMMA
    decreases |s| - e
  {
    if GroupAt(s, e) {
      GroupsEndChars(s, e + 4);
    }
  }

  /** Greediness of `(,\d{3})*`: every run of groups starting at `e` ends at
      or before `GroupsEnd(s, e)`. */
  lemma {:induction false} GroupsEndLongest(s: string, e: nat, f: nat)
    requires e <= f <= |s|
    requires Groups(s[e..f])
    ensures f <= GroupsEnd(s, e)
    decreases |s| - e
  {
    if f > e {
      var t := s[e..f];
      assert t[0] == s[e] && t[1..4] == s[e + 1..e + 4];
      assert GroupAt(s, e) by {
        assert IsDigit(t[1..4][0]) && IsDigit(t[1..4][1]) && IsDigit(t[1..4][2]);
      }
      assert t[4..] == s[e + 4..f];
      GroupsEndLongest(s, e + 4, f);
    }
  }

  lemma MatchedDigitsOrCommas(s: string, start: nat, end: nat)
    requires Search(s) == Some((start, end))
    ensures start <= end <= |s|
    ensures AllDigits(RemoveCommas(s[start..end]))
  {
    var k := LeadLength(s, start);
    GroupsEndChars(s, start + k);
    var m := s[start..end];
    forall i | 0 <= i < |m| ensures IsDigit(m[i]) || m[i] == COMMA {
      assert m[i] == s[start + i];
      if start + i < start + k {
        assert s[start..start + k][i] == s[start + i];
      }
    }
    RemoveCommasLeavesDigits(m);
  }

  /** Leading digits followed by groups form a string of the first alternative. */
  lemma FirstAlternativeIntro(s: string, p: nat, k: nat, end: nat)
    requires 1 <= k <= 3 && p + k <= end <= |s|
    requires AllDigits(s[p..p + k]) && Groups(s[p + k..end])
    ensures InFirstAlternative(s[p..end])
  {
    var m := s[p..end];
    assert m[..k] == s[p..p + k];
    assert m[k..] == s[p + k..end];
  }

  /** The greedy span starting at a digit belongs to the first alternative. */
  lemma GreedySpanMatches(s: string, p: nat)
    requires p < |s| && IsDigit(s[p])
    ensures InFirstAlternative(s[p..GroupsEnd(s, p + LeadLength(s, p))])
  {
    var k := LeadLength(s, p);
    var end := GroupsEnd(s, p + k);
    GroupsEndSpan(s, p + k);
    FirstAlternativeIntro(s, p, k, end);
  }

  /** A run of groups cannot start at a digit, so it is empty there. */
  lemma GroupsEmptyAtDigit(s: string, x: nat, f: nat)
    requires x <= f <= |s|
    requires x < |s| && IsDigit(s[x])
    requires Groups(s[x..f])
    ensures f == x
  {
  }

  /** The greedy count of leading digits is the largest (up to three). */
  lemma LeadLengthMaximal(s: string, p: nat, j: nat)
    requires j <= 3 && p + j <= |s|
    requires AllDigits(s[p..p + j])
    ensures j <= LeadLength(s, p)
  {
    forall i | p <= i < p + j ensures IsDigit(s[i]) {
      assert s[p..p + j][i - p] == s[i];
    }
  }

  /** No string of the first alternative starting at `p` is longer than the
      greedy span. */
  lemma {:induction false} GreedySpanLongest(s: string, p: nat, f: nat)
    requires p < f <= |s|
    requires InFirstAlternative(s[p..f])
    ensures f <= GroupsEnd(s, p + LeadLength(s, p))
  {
    var k := LeadLength(s, p);
    var j := FirstAlternativeElim(s, p, f);
    LeadLengthMaximal(s, p, j);
    if j < k {
      assert s[p..p + k][j] == s[p + j];
      GroupsEmptyAtDigit(s, p + j, f);
    } else {
      GroupsEndLongest(s, p + k, f);
    }
  }

  /** A string of the first alternative, split into its leading digits and
      its groups. */
  lemma FirstAlternativeElim(s: string, p: nat, f: nat) returns (j: nat)
    requires p < f <= |s|
    requires InFirstAlternative(s[p..f])
    ensures 1 <= j <= 3 && p + j <= f
    ensures AllDigits(s[p..p + j]) && Groups(s[p + j..f])
  {
    var t := s[p..f];
    j :| 1 <= j <= 3 && j <= |t| && AllDigits(t[..j]) && Groups(t[j..]);
    assert t[..j] == s[p..p + j];
    assert t[j..] == s[p + j..f];
  }

  /** What `re.search` returns: the match starts at the first digit, spells a
      string of the first alternative, and no longer string of that
      alternative starts there; with no digit there is no match. */
  lemma SearchIsLeftmostGreedy(s: string)
    ensures Search(s).None? <==> forall i :: 0 <= i < |s| ==> !IsDigit(s[i])
    ensures Search(s).Some? ==>
      var (start, end) := Search(s).value;
      && (forall i :: 0 <= i < start ==> !IsDigit(s[i]))
      && InFirstAlternative(s[start..end])
      && (forall f :: start < f <= |s| && InFirstAlternative(s[start..f]) ==> f <= end)
  {
    match FirstDigit(s, 0)
    case None =>
    case Some(p) =>
      GreedySpanMatches(s, p);
      forall f | p < f <= |s| && InFirstAlternative(s[p..f])
        ensures f <= GroupsEnd(s, p + LeadLength(s, p))
      {
        GreedySpanLongest(s, p, f);
      }
  }

  /** `clean_price` gives no value exactly for a non-string cell or for a
      string without a digit. */
  lemma CleanPriceAbsent(price: Option<string>)
    ensures CleanPrice(price).None? <==>
      (price.None? || forall i :: 0 <= i < |price.value| ==> !IsDigit(price.value[i]))
  {
    if price.Some? {
      SearchIsLeftmostGreedy(price.value);
    }
  }

  /** When the text starts (after non-digits) with a run of four or more
      digits not followed by a comma group, only the first three count:
      the unreachable `\d+` would have taken the whole run. */
  lemma UngroupedRunCutAtThree(s: string, p: nat)
    requires p + 4 <= |s|
    requires forall i :: 0 <= i < p ==> !IsDigit(s[i])
    requires AllDigits(s[p..p + 4])
    ensures Search(s) == Some((p, p + 3))
    ensures InSecondAlternative(s[p..p + 4])
    ensures CleanPrice(Some(s)) == Some(Value(s[p..p + 3]))
    ensures Value(s[p..p + 3]) < 1000
  {
    assert IsDigit(s[p..p + 4][0]) && IsDigit(s[p..p + 4][1]);
    assert IsDigit(s[p..p + 4][2]) && IsDigit(s[p..p + 4][3]);
    assert FirstDigit(s, 0) == Some(p);
    assert LeadLength(s, p) == 3;
    assert !GroupAt(s, p + 3);
    assert GroupsEnd(s, p + 3) == p + 3;
    RemoveCommasKeepsDigits(s[p..p + 3]);
    ValueBound(s[p..p + 3]);
    assert Pow10(3) == 1000;
  }

  /** On digits alone, removing commas changes nothing. */
  lemma {:induction false} RemoveCommasKeepsDigits(ds: string)
    requires AllDigits(ds)
    ensures RemoveCommas(ds) == ds
  {
    if ds != [] {
      RemoveCommasKeepsDigits(ds[1..]);
      assert [ds[0]] + ds[1..] == ds;
    }
  }

  /** A `k`-digit string spells a number below `10^k`. */
  lemma {:induction false} ValueBound(ds: string)
    requires AllDigits(ds)
    ensures Value(ds) < Pow10(|ds|)
  {
    if ds != [] {
      ValueBound(ds[..|ds| - 1]);
    }
  }

  function Pow10(k: nat): (r: nat)
    ensures r >= 1
  {
    if k == 0 then 1 else 10 * Pow10(k - 1)
  }

  lemma ValueOf1200()
    ensures Value("1200") == 1200
  {
    assert "1200"[..3] == "120";
    assert "120"[..2] == "12";
    assert "12"[..1] == "1";
    assert "1"[..0] == "";
  }

  lemma SearchGroupedYen()
    ensures Search("1,200円") == Some((0, 5))
  {
    var s := "1,200円";
    assert FirstDigit(s, 0) == Some(0);
    assert LeadLength(s, 0) == 1;
    assert GroupAt(s, 1);
    assert !GroupAt(s, 5);
    assert GroupsEnd(s, 5) == 5;
  }

  lemma RemoveCommasGroup()
    ensures RemoveCommas(",200") == "200"
  {
    assert ",200"[1..] == "200";
    RemoveCommasKeepsDigits("200");
  }

  lemma RemoveCommasGrouped()
    ensures RemoveCommas("1,200") == "1200"
  {
    assert "1,200"[1..] == ",200";
    RemoveCommasGroup();
  }

  lemma GroupedYen()
    ensures CleanPrice(Some("1,200円")) == Some(1200)
  {
    SearchGroupedYen();
    assert "1,200円"[0..5] == "1,200";
    RemoveCommasGrouped();
    ValueOf1200();
  }

  lemma ValueOf120()
    ensures Value("120") == 120
  {
    assert "120"[..2] == "12";
    assert "12"[..1] == "1";
    assert "1"[..0] == "";
  }

  lemma UngroupedYen()
    ensures CleanPrice(Some("1200円")) == Some(120)
  {
    var s := "1200円";
    UngroupedRunCutAtThree(s, 0);
    assert s[0..3] == "120";
    ValueOf120();
  }

  lemma NegotiablePrice()
    ensures CleanPrice(Some("応相談")) == None
  {
    CleanPriceAbsent(Some("応相談"));
  }
}
