/**
 * The monetary-amount pattern `amount_re` (source/ScanIncentiveAmounts.py,
 * lines 19-26), compiled with re.VERBOSE so its layout and comments are
 * ignored. It has two alternatives:
 *
 *   dollars:  `\$ \s* [\d,]+ (?:\.\d+)? \s* [kKmMbB]?`
 *   percents: `\b \d{1,3} (?:,\d{3})* (?:\.\d+)? \s* %`
 *
 * The pattern is given twice: as the set of substrings it can match, cut at
 * explicit split points (`DollarSplit`, `PercentSplit`), and as a greedy
 * left-to-right scanner (`ScanDollar`, `ScanPercent`, `Search`). The lemmas
 * show that `Search` returns the leftmost position where the pattern can
 * match, together with the longest match there, which is the match the
 * backtracking engine of Python's `re` reports for this pattern.
 */
module AmountPattern {
  import opened Results
  import opened Strings

  // =====================================================================
  // Character runs
  // =====================================================================

  datatype CharClass = Spaces | Digits | DigitsOrCommas

  predicate InClass(c: char, cls: CharClass)
  {
    match cls
    case Spaces => IsSpace(c)
    case Digits => IsDigit(c)
    case DigitsOrCommas => IsDigit(c) || c == ','
  }

  /** Every character of `s[a..b]` is in `cls`. */
  predicate AllIn(s: string, a: nat, b: nat, cls: CharClass)
  {
    a <= b <= |s| && forall m :: a <= m < b ==> InClass(s[m], cls)
  }

  /** The end of the longest run of `cls` characters starting at `k`. */
  function RunEnd(s: string, k: nat, cls: CharClass): (r: nat)
    requires k <= |s|
    ensures AllIn(s, k, r, cls)
    ensures r == |s| || !InClass(s[r], cls)
    decreases |s| - k
  {
    if k < |s| && InClass(s[k], cls) then RunEnd(s, k + 1, cls) else k
  }

  /** Any run starting at `k` ends at or before `RunEnd`, and stops short only before a `cls` character. */
  lemma RunMaximal(s: string, k: nat, b: nat, cls: CharClass)
    requires AllIn(s, k, b, cls)
    ensures b <= RunEnd(s, k, cls)
    ensures b < RunEnd(s, k, cls) ==> InClass(s[b], cls)
  {
  }

  // =====================================================================
  // The pieces shared by both alternatives
  // =====================================================================

  /** `(?:\.\d+)?` matches `s[b..c]`. */
  predicate OptFraction(s: string, b: nat, c: nat)
  {
    b <= c <= |s| && (c == b || (s[b] == '.' && b + 1 < c && AllIn(s, b + 1, c, Digits)))
  }

  /** Greedy `(?:\.\d+)?` from `b`. */
  function FractionEnd(s: string, b: nat): (c: nat)
    requires b <= |s|
    ensures OptFraction(s, b, c)
  {
    if b + 1 < |s| && s[b] == '.' && IsDigit(s[b + 1]) then RunEnd(s, b + 1, Digits) else b
  }

  /** A fraction can be cut short only before a digit, or left out only before ".d". */
  lemma FractionMaximal(s: string, b: nat, c: nat)
    requires OptFraction(s, b, c)
    ensures c <= FractionEnd(s, b)
    ensures c < FractionEnd(s, b) ==> c < |s| && (IsDigit(s[c]) || s[c] == '.')
  {
    if c > b {
      RunMaximal(s, b + 1, c, Digits);
    }
  }

  // =====================================================================
  // Dollar amounts: `\$\s*[\d,]+(?:\.\d+)?\s*[kKmMbB]?` (line 21)
  // =====================================================================

  predicate IsSuffix(c: char)
  {
    c in "kKmMbB"
  }

  /** `[kKmMbB]?` matches `s[d..j]`. */
  predicate OptSuffix(s: string, d: nat, j: nat)
  {
    d <= |s| && (j == d || (d < |s| && IsSuffix(s[d]) && j == d + 1))
  }

  /**
   * `s[i..j]` matches the dollar alternative with `\s*` on `s[i+1..a]`,
   * `[\d,]+` on `s[a..b]`, the fraction on `s[b..c]`, `\s*` on `s[c..d]`
   * and the suffix on `s[d..j]`.
   */
  predicate DollarSplit(s: string, i: nat, a: nat, b: nat, c: nat, d: nat, j: nat)
  {
    i < |s| && s[i] == '$' && AllIn(s, i + 1, a, Spaces) && a < b && AllIn(s, a, b, DigitsOrCommas) &&
    OptFraction(s, b, c) && AllIn(s, c, d, Spaces) && OptSuffix(s, d, j)
  }

  ghost predicate DollarMatch(s: string, i: nat, j: nat)
  {
    exists a, b, c, d :: DollarSplit(s, i, a, b, c, d, j)
  }

  /** The optional tail `(?:\.\d+)?\s*[kKmMbB]?` of a dollar amount, taken greedily from `b`. */
  function DollarTailEnd(s: string, b: nat): (j: nat)
    requires b <= |s|
    ensures b <= j <= |s|
  {
    var c := FractionEnd(s, b);
    var d := RunEnd(s, c, Spaces);
    if d < |s| && IsSuffix(s[d]) then d + 1 else d
  }

  /** The dollar alternative at `i`, every repetition taken as far as it goes. */
  function ScanDollar(s: string, i: nat): Option<nat>
  {
    if i < |s| && s[i] == '$' then
      var a := RunEnd(s, i + 1, Spaces);
      var b := RunEnd(s, a, DigitsOrCommas);
      if b == a then None else Some(DollarTailEnd(s, b))
    else None
  }

  /** What the scanner returns is a dollar match. */
  lemma ScanDollarSound(s: string, i: nat)
    requires ScanDollar(s, i).Some?
    ensures DollarMatch(s, i, ScanDollar(s, i).value)
  {
    var a := RunEnd(s, i + 1, Spaces);
    var b := RunEnd(s, a, DigitsOrCommas);
    var c := FractionEnd(s, b);
    var d := RunEnd(s, c, Spaces);
    assert DollarSplit(s, i, a, b, c, d, ScanDollar(s, i).value);
  }

  /** No tail of a dollar amount reaches past the greedy one. */
  lemma DollarTailLongest(s: string, b: nat, c: nat, d: nat, j: nat)
    requires OptFraction(s, b, c) && AllIn(s, c, d, Spaces) && OptSuffix(s, d, j)
    ensures j <= DollarTailEnd(s, b)
  {
    FractionMaximal(s, b, c);
    if c < FractionEnd(s, b) {
      // a digit or '.' follows: neither white space nor a suffix letter can
      assert !IsSpace(s[c]) && !IsSuffix(s[c]);
    } else {
      RunMaximal(s, c, d, Spaces);
    }
  }

  /** Before a digit or a comma, a dollar amount's tail is empty. */
  lemma DollarTailEmpty(s: string, b: nat, c: nat, d: nat, j: nat)
    requires b < |s| && InClass(s[b], DigitsOrCommas)
    requires OptFraction(s, b, c) && AllIn(s, c, d, Spaces) && OptSuffix(s, d, j)
    ensures j == b
  {
    NotSpaceNorSuffix(s[b]);
  }

  /** Digits, commas, '.' and '%' are neither white space nor a multiplier letter. */
  lemma NotSpaceNorSuffix(c: char)
    requires IsDigit(c) || c == ',' || c == '.' || c == '%'
    ensures !IsSpace(c) && !IsSuffix(c)
  {
  }

  /** Every dollar match at `i` is found by the scanner and is no longer than its result. */
  lemma ScanDollarLongest(s: string, i: nat, a: nat, b: nat, c: nat, d: nat, j: nat)
    requires DollarSplit(s, i, a, b, c, d, j)
    ensures ScanDollar(s, i).Some? && j <= ScanDollar(s, i).value
  {
    DollarHead(s, i, a, b);
    if b < RunEnd(s, a, DigitsOrCommas) {
      DollarTailEmpty(s, b, c, d, j);
    } else {
      DollarTailLongest(s, b, c, d, j);
    }
  }

  /**
   * The spaces after '$' are always taken whole, since a digit or comma
   * ends them; the digit run can stop early only before a digit or comma.
   */
  lemma DollarHead(s: string, i: nat, a: nat, b: nat)
    requires i < |s| && AllIn(s, i + 1, a, Spaces) && a < b && AllIn(s, a, b, DigitsOrCommas)
    ensures a == RunEnd(s, i + 1, Spaces)
    ensures b <= RunEnd(s, a, DigitsOrCommas)
    ensures b < RunEnd(s, a, DigitsOrCommas) ==> InClass(s[b], DigitsOrCommas)
  {
    RunMaximal(s, i + 1, a, Spaces);
    assert InClass(s[a], DigitsOrCommas);
    NotSpaceNorSuffix(s[a]);
    RunMaximal(s, a, b, DigitsOrCommas);
  }

  // =====================================================================
  // Percentages: `\b\d{1,3}(?:,\d{3})*(?:\.\d+)?\s*%` (line 23)
  // =====================================================================

  /** `,\d{3}` matches at `a`. */
  predicate GroupAt(s: string, a: nat)
  {
    a + 4 <= |s| && s[a] == ',' && IsDigit(s[a + 1]) && IsDigit(s[a + 2]) && IsDigit(s[a + 3])
  }

  /** `(?:,\d{3})*` matches `s[a..b]`. */
  predicate Groups(s: string, a: nat, b: nat)
    decreases b - a
  {
    a <= b <= |s| && (a == b || (a + 4 <= b && GroupAt(s, a) && Groups(s, a + 4, b)))
  }

  /** Greedy `(?:,\d{3})*` from `a`. */
  function GroupsEnd(s: string, a: nat): (r: nat)
    requires a <= |s|
    ensures Groups(s, a, r)
    ensures !GroupAt(s, r)
    decreases |s| - a
  {
    if GroupAt(s, a) then GroupsEnd(s, a + 4) else a
  }

  /** Fewer groups than the greedy loop takes leave a ',' next. */
  lemma {:induction false} GroupsMaximal(s: string, a: nat, b: nat)
    requires Groups(s, a, b)
    ensures b <= GroupsEnd(s, a)
    ensures b < GroupsEnd(s, a) ==> GroupAt(s, b)
    decreases b - a
  {
    if a != b {
      GroupsMaximal(s, a + 4, b);
    }
  }

  /**
   * `s[i..j]` matches the percent alternative with the leading digits on
   * `s[i..a]`, the ",ddd" groups on `s[a..b]`, the fraction on `s[b..c]`,
   * `\s*` on `s[c..d]` and '%' at `d`.
   */
  predicate PercentSplit(s: string, i: nat, a: nat, b: nat, c: nat, d: nat, j: nat)
  {
    i < a <= i + 3 && AllIn(s, i, a, Digits) && Boundary(s, i) && Groups(s, a, b) &&
    OptFraction(s, b, c) && AllIn(s, c, d, Spaces) && d < |s| && s[d] == '%' && j == d + 1
  }

  ghost predicate PercentMatch(s: string, i: nat, j: nat)
  {
    exists a, b, c, d :: PercentSplit(s, i, a, b, c, d, j)
  }

  /** The tail `(?:\.\d+)?\s*%` of a percentage, taken greedily from `b`: the end of the match, if '%' follows. */
  function PercentTailEnd(s: string, b: nat): Option<nat>
    requires b <= |s|
  {
    var c := FractionEnd(s, b);
    var d := RunEnd(s, c, Spaces);
    if d < |s| && s[d] == '%' then Some(d + 1) else None
  }

  /** The percent alternative at `i`, every repetition taken as far as it goes. */
  function ScanPercent(s: string, i: nat): Option<nat>
  {
    if i < |s| && IsDigit(s[i]) && Boundary(s, i) then
      var a := RunEnd(s, i, Digits);
      if a > i + 3 then None else PercentTailEnd(s, GroupsEnd(s, a))
    else None
  }

  lemma ScanPercentSound(s: string, i: nat)
    requires ScanPercent(s, i).Some?
    ensures PercentMatch(s, i, ScanPercent(s, i).value)
  {
    var a := RunEnd(s, i, Digits);
    var b := GroupsEnd(s, a);
    var c := FractionEnd(s, b);
    var d := RunEnd(s, c, Spaces);
    assert PercentSplit(s, i, a, b, c, d, ScanPercent(s, i).value);
  }

  /**
   * A percentage's tail that reaches '%' is the greedy one, and it cannot
   * start at a digit or a comma.
   */
  lemma PercentTailUnique(s: string, b: nat, c: nat, d: nat)
    requires OptFraction(s, b, c) && AllIn(s, c, d, Spaces) && d < |s| && s[d] == '%'
    ensures PercentTailEnd(s, b) == Some(d + 1)
    ensures !InClass(s[b], DigitsOrCommas)
  {
    FractionMaximal(s, b, c);
    RunMaximal(s, c, d, Spaces);
  }

  /**
   * A percent match at `i` is unique, and it is the scanner's: no shorter
   * digit run or group list can be followed by the rest of the pattern.
   */
  lemma ScanPercentUnique(s: string, i: nat, a: nat, b: nat, c: nat, d: nat, j: nat)
    requires PercentSplit(s, i, a, b, c, d, j)
    ensures ScanPercent(s, i) == Some(j)
  {
    PercentTailUnique(s, b, c, d);
    GroupsMaximal(s, a, b);
    assert b == GroupsEnd(s, a);
    RunMaximal(s, i, a, Digits);
    assert a == RunEnd(s, i, Digits);
  }

  // =====================================================================
  // amount_re.search
  // =====================================================================

  /** Some substring starting at `i` and ending at `j` matches the pattern. */
  ghost predicate Matches(s: string, i: nat, j: nat)
  {
    DollarMatch(s, i, j) || PercentMatch(s, i, j)
  }

  /** The match the engine reports at `i`, if any: the dollar alternative is tried first. */
  function MatchAt(s: string, i: nat): Option<nat>
  {
    match ScanDollar(s, i)
    case Some(j) => Some(j)
    case None => ScanPercent(s, i)
  }

  /** `MatchAt` returns a match at `i`, the longest one, and finds one whenever there is one. */
  lemma MatchAtSpec(s: string, i: nat)
    ensures MatchAt(s, i).Some? ==> Matches(s, i, MatchAt(s, i).value)
    ensures forall j: nat :: Matches(s, i, j) ==> MatchAt(s, i).Some? && j <= MatchAt(s, i).value
  {
    if ScanDollar(s, i).Some? {
      ScanDollarSound(s, i);
    } else if ScanPercent(s, i).Some? {
      ScanPercentSound(s, i);
    }
    forall j: nat | Matches(s, i, j)
      ensures MatchAt(s, i).Some? && j <= MatchAt(s, i).value
    {
      if DollarMatch(s, i, j) {
        var a, b, c, d :| DollarSplit(s, i, a, b, c, d, j);
        ScanDollarLongest(s, i, a, b, c, d, j);
      } else {
        var a, b, c, d :| PercentSplit(s, i, a, b, c, d, j);
        assert s[i] != '$';
        ScanPercentUnique(s, i, a, b, c, d, j);
      }
    }
  }

  /**
   * The first start `k` in `i..n`, tried in order, at which `hit(k)` gives
   * a match, paired with the end of that match.
   */
  function FirstHit(hit: nat -> Option<nat>, n: nat, i: nat): Option<(nat, nat)>
    requires i <= n
    decreases n - i
  {
    match hit(i)
    case Some(j) => Some((i, j))
    case None => if i == n then None else FirstHit(hit, n, i + 1)
  }

  /** `FirstHit` stops at the first start that gives a match, and gives up only when none does. */
  lemma {:induction false} FirstHitSpec(hit: nat -> Option<nat>, n: nat, i: nat)
    requires i <= n
    ensures FirstHit(hit, n, i).Some? ==>
      i <= FirstHit(hit, n, i).value.0 <= n && hit(FirstHit(hit, n, i).value.0) == Some(FirstHit(hit, n, i).value.1)
    ensures FirstHit(hit, n, i).Some? ==> forall k: nat :: i <= k < FirstHit(hit, n, i).value.0 ==> hit(k).None?
    ensures FirstHit(hit, n, i).None? ==> forall k: nat :: i <= k <= n ==> hit(k).None?
    decreases n - i
  {
    if hit(i).None? && i < n {
      FirstHitSpec(hit, n, i + 1);
    }
  }

  /** `amount_re.search(s)`: the start and end of the match, if any. */
  function Search(s: string): Option<(nat, nat)>
  {
    FirstHit(k => MatchAt(s, k), |s|, 0)
  }

  /** `Search` returns the first start at which the scanner succeeds, and None when it succeeds nowhere. */
  lemma SearchFirst(s: string)
    ensures Search(s).Some? ==> Search(s).value.0 <= |s| && MatchAt(s, Search(s).value.0) == Some(Search(s).value.1)
    ensures Search(s).Some? ==> forall k: nat :: k < Search(s).value.0 ==> MatchAt(s, k).None?
    ensures Search(s).None? ==> forall k: nat :: k <= |s| ==> MatchAt(s, k).None?
  {
    var hit := k => MatchAt(s, k);
    FirstHitSpec(hit, |s|, 0);
    assert forall k: nat :: hit(k) == MatchAt(s, k);
  }

  /**
   * `Search` finds the leftmost position where the pattern matches and the
   * longest match there; when it finds nothing, the pattern matches nowhere.
   */
  lemma SearchLeftmostLongest(s: string)
    ensures Search(s).Some? ==> Matches(s, Search(s).value.0, Search(s).value.1)
    ensures Search(s).Some? ==> forall j: nat :: Matches(s, Search(s).value.0, j) ==> j <= Search(s).value.1
    ensures Search(s).Some? ==> forall k: nat, j: nat :: k < Search(s).value.0 ==> !Matches(s, k, j)
    ensures Search(s).None? ==> forall k: nat, j: nat :: !Matches(s, k, j)
  {
    SearchFirst(s);
    forall k: nat, j: nat | Matches(s, k, j) && (Search(s).None? || k < Search(s).value.0)
      ensures false
    {
      MatchAtSpec(s, k);
    }
    if Search(s).Some? {
      MatchAtSpec(s, Search(s).value.0);
    }
  }

  /** Every match is non-empty and either starts with '$' or ends with '%'. */
  lemma MatchShape(s: string, i: nat, j: nat)
    requires Matches(s, i, j)
    ensures i < j <= |s|
    ensures s[i] == '$' || s[j - 1] == '%'
  {
  }

  /** `m.group(0)`: the text of the first match, or None. */
  function FirstMatch(s: string): (r: Option<string>)
    ensures r.Some? ==> r.value != [] && (r.value[0] == '$' || r.value[|r.value| - 1] == '%')
  {
    match Search(s)
    case None => None
    case Some((i, j)) =>
      SearchLeftmostLongest(s);
      MatchShape(s, i, j);
      Some(s[i..j])
  }

  // =====================================================================
  // Examples
  // =====================================================================

  /** The amount part `[\d,]+` accepts commas alone: "$ ,," is a match. */
  lemma CommasAloneMatch()
    ensures Search("$ ,,") == Some((0, 4))
  {
    assert IsSpace(' ');
    assert RunEnd("$ ,,", 1, Spaces) == 2;
    assert RunEnd("$ ,,", 2, DigitsOrCommas) == 4;
  }

  /** At most three digits may precede the first comma or the '%': "1234%" holds no match. */
  lemma FourDigitsNoPercent()
    ensures Search("1234%") == None
  {
    var s := "1234%";
    assert RunEnd(s, 0, Digits) == 4;
    forall k | 0 <= k <= |s|
      ensures MatchAt(s, k).None?
    {
      if 0 < k < 4 {
        assert !Boundary(s, k);
      }
    }
    SearchFirst(s);
  }

  /** Trailing white space and a multiplier letter belong to a dollar match: "$5 k" is matched whole. */
  lemma SuffixAfterSpace()
    ensures FirstMatch("Up to $5 k.") == Some("$5 k")
  {
    var s := "Up to $5 k.";
    forall k | 0 <= k < 6
      ensures MatchAt(s, k).None?
    {
      assert !IsDigit(s[k]) && s[k] != '$';
    }
    assert IsSpace(' ');
    assert RunEnd(s, 7, Spaces) == 7;
    assert RunEnd(s, 7, DigitsOrCommas) == 8;
    assert FractionEnd(s, 8) == 8;
    assert RunEnd(s, 8, Spaces) == 9;
    assert MatchAt(s, 6) == Some(10);
    SearchFirst(s);
    assert Search(s) == Some((6, 10));
    assert s[6..10] == "$5 k";
  }
}
