/**
 * Removing expired and archived laws from the state-level CSVs
 * (source/RemoveExpiredIncentivesRegulations.py).
 *
 * Every row's Source page is fetched and its h2 headings searched for
 * `\b(Expired|Archived):`, ignoring case. Rows found stale are dropped and
 * the file is rewritten after a backup. The network is an input: the
 * response to the k-th request of a file is the k-th page given.
 */
module ExpiredPruning {
  import opened Results
  import opened Strings

  // =====================================================================
  // afdc_status (lines 35-47)
  // =====================================================================

  /** What one status request yields: the h2 texts of the page, or the class of the exception raised. */
  datatype Page = Fetched(headings: seq<string>) | Failed(exceptionClass: string)

  datatype Status = Expired | Archived | Active | CheckManual(exceptionClass: string)

  /** The string afdc_status returns. */
  function StatusText(s: Status): string
  {
    match s
    case Expired => "expired"
    case Archived => "archived"
    case Active => "active"
    case CheckManual(e) => "check_manual (" + e + ")"
  }

  /** `status in {"expired", "archived"}` (line 65). */
  predicate IsStale(s: Status)
  {
    s.Expired? || s.Archived?
  }

  /** Only an "expired" or "archived" text marks a row, so a failed request never drops one. */
  lemma StaleIffText(s: Status)
    ensures StatusText(s) in {"expired", "archived"} <==> IsStale(s)
  {
    if s.CheckManual? {
      assert StatusText(s)[0] == 'c';
    }
  }

  /** `word` (lower case) occurs at index `i` of `s`, ignoring ASCII case. */
  predicate WordAt(s: string, i: nat, word: string)
  {
    i + |word| <= |s| && LowerStr(s[i..i + |word|]) == word
  }

  /** `PATTERN` (line 31) matches at index `i`. */
  predicate MatchAt(s: string, i: nat)
  {
    i <= |s| && Boundary(s, i) && (WordAt(s, i, "expired:") || WordAt(s, i, "archived:"))
  }

  /** The status named by the match at `i`: `m.group(1).lower()`. */
  function WordStatus(s: string, i: nat): Status
  {
    if WordAt(s, i, "expired:") then Expired else Archived
  }

  /** `PATTERN.search(s[i..])` restarted at `i`: the leftmost match at or after `i`. */
  function SearchFrom(s: string, i: nat): (r: Option<nat>)
    requires i <= |s|
    ensures r.Some? ==> i <= r.value <= |s| && MatchAt(s, r.value)
    ensures r.Some? ==> forall j :: i <= j < r.value ==> !MatchAt(s, j)
    ensures r.None? ==> forall j :: i <= j <= |s| ==> !MatchAt(s, j)
    decreases |s| - i
  {
    if MatchAt(s, i) then Some(i)
    else if i == |s| then None
    else SearchFrom(s, i + 1)
  }

  /** afdc_status over a response already fetched; the text searched is the h2 texts joined by single spaces (lines 40-43). */
  function Classify(p: Page): (r: Status)
    ensures p.Failed? ==> r == CheckManual(p.exceptionClass)
    ensures p.Fetched? ==> (r == Active <==> forall j :: 0 <= j <= |Join(p.headings, " ")| ==> !MatchAt(Join(p.headings, " "), j))
    ensures p.Fetched? && r != Active ==>
              exists i :: 0 <= i <= |Join(p.headings, " ")| && MatchAt(Join(p.headings, " "), i) && r == WordStatus(Join(p.headings, " "), i) &&
                forall j :: 0 <= j < i ==> !MatchAt(Join(p.headings, " "), j)
  {
    match p
    case Failed(e) => CheckManual(e)
    case Fetched(_) =>
      var text := Join(p.headings, " ");
      match SearchFrom(text, 0)
      case None => Active
      case Some(i) => WordStatus(text, i)
  }

  /** A failed request is never stale, whatever the exception. */
  lemma FailureIsNeverStale(e: string)
    ensures !IsStale(Classify(Failed(e)))
    ensures StatusText(Classify(Failed(e))) == "check_manual (" + e + ")"
  {
  }

  /** Matching ignores case: "ARCHIVED:" at the start of a heading marks the law archived. */
  lemma ArchivedUpperCase()
    ensures Classify(Fetched(["ARCHIVED: 2019"])) == Archived
  {
    var text := Join(["ARCHIVED: 2019"], " ");
    assert text == "ARCHIVED: 2019";
    assert Boundary(text, 0);
    assert LowerStr(text[0..9]) == "archived:";
    assert MatchAt(text, 0);
    assert !WordAt(text, 0, "expired:");
  }

  /** A word character right before the word rules the match out: "NotExpired:" is active. */
  lemma NoBoundaryNoMatch()
    ensures Classify(Fetched(["NotExpired:"])) == Active
  {
    var text := Join(["NotExpired:"], " ");
    assert text == "NotExpired:";
    forall j | 0 <= j <= |text|
      ensures !MatchAt(text, j)
    {
      if j != 3 {
        if j < |text| {
          assert Lower(text[j]) != 'a';
          assert j + 8 <= |text| ==> Lower(text[j]) != 'e';
        }
      } else {
        assert !Boundary(text, 3);
      }
    }
  }

  // =====================================================================
  // process_file (lines 50-89)
  // =====================================================================

  /** A CSV row; only its Source column is read, the others are carried along. */
  datatype Listing = Listing(source: string, rest: seq<string>)

  function Sources(rows: seq<Listing>): (r: seq<string>)
    ensures |r| == |rows| && forall k :: 0 <= k < |rows| ==> r[k] == rows[k].source
  {
    seq(|rows|, k requires 0 <= k < |rows| => rows[k].source)
  }

  /** The rows whose response does not mark them stale, in file order. */
  function Survivors(rows: seq<Listing>, pages: seq<Page>): seq<Listing>
    requires |pages| == |rows|
  {
    if rows == [] then []
    else
      var n := |rows| - 1;
      Survivors(rows[..n], pages[..n]) + (if IsStale(Classify(pages[n])) then [] else [rows[n]])
  }

  /** Number of responses that mark their row stale (`len(to_drop_info)`). */
  function CountStale(pages: seq<Page>): nat
  {
    if pages == [] then 0
    else CountStale(pages[..|pages| - 1]) + (if IsStale(Classify(pages[|pages| - 1])) then 1 else 0)
  }

  /** Dropping rows leaves one row fewer per stale row. */
  lemma {:induction false} SurvivorsCount(rows: seq<Listing>, pages: seq<Page>)
    requires |pages| == |rows|
    ensures |Survivors(rows, pages)| + CountStale(pages) == |rows|
    decreases |rows|
  {
    if rows != [] {
      SurvivorsCount(rows[..|rows| - 1], pages[..|rows| - 1]);
    }
  }

  /** Without a stale row the file is kept as it is. */
  lemma {:induction false} NoStaleKeepsAll(rows: seq<Listing>, pages: seq<Page>)
    requires |pages| == |rows|
    requires CountStale(pages) == 0
    ensures Survivors(rows, pages) == rows
    decreases |rows|
  {
    if rows != [] {
      var n := |rows| - 1;
      NoStaleKeepsAll(rows[..n], pages[..n]);
      assert rows[..n] + [rows[n]] == rows;
    }
  }

  /**
   * Filtering keeps the relative order: the survivors of two consecutive
   * stretches of the file are the survivors of the first followed by those
   * of the second.
   */
  lemma {:induction false} SurvivorsAppend(a: seq<Listing>, pa: seq<Page>, b: seq<Listing>, pb: seq<Page>)
    requires |pa| == |a| && |pb| == |b|
    ensures Survivors(a + b, pa + pb) == Survivors(a, pa) + Survivors(b, pb)
    decreases |b|
  {
    if b == [] {
      assert a + b == a && pa + pb == pa;
    } else {
      var n := |b| - 1;
      SurvivorsAppend(a, pa, b[..n], pb[..n]);
      assert (a + b)[..|a + b| - 1] == a + b[..n];
      assert (pa + pb)[..|pa + pb| - 1] == pa + pb[..n];
    }
  }

  /** Exactly the stale rows are dropped: each survivor is a row whose response is not stale, and each such row survives. */
  lemma SurvivorsMembers(rows: seq<Listing>, pages: seq<Page>)
    requires |pages| == |rows|
    ensures forall x :: x in Survivors(rows, pages) ==>
              exists k :: 0 <= k < |rows| && rows[k] == x && !IsStale(Classify(pages[k]))
    ensures forall k :: 0 <= k < |rows| && !IsStale(Classify(pages[k])) ==> rows[k] in Survivors(rows, pages)
  {
    SurvivorsSound(rows, pages);
    SurvivorsComplete(rows, pages);
  }

  /** Each survivor is a row whose response is not stale. */
  lemma {:induction false} SurvivorsSound(rows: seq<Listing>, pages: seq<Page>)
    requires |pages| == |rows|
    ensures forall x :: x in Survivors(rows, pages) ==>
              exists k :: 0 <= k < |rows| && rows[k] == x && !IsStale(Classify(pages[k]))
    decreases |rows|
  {
    if rows != [] {
      var n := |rows| - 1;
      SurvivorsSound(rows[..n], pages[..n]);
      forall x | x in Survivors(rows, pages)
        ensures exists k :: 0 <= k < |rows| && rows[k] == x && !IsStale(Classify(pages[k]))
      {
        if x in Survivors(rows[..n], pages[..n]) {
          var k :| 0 <= k < n && rows[..n][k] == x && !IsStale(Classify(pages[..n][k]));
          assert rows[k] == x && pages[k] == pages[..n][k];
        }
      }
    }
  }

  /** Each row whose response is not stale survives. */
  lemma {:induction false} SurvivorsComplete(rows: seq<Listing>, pages: seq<Page>)
    requires |pages| == |rows|
    ensures forall k :: 0 <= k < |rows| && !IsStale(Classify(pages[k])) ==> rows[k] in Survivors(rows, pages)
    decreases |rows|
  {
    if rows != [] {
      var n := |rows| - 1;
      SurvivorsComplete(rows[..n], pages[..n]);
      forall k | 0 <= k < |rows| && !IsStale(Classify(pages[k]))
        ensures rows[k] in Survivors(rows, pages)
      {
        if k < n {
          assert rows[..n][k] == rows[k] && pages[..n][k] == pages[k];
        }
      }
    }
  }

  /** A CSV as read: whether it has a Source column, and its rows. */
  datatype Csv = Csv(hasSource: bool, rows: seq<Listing>)

  /**
   * process_file for a CSV that may be missing. Returns the count removed,
   * or the KeyError `df["Source"]` raises (line 61) for a file without that
   * column; the URLs checked in the order checked; whether a backup was
   * made; and the rows written back, if any.
   */
  method ProcessFile(file: Option<Csv>, pages: seq<Page>)
    returns (removed: Result<nat, string>, checked: seq<string>, backup: bool, written: Option<seq<Listing>>)
    requires file.Some? ==> |pages| == |file.value.rows|
    ensures file.None? ==> removed == Ok(0) && checked == [] && !backup && written.None?
    ensures file.Some? && !file.value.hasSource ==> removed == Err("KeyError") && checked == [] && !backup && written.None?
    ensures file.Some? && file.value.hasSource ==>
              checked == Sources(file.value.rows) && removed == Ok(CountStale(pages)) &&
              removed.value == |file.value.rows| - |Survivors(file.value.rows, pages)|
    ensures backup <==> written.Some?
    ensures written.Some? <==> removed.Ok? && removed.value > 0
    ensures written.Some? ==> file.Some? && written.value == Survivors(file.value.rows, pages)
  {
    if file.None? {
      return Ok(0), [], false, None;
    }
    if !file.value.hasSource {
      return Err("KeyError"), [], false, None;
    }
    var rows := file.value.rows;
    var dropped;
    checked, dropped := MarkStale(rows, pages);
    SurvivorsCount(rows, pages);
    if |dropped| == 0 {
      NoStaleKeepsAll(rows, pages);
      return Ok(0), checked, false, None;
    }
    removed := Ok(|dropped|);
    backup := true;
    var kept := Drop(rows, dropped, pages);
    written := Some(kept);
  }

  /** The indices of the responses that mark their row stale, in increasing order. */
  function StaleIndices(pages: seq<Page>): seq<nat>
  {
    if pages == [] then []
    else
      var n := |pages| - 1;
      StaleIndices(pages[..n]) + (if IsStale(Classify(pages[n])) then [n] else [])
  }

  /** One index per stale response, exactly the stale ones, each in range and in increasing order. */
  lemma StaleIndicesSpec(pages: seq<Page>)
    ensures |StaleIndices(pages)| == CountStale(pages)
    ensures forall k :: 0 <= k < |pages| ==> (k in StaleIndices(pages) <==> IsStale(Classify(pages[k])))
    ensures forall m :: 0 <= m < |StaleIndices(pages)| ==> StaleIndices(pages)[m] < |pages|
    ensures forall a, b :: 0 <= a < b < |StaleIndices(pages)| ==> StaleIndices(pages)[a] < StaleIndices(pages)[b]
  {
    StaleIndicesCount(pages);
    StaleIndicesOrdered(pages);
    StaleIndicesMembers(pages);
  }

  lemma {:induction false} StaleIndicesCount(pages: seq<Page>)
    ensures |StaleIndices(pages)| == CountStale(pages)
    decreases |pages|
  {
    if pages != [] {
      StaleIndicesCount(pages[..|pages| - 1]);
    }
  }

  lemma {:induction false} StaleIndicesOrdered(pages: seq<Page>)
    ensures forall m :: 0 <= m < |StaleIndices(pages)| ==> StaleIndices(pages)[m] < |pages|
    ensures forall a, b :: 0 <= a < b < |StaleIndices(pages)| ==> StaleIndices(pages)[a] < StaleIndices(pages)[b]
    decreases |pages|
  {
    if pages != [] {
      var n := |pages| - 1;
      StaleIndicesOrdered(pages[..n]);
      if IsStale(Classify(pages[n])) {
        MarkOne(StaleIndices(pages[..n]), n);
      }
    }
  }

  lemma {:induction false} StaleIndicesMembers(pages: seq<Page>)
    ensures forall k :: 0 <= k < |pages| ==> (k in StaleIndices(pages) <==> IsStale(Classify(pages[k])))
    decreases |pages|
  {
    if pages != [] {
      var n := |pages| - 1;
      var init := StaleIndices(pages[..n]);
      StaleIndicesMembers(pages[..n]);
      StaleIndicesOrdered(pages[..n]);
      forall k | 0 <= k < n
        ensures pages[..n][k] == pages[k]
      {
      }
      assert n !in init;
    }
  }

  /** Appending index `k` to an increasing list of smaller indices adds exactly `k` and keeps it increasing. */
  lemma MarkOne(dropped: seq<nat>, k: nat)
    requires forall m :: 0 <= m < |dropped| ==> dropped[m] < k
    requires forall a, b :: 0 <= a < b < |dropped| ==> dropped[a] < dropped[b]
    ensures forall j :: j in dropped + [k] <==> j in dropped || j == k
    ensures forall m :: 0 <= m < |dropped + [k]| ==> (dropped + [k])[m] < k + 1
    ensures forall a, b :: 0 <= a < b < |dropped + [k]| ==> (dropped + [k])[a] < (dropped + [k])[b]
  {
  }

  /**
   * The loop of lines 60-66: request each row's Source in turn, and list,
   * in increasing order, the index of each row whose status text is
   * "expired" or "archived".
   */
  method MarkStale(rows: seq<Listing>, pages: seq<Page>) returns (checked: seq<string>, dropped: seq<nat>)
    requires |pages| == |rows|
    ensures checked == Sources(rows)
    ensures |dropped| == CountStale(pages)
    ensures forall k :: 0 <= k < |rows| ==> (k in dropped <==> IsStale(Classify(pages[k])))
    ensures forall m :: 0 <= m < |dropped| ==> dropped[m] < |rows|
    ensures forall a, b :: 0 <= a < b < |dropped| ==> dropped[a] < dropped[b]
  {
    checked := [];
    dropped := [];
    for k := 0 to |rows|
      invariant checked == Sources(rows[..k])
      invariant dropped == StaleIndices(pages[..k])
    {
      checked := checked + [rows[k].source];
      var status := Classify(pages[k]);
      assert pages[..k + 1][..k] == pages[..k];
      StaleIffText(status);
      if StatusText(status) in {"expired", "archived"} {
        dropped := dropped + [k];
      }
    }
    assert rows[..|rows|] == rows && pages[..|pages|] == pages;
    StaleIndicesSpec(pages);
  }

  /**
   * `df.drop(index=drop_indices)`: the rows whose index is not listed, in
   * order. When the listed indices are exactly those of the stale rows,
   * what is left is the survivors.
   */
  method Drop(rows: seq<Listing>, dropped: seq<nat>, ghost pages: seq<Page>) returns (kept: seq<Listing>)
    requires |pages| == |rows|
    requires forall k :: 0 <= k < |rows| ==> (k in dropped <==> IsStale(Classify(pages[k])))
    ensures kept == Survivors(rows, pages)
  {
    kept := [];
    for k := 0 to |rows|
      invariant kept == Survivors(rows[..k], pages[..k])
    {
      assert rows[..k + 1][..k] == rows[..k] && pages[..k + 1][..k] == pages[..k];
      if k !in dropped {
        kept := kept + [rows[k]];
      }
    }
    assert rows[..|rows|] == rows && pages[..|pages|] == pages;
  }

  // =====================================================================
  // main (lines 92-100)
  // =====================================================================

  /** The CSVs cleaned, in the order of lines 14-23. */
  const FILES: seq<string> := [
    "emissions_incentives.csv",
    "emissions_regulations.csv",
    "fuel_use_incentives.csv",
    "fuel_use_regulations.csv",
    "infrastructure_incentives.csv",
    "infrastructure_regulations.csv",
    "vehicle_purchase_incentives.csv",
    "vehicle_purchase_regulations.csv"
  ]

  lemma FilesDistinct()
    ensures forall i, j :: 0 <= i < j < |FILES| ==> FILES[i] != FILES[j]
  {
    assert forall i, j :: 0 <= i < j < |FILES| ==> |FILES[i]| != |FILES[j]| || FILES[i][0] != FILES[j][0];
  }

  function Sum(xs: seq<nat>): nat
  {
    if xs == [] then 0 else Sum(xs[..|xs| - 1]) + xs[|xs| - 1]
  }

  /** The rows removed from one file of the directory `dir`. */
  function RemovedFrom(dir: map<string, Csv>, name: string, pages: seq<Page>): nat
  {
    if name in dir then CountStale(pages) else 0
  }

  /** Processing the file `name` of `dir` raises: it is present without a Source column. */
  predicate Raises(dir: map<string, Csv>, name: string)
  {
    name in dir && !dir[name].hasSource
  }

  /** A file after processing: same columns, its surviving rows. */
  function Cleaned(c: Csv, pages: seq<Page>): Csv
    requires |pages| == |c.rows|
  {
    c.(rows := Survivors(c.rows, pages))
  }

  /**
   * The loop of main over the file names `names`: `dir` holds the CSVs
   * present and `responses[i]` answers the requests made for file `i`.
   * `perFile` holds the counts of the files processed. A KeyError is not
   * caught, so it ends the run at the first file without a Source column,
   * leaving the files before it cleaned and the rest untouched; otherwise
   * every file is processed and the total is the sum of the counts.
   */
  method CleanFiles(names: seq<string>, dir: map<string, Csv>, responses: seq<seq<Page>>)
    returns (total: Result<nat, string>, perFile: seq<nat>, after: map<string, Csv>)
    requires forall i, j :: 0 <= i < j < |names| ==> names[i] != names[j]
    requires |responses| == |names|
    requires forall i :: 0 <= i < |names| && names[i] in dir ==> |responses[i]| == |dir[names[i]].rows|
    ensures |perFile| <= |names|
    ensures forall i :: 0 <= i < |perFile| ==> !Raises(dir, names[i]) && perFile[i] == RemovedFrom(dir, names[i], responses[i])
    ensures total.Ok? ==> |perFile| == |names| && total.value == Sum(perFile)
    ensures total.Err? ==> total.error == "KeyError" && |perFile| < |names| && Raises(dir, names[|perFile|])
    ensures after.Keys == dir.Keys
    ensures forall i :: 0 <= i < |perFile| && names[i] in dir ==> after[names[i]] == Cleaned(dir[names[i]], responses[i])
    ensures forall i :: |perFile| <= i < |names| && names[i] in dir ==> after[names[i]] == dir[names[i]]
    ensures forall f :: f in dir && f !in names ==> after[f] == dir[f]
  {
    var sum := 0;
    perFile := [];
    after := dir;
    for i := 0 to |names|
      invariant |perFile| == i && sum == Sum(perFile)
      invariant forall j :: 0 <= j < i ==> !Raises(dir, names[j]) && perFile[j] == RemovedFrom(dir, names[j], responses[j])
      invariant after.Keys == dir.Keys
      invariant forall j :: 0 <= j < i && names[j] in dir ==> after[names[j]] == Cleaned(dir[names[j]], responses[j])
      invariant forall j :: i <= j < |names| && names[j] in dir ==> after[names[j]] == dir[names[j]]
      invariant forall f :: f in dir && f !in names ==> after[f] == dir[f]
    {
      var name := names[i];
      var removed, after' := CleanOne(name, dir, after, responses[i]);
      if removed.Err? {
        return Err(removed.error), perFile, after;
      }
      after := after';
      assert (perFile + [removed.value])[..i] == perFile;
      perFile := perFile + [removed.value];
      sum := sum + removed.value;
    }
    total := Ok(sum);
  }

  /**
   * One turn of main's loop: process the file `name`, if present, and
   * record what is left of it in `after`; no other file changes, and
   * nothing changes when the file raises.
   */
  method CleanOne(name: string, dir: map<string, Csv>, after: map<string, Csv>, pages: seq<Page>)
    returns (removed: Result<nat, string>, after': map<string, Csv>)
    requires name in dir ==> name in after && after[name] == dir[name] && |pages| == |dir[name].rows|
    ensures removed == if Raises(dir, name) then Err("KeyError") else Ok(RemovedFrom(dir, name, pages))
    ensures after' == if name in dir && removed.Ok? then after[name := Cleaned(dir[name], pages)] else after
  {
    var file := if name in dir then Some(dir[name]) else None;
    var checked, backup, written;
    removed, checked, backup, written := ProcessFile(file, pages);
    after' := after;
    if written.Some? {
      after' := after[name := dir[name].(rows := written.value)];
    } else if file.Some? && file.value.hasSource {
      NoStaleKeepsAll(dir[name].rows, pages);
    }
  }

  /**
   * main: cleans the eight files of lines 14-23 in turn and adds up the
   * rows removed, unless a file without a Source column ends the run.
   */
  method CleanAll(dir: map<string, Csv>, responses: seq<seq<Page>>)
    returns (total: Result<nat, string>, perFile: seq<nat>, after: map<string, Csv>)
    requires |responses| == |FILES|
    requires forall i :: 0 <= i < |FILES| && FILES[i] in dir ==> |responses[i]| == |dir[FILES[i]].rows|
    ensures total.Ok? <==> forall i :: 0 <= i < |FILES| ==> !Raises(dir, FILES[i])
    ensures total.Ok? ==> |perFile| == |FILES| && total.value == Sum(perFile)
    ensures forall i :: 0 <= i < |perFile| ==> i < |FILES| && perFile[i] == RemovedFrom(dir, FILES[i], responses[i])
    ensures after.Keys == dir.Keys
    ensures forall i :: 0 <= i < |perFile| && FILES[i] in dir ==> after[FILES[i]] == Cleaned(dir[FILES[i]], responses[i])
    ensures forall f :: f in dir && f !in FILES ==> after[f] == dir[f]
  {
    FilesDistinct();
    total, perFile, after := CleanFiles(FILES, dir, responses);
  }
}
