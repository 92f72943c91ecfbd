/**
 * source/DetectNewIncentivesRegulations.py: pick the law records out of
 * the AFDC catalogue response (`fetch_all_laws`), then (`main`) give every
 * law its AFDC page URL, keep the laws enacted on or after the cutoff,
 * sort them newest first and choose the columns to write.
 *
 * The HTTP request, `pd.DataFrame(laws)` and the date parsing are outside
 * the model: `main` is given the parsed table, and the cutoff (today minus
 * two calendar years) is an input.
 */
module NewLaws {
  import opened Results
  import opened Strings

  // =====================================================================
  // fetch_all_laws: the shape of the response (lines 31-39)
  // =====================================================================

  /** A decoded JSON value; an object keeps its members in document order. */
  datatype Json =
    | JNull
    | JBool(b: bool)
    | JNumber(n: int)
    | JString(s: string)
    | JList(items: seq<Json>)
    | JObject(members: seq<(string, Json)>)

  /** `d.get(key)` on a decoded object: the last member with that key wins, as in `json.loads`. */
  function Get(members: seq<(string, Json)>, key: string): (r: Option<Json>)
    ensures r.Some? <==> exists k :: 0 <= k < |members| && members[k].0 == key
  {
    if members == [] then None
    else if members[|members| - 1].0 == key then Some(members[|members| - 1].1)
    else Get(members[..|members| - 1], key)
  }

  /**
   * The records of the response, tried in the order of the source: a list
   * itself, a "result" list, or the "laws" member of a "result" object.
   * The `in` test on a "result" string is a substring test and the
   * indexing that follows raises TypeError; on a number, boolean or null it
   * raises TypeError; every other shape is a ValueError.
   */
  function LawsOf(data: Json): Result<Json, string>
  {
    match data
    case JList(_) => Ok(data)
    case JObject(members) =>
      (match Get(members, "result")
       case Some(JList(items)) => Ok(JList(items))
       case Some(JObject(inner)) =>
         (match Get(inner, "laws")
          case Some(laws) => Ok(laws)
          case None => Err("ValueError"))
       case Some(JString(s)) => if Contains(s, "laws") then Err("TypeError") else Err("ValueError")
       case Some(_) => Err("TypeError")
       case None => Err("ValueError"))
    case _ => Err("ValueError")
  }

  /** Each of the three accepted shapes gives back the records wrapped in it. */
  lemma LawsOfAcceptedShapes(records: seq<Json>, laws: Json, before: seq<(string, Json)>)
    ensures LawsOf(JList(records)) == Ok(JList(records))
    ensures LawsOf(JObject(before + [("result", JList(records))])) == Ok(JList(records))
    ensures LawsOf(JObject(before + [("result", JObject([("laws", laws)]))])) == Ok(laws)
  {
    var m1 := before + [("result", JList(records))];
    assert m1[|m1| - 1].0 == "result";
    var m2 := before + [("result", JObject([("laws", laws)]))];
    assert m2[|m2| - 1].0 == "result";
  }

  /** A list is taken as it is even inside "result", before any "laws" member is looked for. */
  lemma ResultListWins(records: seq<Json>)
    ensures LawsOf(JObject([("result", JList(records)), ("laws", JList([]))])) == Ok(JList(records))
  {
    var m := [("result", JList(records)), ("laws", JList([]))];
    assert m[..|m| - 1] == [("result", JList(records))];
    assert m[|m| - 1].0 != "result";
    assert Get(m, "result") == Get([("result", JList(records))], "result");
  }

  /** An object without "result", or any scalar, is rejected with ValueError. */
  lemma LawsOfRejects(data: Json)
    requires data.JObject? ==> forall k :: 0 <= k < |data.members| ==> data.members[k].0 != "result"
    requires !data.JList?
    ensures LawsOf(data) == Err("ValueError")
  {
  }

  // =====================================================================
  // main: URL column, cutoff filter, sort and columns (lines 43-70)
  // =====================================================================

  /** An `enacted_date` after `pd.to_datetime(..., errors="coerce")`: a day number, or NaT. */
  datatype Date = Day(n: int) | NaT

  /** One catalogue row: its id (as `f"{i}"` renders it), its enacted date, and its other cells. */
  datatype Record = Record(id: string, enacted: Date, cells: map<string, string>)

  /** The parsed catalogue: the set of its column names and its rows. */
  datatype Table = Table(columns: set<string>, rows: seq<Record>)

  /** A row after line 53: the record and its afdc_url cell. */
  datatype Law = Law(record: Record, afdcUrl: string)

  const KEEP_COLS: seq<string> := ["id", "state", "title", "afdc_url", "enacted_date", "significant_update_date", "type"]
  const URL_PREFIX: string := "https://afdc.energy.gov/laws/"

  /** The AFDC page of a law. */
  function UrlFor(id: string): string
  {
    URL_PREFIX + id
  }

  /** The id a URL built by `UrlFor` was made from. */
  function IdOfUrl(url: string): string
  {
    if |url| >= |URL_PREFIX| then url[|URL_PREFIX|..] else url
  }

  /** The URL determines the id: `UrlFor` is inverted by `IdOfUrl`, so distinct ids get distinct URLs. */
  lemma UrlRoundTrip(id: string)
    ensures IdOfUrl(UrlFor(id)) == id
    ensures URL_PREFIX <= UrlFor(id)
  {
  }

  /** Line 53: every row gets its URL. */
  function WithUrls(rows: seq<Record>): (r: seq<Law>)
    ensures |r| == |rows|
    ensures forall k :: 0 <= k < |r| ==> r[k].record == rows[k] && URL_PREFIX <= r[k].afdcUrl && IdOfUrl(r[k].afdcUrl) == rows[k].id
  {
    seq(|rows|, k requires 0 <= k < |rows| => Law(rows[k], UrlFor(rows[k].id)))
  }

  /** `enacted_date >= cutoff`; NaT compares false. */
  predicate OnOrAfter(d: Date, cutoff: int)
  {
    d.Day? && d.n >= cutoff
  }

  /** Line 57: the rows enacted on or after the cutoff, in their original order. */
  function Recent(laws: seq<Law>, cutoff: int): seq<Law>
  {
    if laws == [] then []
    else (if OnOrAfter(laws[0].record.enacted, cutoff) then [laws[0]] else []) + Recent(laws[1..], cutoff)
  }

  /** The filter keeps every passing row as many times as it occurs, and nothing else. */
  lemma {:induction false} RecentCounts(laws: seq<Law>, cutoff: int, l: Law)
    ensures multiset(Recent(laws, cutoff))[l] == if OnOrAfter(l.record.enacted, cutoff) then multiset(laws)[l] else 0
  {
    if laws != [] {
      RecentCounts(laws[1..], cutoff, l);
      assert laws == [laws[0]] + laws[1..];
    }
  }

  /** Sort order of `sort_values(ascending=False)`: later dates first, NaT last. */
  predicate NoEarlier(a: Date, b: Date)
  {
    b.NaT? || (a.Day? && a.n >= b.n)
  }

  ghost predicate NewestFirst(s: seq<Law>)
  {
    forall i, j :: 0 <= i < j < |s| ==> NoEarlier(s[i].record.enacted, s[j].record.enacted)
  }

  /** Line 63: sort in place, newest first, by insertion. */
  method SortNewestFirst(a: array<Law>)
    modifies a
    ensures NewestFirst(a[..])
    ensures multiset(a[..]) == multiset(old(a[..]))
  {
    var i := 0;
    while i < a.Length
      invariant 0 <= i <= a.Length
      invariant NewestFirst(a[..i])
      invariant multiset(a[..]) == multiset(old(a[..]))
    {
      InsertNewest(a, i);
      i := i + 1;
    }
    assert a[..a.Length] == a[..];
  }

  /** Moves `a[i]` down into the sorted prefix `a[..i]`, by swaps. */
  method InsertNewest(a: array<Law>, i: nat)
    requires i < a.Length
    requires NewestFirst(a[..i])
    modifies a
    ensures NewestFirst(a[..i + 1])
    ensures multiset(a[..]) == multiset(old(a[..]))
  {
    var j := i;
    while j > 0 && !NoEarlier(a[j - 1].record.enacted, a[j].record.enacted)
      invariant 0 <= j <= i
      invariant forall x, y :: 0 <= x < y <= i && x != j && y != j ==>
        NoEarlier(a[x].record.enacted, a[y].record.enacted)
      invariant forall y :: j < y <= i ==> NoEarlier(a[j].record.enacted, a[y].record.enacted)
      invariant multiset(a[..]) == multiset(old(a[..]))
    {
      a[j - 1], a[j] := a[j], a[j - 1];
      j := j - 1;
    }
  }

  /** Line 65: the KEEP_COLS entries present, in KEEP_COLS order. */
  function Select(keep: seq<string>, present: set<string>): seq<string>
  {
    if keep == [] then []
    else (if keep[0] in present then [keep[0]] else []) + Select(keep[1..], present)
  }

  /** The selected columns are exactly the present ones of `keep`, in `keep`'s order, with nothing left out. */
  lemma {:induction false} SelectSpec(keep: seq<string>, present: set<string>)
    ensures forall c :: c in Select(keep, present) <==> c in keep && c in present
    ensures (forall c :: c in keep ==> c in present) ==> Select(keep, present) == keep
    ensures |Select(keep, present)| <= |keep|
  {
    if keep != [] {
      SelectSpec(keep[1..], present);
      assert keep == [keep[0]] + keep[1..];
    }
  }

  /**
   * The selection keeps `keep`'s order: selecting from two stretches of
   * `keep` gives the selection from the first followed by that from the
   * second.
   */
  lemma {:induction false} SelectAppend(k1: seq<string>, k2: seq<string>, present: set<string>)
    ensures Select(k1 + k2, present) == Select(k1, present) + Select(k2, present)
    decreases |k1|
  {
    if k1 == [] {
      assert k1 + k2 == k2;
    } else {
      var rest := k1[1..] + k2;
      assert (k1 + k2)[0] == k1[0] && (k1 + k2)[1..] == rest;
      SelectAppend(k1[1..], k2, present);
    }
  }

  /** A single column is selected exactly when it is present. */
  lemma SelectSingle(c: string, present: set<string>)
    ensures Select([c], present) == if c in present then [c] else []
  {
    assert [c][1..] == [];
  }

  /** Once the URL column is added, afdc_url is always written, whatever the catalogue's columns. */
  lemma UrlColumnWritten(columns: set<string>)
    ensures "afdc_url" in Select(KEEP_COLS, columns + {"afdc_url"})
  {
    SelectSpec(KEEP_COLS, columns + {"afdc_url"});
  }

  /**
   * What a run leads to: a KeyError for a missing id or enacted_date
   * column, no file when nothing is recent, or the file's columns and
   * rows. `previewFails` records that the preview on line 70 selects all
   * of KEEP_COLS and raises KeyError after the file is written.
   */
  datatype Outcome =
    | Failed(error: string)
    | NothingNew
    | Saved(columns: seq<string>, rows: seq<Law>, previewFails: bool)

  method DetectNewLaws(table: Table, cutoff: int) returns (out: Outcome)
    ensures out.Failed? <==> "id" !in table.columns || "enacted_date" !in table.columns
    ensures out.Failed? ==> out.error == "KeyError"
    ensures out.NothingNew? <==> !out.Failed? && Recent(WithUrls(table.rows), cutoff) == []
    ensures out.Saved? ==> multiset(out.rows) == multiset(Recent(WithUrls(table.rows), cutoff))
    ensures out.Saved? ==> NewestFirst(out.rows)
    ensures out.Saved? ==> out.columns == Select(KEEP_COLS, table.columns + {"afdc_url"})
    ensures out.Saved? ==> (out.previewFails <==> exists c :: c in KEEP_COLS && c !in table.columns + {"afdc_url"})
  {
    if "id" !in table.columns {
      return Failed("KeyError");
    }
    var laws := WithUrls(table.rows);
    var columns := table.columns + {"afdc_url"};
    if "enacted_date" !in columns {
      return Failed("KeyError");
    }
    var recent := Recent(laws, cutoff);
    if recent == [] {
      return NothingNew;
    }
    var a := new Law[|recent|](k requires 0 <= k < |recent| => recent[k]);
    assert a[..] == recent;
    SortNewestFirst(a);
    var previewFails := exists c :: c in KEEP_COLS && c !in columns;
    return Saved(Select(KEEP_COLS, columns), a[..], previewFails);
  }

  /**
   * Every saved row is enacted on or after the cutoff, carries its own
   * URL, and comes from the catalogue; every recent catalogue row is saved.
   */
  lemma SavedRowsAreRecent(table: Table, cutoff: int, rows: seq<Law>)
    requires multiset(rows) == multiset(Recent(WithUrls(table.rows), cutoff))
    ensures forall l :: l in rows ==> OnOrAfter(l.record.enacted, cutoff) && l.afdcUrl == UrlFor(l.record.id)
    ensures forall l :: l in rows ==> l.record in table.rows
    ensures forall k :: 0 <= k < |table.rows| && OnOrAfter(table.rows[k].enacted, cutoff) ==>
      Law(table.rows[k], UrlFor(table.rows[k].id)) in rows
  {
    var laws := WithUrls(table.rows);
    forall l | l in rows
      ensures OnOrAfter(l.record.enacted, cutoff) && l.afdcUrl == UrlFor(l.record.id) && l.record in table.rows
    {
      assert l in multiset(rows);
      RecentCounts(laws, cutoff, l);
      assert l in multiset(laws);
      var k :| 0 <= k < |laws| && laws[k] == l;
    }
    forall k | 0 <= k < |table.rows| && OnOrAfter(table.rows[k].enacted, cutoff)
      ensures Law(table.rows[k], UrlFor(table.rows[k].id)) in rows
    {
      var l := Law(table.rows[k], UrlFor(table.rows[k].id));
      assert laws[k] == l;
      RecentCounts(laws, cutoff, l);
      assert l in multiset(rows);
    }
  }
}
