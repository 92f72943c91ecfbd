/**
 * State-level support tables (source/ProcessStateSupport.py).
 *
 * The script reads one CSV per category into an insertion-ordered dict,
 * builds the "all incentives" and "all regulations" aggregates, pairs each
 * incentives table with its regulations table, turns every table into one
 * count row per state and left-joins the counts onto the state boundaries.
 * Fetching files is left out: a CSV is given as its path and its rows.
 */
module StateSupport {
  import opened Results
  import opened Strings

  // =====================================================================
  // Data model
  // =====================================================================

  /**
   * One row of a state-level CSV after its State column was renamed STUSPS.
   * `rest` stands for the other columns, which the script carries along.
   */
  datatype Row = Row(stusps: string, name: string, types: string, rest: seq<string>)

  /** The (STUSPS, Name) pair on which rows are de-duplicated and matched. */
  type Key = (string, string)

  function KeyOf(r: Row): Key
  {
    (r.stusps, r.name)
  }

  /**
   * A pandas DataFrame of rows. `NoColumns` is the empty `pd.DataFrame()`
   * the script starts from: it has no STUSPS column to select.
   */
  datatype Frame = NoColumns | Table(rows: seq<Row>)

  function RowsOf(f: Frame): seq<Row>
  {
    if f.Table? then f.rows else []
  }

  /** The exceptions the script can raise. */
  datatype Error = KeyError(key: string)

  /** An insertion-ordered Python dict from table names to frames. */
  type Dict = seq<(string, Frame)>

  function Names(d: Dict): (r: seq<string>)
    ensures |r| == |d| && forall i :: 0 <= i < |d| ==> r[i] == d[i].0
  {
    if d == [] then [] else [d[0].0] + Names(d[1..])
  }

  ghost predicate UniqueNames(d: Dict)
  {
    forall i, j :: 0 <= i < j < |d| ==> d[i].0 != d[j].0
  }

  /** `d.get(k)`. */
  function Find(d: Dict, k: string): (r: Option<Frame>)
    ensures r.None? <==> k !in Names(d)
  {
    if d == [] then None
    else if d[0].0 == k then Some(d[0].1)
    else Find(d[1..], k)
  }

  /** `d[k] = v`: a present key keeps its position, a new key goes last. */
  function Put(d: Dict, k: string, v: Frame): (r: Dict)
    ensures k !in Names(d) ==> r == d + [(k, v)]
    ensures k in Names(d) ==> Names(r) == Names(d)
  {
    if d == [] then [(k, v)]
    else if d[0].0 == k then [(k, v)] + d[1..]
    else [d[0]] + Put(d[1..], k, v)
  }

  /** `d[k] = v` adds `k` to the names and removes none. */
  lemma PutNames(d: Dict, k: string, v: Frame)
    ensures k in Names(Put(d, k, v))
    ensures forall x :: x in Names(d) ==> x in Names(Put(d, k, v))
  {
    if k !in Names(d) {
      assert Names(Put(d, k, v))[|d|] == k;
      forall x | x in Names(d)
        ensures x in Names(Put(d, k, v))
      {
        var i :| 0 <= i < |d| && Names(d)[i] == x;
        assert Names(Put(d, k, v))[i] == x;
      }
    }
  }

  /** After `d[k] = v`, `k` maps to `v`. */
  lemma {:induction false} PutFind(d: Dict, k: string, v: Frame)
    ensures Find(Put(d, k, v), k) == Some(v)
    decreases |d|
  {
    if d != [] && d[0].0 != k {
      PutFind(d[1..], k, v);
    }
  }

  /** `d[k] = v` leaves every other key's value as it was. */
  lemma {:induction false} PutKeeps(d: Dict, k: string, v: Frame, k': string)
    requires k' != k
    ensures Find(Put(d, k, v), k') == Find(d, k')
    decreases |d|
  {
    if d != [] && d[0].0 != k {
      PutKeeps(d[1..], k, v, k');
    }
  }

  /** `d[k] = v` keeps the names unique. */
  lemma PutUnique(d: Dict, k: string, v: Frame)
    requires UniqueNames(d)
    ensures UniqueNames(Put(d, k, v))
  {
    var r := Put(d, k, v);
    if k in Names(d) {
      forall i, j | 0 <= i < j < |r|
        ensures r[i].0 != r[j].0
      {
        assert Names(r)[i] == Names(d)[i] && Names(r)[j] == Names(d)[j];
      }
    }
  }

  // =====================================================================
  // read_state_data: the key of each CSV
  // =====================================================================

  /** Index of the last `c` in `s`, or -1. */
  function LastIndex(s: string, c: char): (r: int)
    ensures -1 <= r < |s|
  {
    if s == [] then -1
    else if s[|s| - 1] == c then |s| - 1
    else LastIndex(s[..|s| - 1], c)
  }

  lemma {:induction false} LastIndexSpec(s: string, c: char)
    ensures LastIndex(s, c) >= 0 ==> s[LastIndex(s, c)] == c
    ensures forall k :: LastIndex(s, c) < k < |s| ==> s[k] != c
    decreases |s|
  {
    if s != [] && s[|s| - 1] != c {
      LastIndexSpec(s[..|s| - 1], c);
    }
  }

  /** `path.split("/")[-1]`. */
  function BaseName(path: string): string
  {
    path[LastIndex(path, '/') + 1..]
  }

  /**
   * `os.path.splitext(name)[0]` for a name without '/': the last dot starts
   * the extension unless only dots precede it.
   */
  function Stem(name: string): string
  {
    var dot := LastIndex(name, '.');
    if dot >= 0 && !OnlyDots(name[..dot]) then name[..dot] else name
  }

  predicate OnlyDots(s: string)
  {
    forall k :: 0 <= k < |s| ==> s[k] == '.'
  }

  /** The dict key of the CSV at `path` (lines 46-49). */
  function TableName(path: string): string
  {
    Stem(BaseName(path))
  }

  /** A CSV `<dir>/<stem>.csv` found by the glob is stored under `<stem>`. */
  lemma CsvTableName(dir: string, stem: string)
    requires stem != [] && stem[0] != '.'
    requires forall k :: 0 <= k < |stem| ==> stem[k] != '/'
    ensures TableName(dir + "/" + stem + ".csv") == stem
  {
    var path := dir + "/" + stem + ".csv";
    var slash := LastIndex(path, '/');
    LastIndexSpec(path, '/');
    assert path[|dir|] == '/';
    assert slash == |dir| by {
      forall k | |dir| < k < |path|
        ensures path[k] != '/'
      {
        if k <= |dir| + |stem| {
          assert path[k] == stem[k - |dir| - 1];
        }
      }
    }
    var name := BaseName(path);
    assert name == stem + ".csv";
    var dot := LastIndex(name, '.');
    LastIndexSpec(name, '.');
    assert name[|stem|] == '.';
    assert dot == |stem|;
    assert name[..dot] == stem;
    assert !OnlyDots(stem);
  }

  /** True when no two CSV paths give the same dict key. */
  ghost predicate DistinctTableNames(files: seq<(string, seq<Row>)>)
  {
    forall i, j :: 0 <= i < j < |files| ==> TableName(files[i].0) != TableName(files[j].0)
  }

  /** Each CSV under its own name, in glob order. */
  function Listed(files: seq<(string, seq<Row>)>): Dict
  {
    seq(|files|, j requires 0 <= j < |files| => (TableName(files[j].0), Table(files[j].1)))
  }

  lemma ListedGrows(files: seq<(string, seq<Row>)>, i: nat)
    requires DistinctTableNames(files) && i < |files|
    ensures TableName(files[i].0) !in Names(Listed(files[..i]))
    ensures Listed(files[..i + 1]) == Listed(files[..i]) + [(TableName(files[i].0), Table(files[i].1))]
  {
    var d := Listed(files[..i]);
    forall j | 0 <= j < i
      ensures d[j].0 != TableName(files[i].0)
    {
      assert files[..i][j] == files[j];
    }
  }

  /**
   * read_state_data (lines 15-51): every CSV is stored under its file name
   * without extension; when these names differ the dict lists the CSVs in
   * glob order.
   */
  method ReadStateData(files: seq<(string, seq<Row>)>) returns (d: Dict)
    ensures UniqueNames(d)
    ensures forall i :: 0 <= i < |files| ==> Find(d, TableName(files[i].0)).Some?
    ensures DistinctTableNames(files) ==> d == Listed(files)
  {
    d := [];
    for i := 0 to |files|
      invariant UniqueNames(d)
      invariant forall j :: 0 <= j < i ==> TableName(files[j].0) in Names(d)
      invariant DistinctTableNames(files) ==> d == Listed(files[..i])
    {
      var name := TableName(files[i].0);
      var frame := Table(files[i].1);
      PutUnique(d, name, frame);
      PutNames(d, name, frame);
      if DistinctTableNames(files) {
        ListedGrows(files, i);
      }
      d := Put(d, name, frame);
    }
    assert files[..|files|] == files;
  }

  // =====================================================================
  // drop_duplicates(subset=["STUSPS", "Name"])
  // =====================================================================

  function KeySet(rows: seq<Row>): set<Key>
  {
    set r | r in rows :: KeyOf(r)
  }

  ghost predicate UniqueRowKeys(rows: seq<Row>)
  {
    forall i, j :: 0 <= i < j < |rows| ==> KeyOf(rows[i]) != KeyOf(rows[j])
  }

  /** The first row carrying key `k`. */
  function FirstWithKey(rows: seq<Row>, k: Key): Option<Row>
  {
    if rows == [] then None
    else if KeyOf(rows[0]) == k then Some(rows[0])
    else FirstWithKey(rows[1..], k)
  }

  /** Keeps the first row of every key not in `seen`, in order. */
  function DedupFrom(rows: seq<Row>, seen: set<Key>): seq<Row>
    decreases |rows|
  {
    if rows == [] then []
    else if KeyOf(rows[0]) in seen then DedupFrom(rows[1..], seen)
    else [rows[0]] + DedupFrom(rows[1..], seen + {KeyOf(rows[0])})
  }

  function DropDuplicates(rows: seq<Row>): seq<Row>
  {
    DedupFrom(rows, {})
  }

  lemma KeySetCons(rows: seq<Row>)
    requires rows != []
    ensures KeySet(rows) == {KeyOf(rows[0])} + KeySet(rows[1..])
  {
    assert rows == [rows[0]] + rows[1..];
  }

  lemma KeySetSingle(x: Row)
    ensures KeySet([x]) == {KeyOf(x)}
  {
    assert x in [x];
  }

  lemma KeySetAppend(a: seq<Row>, b: seq<Row>)
    ensures KeySet(a + b) == KeySet(a) + KeySet(b)
  {
    forall k | k in KeySet(a + b)
      ensures k in KeySet(a) + KeySet(b)
    {
      var r :| r in a + b && KeyOf(r) == k;
    }
  }

  /** What `DedupFrom` keeps: unique keys, none of them seen, each row the first of its key. */
  lemma {:induction false} DedupFromSpec(rows: seq<Row>, seen: set<Key>)
    ensures UniqueRowKeys(DedupFrom(rows, seen))
    ensures KeySet(DedupFrom(rows, seen)) == KeySet(rows) - seen
    ensures forall i :: 0 <= i < |DedupFrom(rows, seen)| ==>
              FirstWithKey(rows, KeyOf(DedupFrom(rows, seen)[i])) == Some(DedupFrom(rows, seen)[i])
    decreases |rows|
  {
    if rows != [] {
      var k := KeyOf(rows[0]);
      KeySetCons(rows);
      if k in seen {
        DedupFromSpec(rows[1..], seen);
      } else {
        var tail := DedupFrom(rows[1..], seen + {k});
        DedupFromSpec(rows[1..], seen + {k});
        var r := [rows[0]] + tail;
        assert DedupFrom(rows, seen) == r;
        KeySetCons(r);
        assert r[1..] == tail;
        forall i | 0 < i < |r|
          ensures KeyOf(r[i]) != k
        {
          assert r[i] in tail;
          assert KeyOf(r[i]) in KeySet(tail);
        }
      }
    }
  }

  /**
   * drop_duplicates keeps exactly one row per key, and that row is the
   * earliest row of the input with that key.
   */
  lemma DropDuplicatesSpec(rows: seq<Row>)
    ensures UniqueRowKeys(DropDuplicates(rows))
    ensures KeySet(DropDuplicates(rows)) == KeySet(rows)
    ensures forall i :: 0 <= i < |DropDuplicates(rows)| ==>
              FirstWithKey(rows, KeyOf(DropDuplicates(rows)[i])) == Some(DropDuplicates(rows)[i])
  {
    DedupFromSpec(rows, {});
  }

  lemma {:induction false} DedupAppend(a: seq<Row>, b: seq<Row>, seen: set<Key>)
    ensures DedupFrom(a + b, seen) == DedupFrom(a, seen) + DedupFrom(b, seen + KeySet(a))
    decreases |a|
  {
    if a == [] {
      assert a + b == b;
      assert seen + KeySet(a) == seen;
    } else {
      assert (a + b)[0] == a[0];
      assert (a + b)[1..] == a[1..] + b;
      var k := KeyOf(a[0]);
      KeySetCons(a);
      if k in seen {
        DedupAppend(a[1..], b, seen);
        assert seen + KeySet(a[1..]) == seen + KeySet(a);
      } else {
        DedupAppend(a[1..], b, seen + {k});
        assert seen + {k} + KeySet(a[1..]) == seen + KeySet(a);
      }
    }
  }

  lemma {:induction false} DedupNoop(rows: seq<Row>, seen: set<Key>)
    requires UniqueRowKeys(rows)
    requires KeySet(rows) !! seen
    ensures DedupFrom(rows, seen) == rows
    decreases |rows|
  {
    if rows != [] {
      var k := KeyOf(rows[0]);
      KeySetCons(rows);
      forall j | 0 <= j < |rows[1..]|
        ensures KeyOf(rows[1..][j]) != k
      {
        assert rows[1..][j] == rows[j + 1];
      }
      assert KeySet(rows[1..]) !! seen + {k};
      DedupNoop(rows[1..], seen + {k});
    }
  }

  /** Re-running drop_duplicates after each concatenation equals running it once on the whole. */
  lemma DropDuplicatesAbsorbs(a: seq<Row>, b: seq<Row>)
    ensures DropDuplicates(DropDuplicates(a) + b) == DropDuplicates(a + b)
  {
    var da := DropDuplicates(a);
    DedupAppend(da, b, {});
    DedupFromSpec(a, {});
    DedupNoop(da, {});
    DedupAppend(a, b, {});
    assert {} + KeySet(da) == {} + KeySet(a);
  }

  // =====================================================================
  // add_aggregated_data: the non-emissions pass (lines 70-82)
  // =====================================================================

  /** The table stored under `name` joins the `support` aggregate (line 76). */
  predicate Joins(name: string, support: string)
  {
    Contains(name, support) && !Contains(name, "emissions")
  }

  /** `pd.concat([a, b], ignore_index=True)`. */
  function Concat(a: Frame, b: Frame): (r: Frame)
    ensures RowsOf(r) == RowsOf(a) + RowsOf(b)
    ensures r.NoColumns? <==> a.NoColumns? && b.NoColumns?
  {
    if a.NoColumns? && b.NoColumns? then NoColumns else Table(RowsOf(a) + RowsOf(b))
  }

  /**
   * One pass of the loop at lines 74-82; drop_duplicates on a frame without
   * STUSPS and Name columns raises KeyError.
   */
  function CollectStep(agg: Result<Frame, Error>, entry: (string, Frame), support: string): Result<Frame, Error>
  {
    if agg.Err? || !Joins(entry.0, support) then agg
    else
      match Concat(agg.value, entry.1)
      case NoColumns => Err(KeyError("STUSPS"))
      case Table(rows) => Ok(Table(DropDuplicates(rows)))
  }

  /** The aggregate after the loop at lines 74-82 has visited every entry of `d`. */
  function Collect(d: Dict, support: string): Result<Frame, Error>
  {
    if d == [] then Ok(NoColumns)
    else CollectStep(Collect(d[..|d| - 1], support), d[|d| - 1], support)
  }

  /** Some entry of `d` joins the aggregate. */
  predicate AnyJoins(d: Dict, support: string)
  {
    d != [] && (AnyJoins(d[..|d| - 1], support) || Joins(d[|d| - 1].0, support))
  }

  /** The rows of the joining tables, concatenated in dict order. */
  function JoinedRows(d: Dict, support: string): seq<Row>
  {
    if d == [] then []
    else JoinedRows(d[..|d| - 1], support) + (if Joins(d[|d| - 1].0, support) then RowsOf(d[|d| - 1].1) else [])
  }

  /**
   * When every table was read from a CSV, the non-emissions pass yields
   * the joining tables concatenated in dict order with later duplicates of
   * a (STUSPS, Name) key dropped; no joining table leaves the empty frame.
   */
  lemma {:induction false} CollectIsDedupOfJoined(d: Dict, support: string)
    requires forall i :: 0 <= i < |d| ==> d[i].1.Table?
    ensures !AnyJoins(d, support) ==> JoinedRows(d, support) == [] && Collect(d, support) == Ok(NoColumns)
    ensures AnyJoins(d, support) ==> Collect(d, support) == Ok(Table(DropDuplicates(JoinedRows(d, support))))
    decreases |d|
  {
    if d != [] {
      var init := d[..|d| - 1];
      var last := d[|d| - 1];
      assert forall i :: 0 <= i < |init| ==> init[i] == d[i];
      CollectIsDedupOfJoined(init, support);
      var before := Collect(init, support);
      assert Collect(d, support) == CollectStep(before, last, support);
      if Joins(last.0, support) {
        var rs := last.1.rows;
        var joined := JoinedRows(init, support);
        assert JoinedRows(d, support) == joined + rs;
        if AnyJoins(init, support) {
          assert Concat(before.value, last.1) == Table(DropDuplicates(joined) + rs);
          DropDuplicatesAbsorbs(joined, rs);
        } else {
          assert joined + rs == rs;
          assert Concat(before.value, last.1) == Table(rs);
        }
      } else {
        assert JoinedRows(d, support) == JoinedRows(init, support) + [];
        assert JoinedRows(d, support) == JoinedRows(init, support);
        assert AnyJoins(d, support) == AnyJoins(init, support);
        assert Collect(d, support) == before;
      }
    }
  }

  lemma {:induction false} CollectErrorPersists(d: Dict, support: string, i: nat)
    requires i <= |d|
    requires Collect(d[..i], support).Err?
    ensures Collect(d, support) == Collect(d[..i], support)
    decreases |d| - i
  {
    if i < |d| {
      assert d[..i + 1][..i] == d[..i];
      CollectErrorPersists(d, support, i + 1);
    } else {
      assert d[..i] == d;
    }
  }

  lemma {:induction false} CollectUnique(d: Dict, support: string)
    requires Collect(d, support).Ok? && Collect(d, support).value.Table?
    ensures UniqueRowKeys(Collect(d, support).value.rows)
    decreases |d|
  {
    var init := d[..|d| - 1];
    var last := d[|d| - 1];
    if Collect(init, support).Ok? && Joins(last.0, support) {
      DropDuplicatesSpec(Concat(Collect(init, support).value, last.1).rows);
    } else {
      CollectUnique(init, support);
    }
  }

  // =====================================================================
  // add_aggregated_data: folding in the emissions rows (lines 84-122)
  // =====================================================================

  /** Number of rows with key `k` (`len(aggregated_df_row)`). */
  function CountKey(rows: seq<Row>, k: Key): nat
  {
    if rows == [] then 0
    else CountKey(rows[..|rows| - 1], k) + (if KeyOf(rows[|rows| - 1]) == k then 1 else 0)
  }

  /** Lines 106-110: the rows with key `k` get ", Emissions" appended to Types. */
  function AppendEmissionsType(rows: seq<Row>, k: Key): seq<Row>
  {
    seq(|rows|, i requires 0 <= i < |rows| =>
      if KeyOf(rows[i]) == k then rows[i].(types := rows[i].types + ", Emissions") else rows[i])
  }

  /**
   * One emissions row (lines 88-122): one match gains the Emissions type,
   * no match appends the row typed "Emissions", more matches only print an
   * error.
   */
  function MergeEmission(rows: seq<Row>, e: Row): seq<Row>
  {
    var n := CountKey(rows, KeyOf(e));
    if n == 1 then AppendEmissionsType(rows, KeyOf(e))
    else if n == 0 then rows + [e.(types := "Emissions")]
    else rows
  }

  /** All emissions rows, in order. */
  function MergeAll(rows: seq<Row>, es: seq<Row>): seq<Row>
  {
    if es == [] then rows
    else MergeEmission(MergeAll(rows, es[..|es| - 1]), es[|es| - 1])
  }

  lemma {:induction false} CountKeyZero(rows: seq<Row>, k: Key)
    ensures CountKey(rows, k) == 0 <==> k !in KeySet(rows)
    decreases |rows|
  {
    if rows != [] {
      var init := rows[..|rows| - 1];
      CountKeyZero(init, k);
      assert rows == init + [rows[|rows| - 1]];
      KeySetAppend(init, [rows[|rows| - 1]]);
    }
  }

  /** With unique keys at most one row can match, so the error branch is dead. */
  lemma {:induction false} UniqueCountAtMostOne(rows: seq<Row>, k: Key)
    requires UniqueRowKeys(rows)
    ensures CountKey(rows, k) <= 1
    decreases |rows|
  {
    if rows != [] {
      var init := rows[..|rows| - 1];
      var last := rows[|rows| - 1];
      assert UniqueRowKeys(init);
      UniqueCountAtMostOne(init, k);
      if KeyOf(last) == k {
        CountKeyZero(init, k);
      }
    }
  }

  lemma {:induction false} CountKeyOne(rows: seq<Row>, k: Key) returns (i: nat)
    requires CountKey(rows, k) == 1
    ensures i < |rows| && KeyOf(rows[i]) == k
    ensures forall j :: 0 <= j < |rows| && j != i ==> KeyOf(rows[j]) != k
    decreases |rows|
  {
    var init := rows[..|rows| - 1];
    var last := rows[|rows| - 1];
    if KeyOf(last) == k {
      CountKeyZero(init, k);
      i := |rows| - 1;
      forall j | 0 <= j < |init|
        ensures KeyOf(rows[j]) != k
      {
        assert init[j] in init;
      }
    } else {
      i := CountKeyOne(init, k);
    }
  }

  /**
   * An emissions row whose key occurs exactly once extends that row's Types
   * with ", Emissions" and leaves every other row as it was.
   */
  lemma MergeEmissionMatched(rows: seq<Row>, e: Row) returns (i: nat)
    requires CountKey(rows, KeyOf(e)) == 1
    ensures i < |rows| && KeyOf(rows[i]) == KeyOf(e)
    ensures |MergeEmission(rows, e)| == |rows|
    ensures MergeEmission(rows, e)[i] == rows[i].(types := rows[i].types + ", Emissions")
    ensures forall j :: 0 <= j < |rows| && j != i ==> MergeEmission(rows, e)[j] == rows[j]
  {
    i := CountKeyOne(rows, KeyOf(e));
  }

  /** An emissions row whose key is absent is appended last, typed "Emissions". */
  lemma MergeEmissionUnmatched(rows: seq<Row>, e: Row)
    requires KeyOf(e) !in KeySet(rows)
    ensures MergeEmission(rows, e) == rows + [e.(types := "Emissions")]
  {
    CountKeyZero(rows, KeyOf(e));
  }

  /** Folding in an emissions row keeps (STUSPS, Name) unique and adds its key. */
  lemma MergeEmissionKeepsUnique(rows: seq<Row>, e: Row)
    requires UniqueRowKeys(rows)
    ensures UniqueRowKeys(MergeEmission(rows, e))
    ensures KeySet(MergeEmission(rows, e)) == KeySet(rows) + {KeyOf(e)}
  {
    var k := KeyOf(e);
    UniqueCountAtMostOne(rows, k);
    CountKeyZero(rows, k);
    var r := MergeEmission(rows, e);
    if CountKey(rows, k) == 1 {
      forall i | 0 <= i < |rows|
        ensures KeyOf(r[i]) == KeyOf(rows[i])
      {
      }
      forall x | x in KeySet(rows)
        ensures x in KeySet(r)
      {
        var i :| 0 <= i < |rows| && KeyOf(rows[i]) == x;
        assert r[i] in r;
      }
    } else {
      KeySetAppend(rows, [e.(types := "Emissions")]);
      KeySetSingle(e.(types := "Emissions"));
    }
  }

  lemma {:induction false} MergeAllKeepsUnique(rows: seq<Row>, es: seq<Row>)
    requires UniqueRowKeys(rows)
    ensures UniqueRowKeys(MergeAll(rows, es))
    decreases |es|
  {
    if es != [] {
      MergeAllKeepsUnique(rows, es[..|es| - 1]);
      MergeEmissionKeepsUnique(MergeAll(rows, es[..|es| - 1]), es[|es| - 1]);
    }
  }

  /** The "all_<support>" frame (lines 70-124). */
  function Aggregate(d: Dict, support: string): Result<Frame, Error>
  {
    match Collect(d, support)
    case Err(e) => Err(e)
    case Ok(agg) =>
      match Find(d, "emissions_" + support)
      case None => Err(KeyError("emissions_" + support))
      case Some(ef) =>
        if RowsOf(ef) == [] then Ok(agg)
        else if agg.NoColumns? then Err(KeyError("STUSPS"))
        else Ok(Table(MergeAll(agg.rows, RowsOf(ef))))
  }

  /** Every aggregate has unique (STUSPS, Name) keys. */
  lemma AggregateUnique(d: Dict, support: string)
    requires Aggregate(d, support).Ok? && Aggregate(d, support).value.Table?
    ensures UniqueRowKeys(Aggregate(d, support).value.rows)
  {
    CollectUnique(d, support);
    var agg := Collect(d, support).value;
    var ef := Find(d, "emissions_" + support).value;
    if RowsOf(ef) != [] {
      MergeAllKeepsUnique(agg.rows, RowsOf(ef));
    }
  }

  /**
   * The loops of lines 70-124 for one support type. The "appears more than
   * once" branch is never taken: the aggregate keeps unique keys throughout.
   */
  method AggregateSupport(d: Dict, support: string) returns (r: Result<Frame, Error>)
    ensures r == Aggregate(d, support)
    ensures r.Ok? && r.value.Table? ==> UniqueRowKeys(r.value.rows)
  {
    var agg: Frame := NoColumns;
    for i := 0 to |d|
      invariant Collect(d[..i], support) == Ok(agg)
      invariant agg.Table? ==> UniqueRowKeys(agg.rows)
    {
      assert d[..i + 1][..i] == d[..i];
      if Joins(d[i].0, support) {
        var joined := Concat(agg, d[i].1);
        if joined.NoColumns? {
          r := Err(KeyError("STUSPS"));
          CollectErrorPersists(d, support, i + 1);
          return;
        }
        DropDuplicatesSpec(joined.rows);
        agg := Table(DropDuplicates(joined.rows));
      }
    }
    assert d[..|d|] == d;

    var found := Find(d, "emissions_" + support);
    if found.None? {
      return Err(KeyError("emissions_" + support));
    }
    var es := RowsOf(found.value);
    if es == [] {
      return Ok(agg);
    }
    if agg.NoColumns? {
      return Err(KeyError("STUSPS"));
    }
    var rows := agg.rows;
    for i := 0 to |es|
      invariant rows == MergeAll(agg.rows, es[..i])
      invariant UniqueRowKeys(rows)
    {
      assert es[..i + 1][..i] == es[..i];
      var e := es[i];
      var n := CountKey(rows, KeyOf(e));
      UniqueCountAtMostOne(rows, KeyOf(e));
      MergeEmissionKeepsUnique(rows, e);
      if n == 1 {
        rows := AppendEmissionsType(rows, KeyOf(e));
      } else if n == 0 {
        rows := rows + [e.(types := "Emissions")];
      } else {
        assert false;
      }
    }
    assert es[..|es|] == es;
    r := Ok(Table(rows));
  }

  // =====================================================================
  // add_aggregated_data: the combined tables (lines 126-153)
  // =====================================================================

  /** (new name, incentives table, regulations table), in the order of lines 127-151. */
  const PAIRS: seq<(string, string, string)> := [
    ("all_incentives_and_regulations", "all_incentives", "all_regulations"),
    ("fuel_use_incentives_and_regulations", "fuel_use_incentives", "fuel_use_regulations"),
    ("infrastructure_incentives_and_regulations", "infrastructure_incentives", "infrastructure_regulations"),
    ("vehicle_purchase_incentives_and_regulations", "vehicle_purchase_incentives", "vehicle_purchase_regulations"),
    ("emissions_incentives_and_regulations", "emissions_incentives", "emissions_regulations")
  ]

  /** One combined table: a missing part raises KeyError, the first part first. */
  function AddPair(d: Dict, p: (string, string, string)): Result<Dict, Error>
  {
    match Find(d, p.1)
    case None => Err(KeyError(p.1))
    case Some(a) =>
      match Find(d, p.2)
      case None => Err(KeyError(p.2))
      case Some(b) => Ok(Put(d, p.0, Concat(a, b)))
  }

  function AddPairs(d: Dict, ps: seq<(string, string, string)>): Result<Dict, Error>
    decreases |ps|
  {
    if ps == [] then Ok(d)
    else
      match AddPair(d, ps[0])
      case Err(e) => Err(e)
      case Ok(d') => AddPairs(d', ps[1..])
  }

  /** The whole of add_aggregated_data. */
  function AddAggregated(d: Dict): Result<Dict, Error>
  {
    match Aggregate(d, "incentives")
    case Err(e) => Err(e)
    case Ok(ai) =>
      var d1 := Put(d, "all_incentives", ai);
      match Aggregate(d1, "regulations")
      case Err(e) => Err(e)
      case Ok(ar) => AddPairs(Put(d1, "all_regulations", ar), PAIRS)
  }

  /** The statements of lines 127-151, one combined table after another. */
  method AddCombinedTables(d: Dict, ps: seq<(string, string, string)>) returns (r: Result<Dict, Error>)
    ensures r == AddPairs(d, ps)
  {
    var cur := d;
    for i := 0 to |ps|
      invariant AddPairs(d, ps) == AddPairs(cur, ps[i..])
    {
      var p := ps[i];
      var a := Find(cur, p.1);
      if a.None? {
        return Err(KeyError(p.1));
      }
      var b := Find(cur, p.2);
      if b.None? {
        return Err(KeyError(p.2));
      }
      assert ps[i..][1..] == ps[i + 1..];
      cur := Put(cur, p.0, Concat(a.value, b.value));
    }
    r := Ok(cur);
  }

  method AddAggregatedData(d: Dict) returns (r: Result<Dict, Error>)
    ensures r == AddAggregated(d)
  {
    var cur := d;
    var ai := AggregateSupport(cur, "incentives");
    if ai.Err? {
      return Err(ai.error);
    }
    cur := Put(cur, "all_incentives", ai.value);
    var ar := AggregateSupport(cur, "regulations");
    if ar.Err? {
      return Err(ar.error);
    }
    cur := Put(cur, "all_regulations", ar.value);
    r := AddCombinedTables(cur, PAIRS);
  }

  /** No combined table's name is the name of a part, and no two are alike. */
  ghost predicate FreshPairNames(ps: seq<(string, string, string)>)
  {
    forall i, j :: 0 <= i < |ps| && 0 <= j < |ps| ==>
      ps[i].0 != ps[j].1 && ps[i].0 != ps[j].2 && (i != j ==> ps[i].0 != ps[j].0)
  }

  lemma FreshPairNamesTail(ps: seq<(string, string, string)>)
    requires ps != [] && FreshPairNames(ps)
    ensures FreshPairNames(ps[1..])
  {
    forall i, j | 0 <= i < |ps[1..]| && 0 <= j < |ps[1..]|
      ensures ps[1..][i].0 != ps[1..][j].1 && ps[1..][i].0 != ps[1..][j].2 && (i != j ==> ps[1..][i].0 != ps[1..][j].0)
    {
      assert ps[1..][i] == ps[i + 1] && ps[1..][j] == ps[j + 1];
    }
  }

  /** No later step of `ps` writes the table the first step writes. */
  lemma FreshPairNamesFirst(ps: seq<(string, string, string)>)
    requires ps != [] && FreshPairNames(ps)
    ensures forall i :: 0 <= i < |ps[1..]| ==> ps[1..][i].0 != ps[0].0
  {
    forall i | 0 <= i < |ps[1..]|
      ensures ps[1..][i].0 != ps[0].0
    {
      assert ps[1..][i] == ps[i + 1];
    }
  }

  /** A successful run finds both parts of the first step and goes on from the table it stores. */
  lemma AddPairsFirst(d: Dict, ps: seq<(string, string, string)>)
    requires ps != [] && AddPairs(d, ps).Ok?
    ensures Find(d, ps[0].1).Some? && Find(d, ps[0].2).Some?
    ensures AddPairs(d, ps) ==
              AddPairs(Put(d, ps[0].0, Concat(Find(d, ps[0].1).value, Find(d, ps[0].2).value)), ps[1..])
  {
  }

  /** A table no step of `ps` writes is left as it was. */
  lemma {:induction false} AddPairsKeeps(d: Dict, ps: seq<(string, string, string)>, k: string)
    requires forall i :: 0 <= i < |ps| ==> ps[i].0 != k
    requires AddPairs(d, ps).Ok?
    ensures Find(AddPairs(d, ps).value, k) == Find(d, k)
    decreases |ps|
  {
    if ps != [] {
      AddPairsFirst(d, ps);
      var p := ps[0];
      var a := Find(d, p.1).value;
      var b := Find(d, p.2).value;
      PutKeeps(d, p.0, Concat(a, b), k);
      assert forall i :: 0 <= i < |ps[1..]| ==> ps[1..][i] == ps[i + 1];
      AddPairsKeeps(Put(d, p.0, Concat(a, b)), ps[1..], k);
    }
  }

  /** Step `j` of `ps` finds both of its parts and stores their concatenation. */
  lemma {:induction false} AddPairsBuilds(d: Dict, ps: seq<(string, string, string)>, j: nat)
    requires FreshPairNames(ps)
    requires j < |ps|
    requires AddPairs(d, ps).Ok?
    ensures Find(d, ps[j].1).Some? && Find(d, ps[j].2).Some?
    ensures Find(AddPairs(d, ps).value, ps[j].0) == Some(Concat(Find(d, ps[j].1).value, Find(d, ps[j].2).value))
    decreases j
  {
    AddPairsFirst(d, ps);
    var p := ps[0];
    var a := Find(d, p.1).value;
    var b := Find(d, p.2).value;
    var d' := Put(d, p.0, Concat(a, b));
    if j == 0 {
      PutFind(d, p.0, Concat(a, b));
      FreshPairNamesFirst(ps);
      AddPairsKeeps(d', ps[1..], p.0);
    } else {
      FreshPairNamesTail(ps);
      assert ps[1..][j - 1] == ps[j];
      assert p.0 != ps[j].1 && p.0 != ps[j].2;
      PutKeeps(d, p.0, Concat(a, b), ps[j].1);
      PutKeeps(d, p.0, Concat(a, b), ps[j].2);
      AddPairsBuilds(d', ps[1..], j - 1);
    }
  }

  lemma FreshPAIRS()
    ensures FreshPairNames(PAIRS)
    ensures forall i :: 0 <= i < |PAIRS| ==> PAIRS[i].0 != "all_incentives" && PAIRS[i].0 != "all_regulations"
  {
    assert forall i :: 0 <= i < |PAIRS| ==> |PAIRS[i].0| >= 30;
    assert forall i :: 0 <= i < |PAIRS| ==> |PAIRS[i].1| < 30 && |PAIRS[i].2| < 30;
    assert forall i, j :: 0 <= i < j < |PAIRS| ==> |PAIRS[i].0| != |PAIRS[j].0|;
  }

  /** The two aggregates of a successful run, and the frame each combined table is built from. */
  lemma AddAggregatedSpec(d: Dict, j: nat)
    requires AddAggregated(d).Ok? && j < |PAIRS|
    ensures Aggregate(d, "incentives").Ok?
    ensures Find(AddAggregated(d).value, "all_incentives") == Some(Aggregate(d, "incentives").value)
    ensures Find(AddAggregated(d).value, "all_regulations") ==
              Some(Aggregate(Put(d, "all_incentives", Aggregate(d, "incentives").value), "regulations").value)
    ensures Find(AddAggregated(d).value, PAIRS[j].1).Some?
    ensures Find(AddAggregated(d).value, PAIRS[j].2).Some?
    ensures Find(AddAggregated(d).value, PAIRS[j].0) ==
              Some(Concat(Find(AddAggregated(d).value, PAIRS[j].1).value, Find(AddAggregated(d).value, PAIRS[j].2).value))
  {
    var ai := Aggregate(d, "incentives").value;
    var d1 := Put(d, "all_incentives", ai);
    var ar := Aggregate(d1, "regulations").value;
    var d2 := Put(d1, "all_regulations", ar);
    PutFind(d, "all_incentives", ai);
    PutKeeps(d1, "all_regulations", ar, "all_incentives");
    PutFind(d1, "all_regulations", ar);
    FreshPAIRS();
    AddPairsBuilds(d2, PAIRS, j);
    AddPairsKeeps(d2, PAIRS, "all_incentives");
    AddPairsKeeps(d2, PAIRS, "all_regulations");
    AddPairsKeeps(d2, PAIRS, PAIRS[j].1);
    AddPairsKeeps(d2, PAIRS, PAIRS[j].2);
  }

  /**
   * Each combined table is its incentives table followed by its regulations
   * table: the row counts add up and nothing is de-duplicated.
   */
  lemma CombinedTablesConcatenate(d: Dict, out: Dict, j: nat)
    requires AddAggregated(d) == Ok(out) && j < |PAIRS|
    ensures Find(out, PAIRS[j].0).Some? && Find(out, PAIRS[j].1).Some? && Find(out, PAIRS[j].2).Some?
    ensures RowsOf(Find(out, PAIRS[j].0).value) == RowsOf(Find(out, PAIRS[j].1).value) + RowsOf(Find(out, PAIRS[j].2).value)
    ensures |RowsOf(Find(out, PAIRS[j].0).value)| ==
              |RowsOf(Find(out, PAIRS[j].1).value)| + |RowsOf(Find(out, PAIRS[j].2).value)|
  {
    AddAggregatedSpec(d, j);
  }

  // =====================================================================
  // restructure_state_data (lines 156-221)
  // =====================================================================

  const FUELS: seq<string> := ["Biodiesel", "Ethanol", "Electricity", "Hydrogen", "Natural Gas", "Propane", "Renewable Diesel"]

  /** The per-type columns of the restructured table called `name` (lines 178-207). */
  function FuelColumns(name: string): seq<string>
  {
    if Contains(name, "emissions") then []
    else if Contains(name, "all") then FUELS + ["Emissions"]
    else FUELS
  }

  /** One output row: STUSPS, "all", then one count per type column. */
  datatype CountRow = CountRow(stusps: string, all: nat, fuelCounts: seq<nat>)

  /** The restructured frame; `columns` is empty for the empty `pd.DataFrame()`. */
  datatype CountTable = CountTable(columns: seq<string>, rows: seq<CountRow>)

  /** `data_df[data_df["STUSPS"] == state]`. */
  function StateRows(rows: seq<Row>, state: string): seq<Row>
  {
    if rows == [] then []
    else StateRows(rows[..|rows| - 1], state) + (if rows[|rows| - 1].stusps == state then [rows[|rows| - 1]] else [])
  }

  /** `len(df[df["Types"].str.contains(fuel)])`. */
  function CountFuel(rows: seq<Row>, fuel: string): nat
  {
    if rows == [] then 0
    else CountFuel(rows[..|rows| - 1], fuel) + (if Contains(rows[|rows| - 1].types, fuel) then 1 else 0)
  }

  /** The row lines 179 and 208-216 build for one state. */
  function CountRowFor(rows: seq<Row>, state: string, fuels: seq<string>): CountRow
  {
    var mine := StateRows(rows, state);
    CountRow(state, |mine|, seq(|fuels|, j requires 0 <= j < |fuels| => CountFuel(mine, fuels[j])))
  }

  function StatesOf(rows: seq<CountRow>): seq<string>
  {
    seq(|rows|, i requires 0 <= i < |rows| => rows[i].stusps)
  }

  function SumAll(rows: seq<CountRow>): nat
  {
    if rows == [] then 0 else SumAll(rows[..|rows| - 1]) + rows[|rows| - 1].all
  }

  /** Sum over `states` of the number of rows of each state. */
  function SumStateCounts(rows: seq<Row>, states: seq<string>): nat
  {
    if states == [] then 0
    else SumStateCounts(rows, states[..|states| - 1]) + |StateRows(rows, states[|states| - 1])|
  }

  /** How many entries of `states` equal `s`. */
  function Hits(s: string, states: seq<string>): nat
  {
    if states == [] then 0
    else Hits(s, states[..|states| - 1]) + (if states[|states| - 1] == s then 1 else 0)
  }

  lemma {:induction false} CountFuelAtMostRows(rows: seq<Row>, fuel: string)
    ensures CountFuel(rows, fuel) <= |rows|
    decreases |rows|
  {
    if rows != [] {
      CountFuelAtMostRows(rows[..|rows| - 1], fuel);
    }
  }

  lemma {:induction false} HitsOnce(s: string, states: seq<string>)
    requires s in states
    requires forall i, j :: 0 <= i < j < |states| ==> states[i] != states[j]
    ensures Hits(s, states) == 1
    decreases |states|
  {
    var init := states[..|states| - 1];
    if states[|states| - 1] == s {
      HitsNone(s, init);
    } else {
      assert s in init;
      HitsOnce(s, init);
    }
  }

  lemma {:induction false} HitsNone(s: string, states: seq<string>)
    requires s !in states
    ensures Hits(s, states) == 0
    decreases |states|
  {
    if states != [] {
      HitsNone(s, states[..|states| - 1]);
    }
  }

  lemma {:induction false} SumStateCountsSnoc(rows: seq<Row>, x: Row, states: seq<string>)
    ensures SumStateCounts(rows + [x], states) == SumStateCounts(rows, states) + Hits(x.stusps, states)
    decreases |states|
  {
    if states != [] {
      SumStateCountsSnoc(rows, x, states[..|states| - 1]);
      assert (rows + [x])[..|rows + [x]| - 1] == rows;
    }
  }

  /** When `states` lists every state once, the per-state counts add up to the row count. */
  lemma {:induction false} CountConservation(rows: seq<Row>, states: seq<string>)
    requires forall i, j :: 0 <= i < j < |states| ==> states[i] != states[j]
    requires forall r :: r in rows ==> r.stusps in states
    ensures SumStateCounts(rows, states) == |rows|
    decreases |rows|
  {
    if rows == [] {
      ZeroCounts(states);
    } else {
      var init := rows[..|rows| - 1];
      var x := rows[|rows| - 1];
      assert rows == init + [x];
      CountConservation(init, states);
      SumStateCountsSnoc(init, x, states);
      HitsOnce(x.stusps, states);
    }
  }

  lemma {:induction false} ZeroCounts(states: seq<string>)
    ensures SumStateCounts([], states) == 0
    decreases |states|
  {
    if states != [] {
      ZeroCounts(states[..|states| - 1]);
    }
  }

  lemma AscendingDistinct(states: seq<string>)
    requires Ascending(states)
    ensures forall i, j :: 0 <= i < j < |states| ==> states[i] != states[j]
  {
    forall i, j | 0 <= i < j < |states|
      ensures states[i] != states[j]
    {
      LessIrreflexive(states[i]);
    }
  }

  /** The distinct STUSPS values of a frame's rows. */
  function StatesIn(rows: seq<Row>): set<string>
  {
    set row | row in rows :: row.stusps
  }

  /** The "all" column adds up the per-state row counts. */
  lemma {:induction false} SumAllCountRows(rows: seq<Row>, states: seq<string>, fuels: seq<string>, out: seq<CountRow>)
    requires |out| == |states|
    requires forall k :: 0 <= k < |states| ==> out[k] == CountRowFor(rows, states[k], fuels)
    ensures SumAll(out) == SumStateCounts(rows, states)
    decreases |states|
  {
    if states != [] {
      var n := |states| - 1;
      SumAllCountRows(rows, states[..n], fuels, out[..n]);
    }
  }

  /**
   * Count rows built for every distinct state once, in ascending order:
   * their "all" column sums to the number of input rows and no type count
   * exceeds its row's "all".
   */
  lemma CountRowsFacts(rows: seq<Row>, states: seq<string>, fuels: seq<string>, out: seq<CountRow>)
    requires |out| == |states|
    requires forall k :: 0 <= k < |states| ==> out[k] == CountRowFor(rows, states[k], fuels)
    requires Ascending(states)
    requires forall s :: s in states <==> s in StatesIn(rows)
    ensures StatesOf(out) == states
    ensures forall k, j :: 0 <= k < |out| && 0 <= j < |out[k].fuelCounts| ==> out[k].fuelCounts[j] <= out[k].all
    ensures SumAll(out) == |rows|
  {
    AscendingDistinct(states);
    forall r | r in rows
      ensures r.stusps in states
    {
      assert r.stusps in StatesIn(rows);
    }
    CountConservation(rows, states);
    SumAllCountRows(rows, states, fuels, out);
    forall k, j | 0 <= k < |out| && 0 <= j < |out[k].fuelCounts|
      ensures out[k].fuelCounts[j] <= out[k].all
    {
      CountFuelAtMostRows(StateRows(rows, states[k]), fuels[j]);
    }
  }

  /** The loop of lines 174-219: one count row per state, in the order given. */
  method CountRows(rows: seq<Row>, states: seq<string>, fuels: seq<string>) returns (out: seq<CountRow>)
    ensures |out| == |states|
    ensures forall k :: 0 <= k < |states| ==> out[k] == CountRowFor(rows, states[k], fuels)
  {
    out := [];
    for i := 0 to |states|
      invariant |out| == i
      invariant forall k :: 0 <= k < i ==> out[k] == CountRowFor(rows, states[k], fuels)
    {
      var mine := StateRows(rows, states[i]);
      var counts := CountFuels(mine, fuels);
      out := out + [CountRow(states[i], |mine|, counts)];
    }
  }

  /** The inner loop of lines 213-216: how many of the rows mention each type, in column order. */
  method CountFuels(mine: seq<Row>, fuels: seq<string>) returns (counts: seq<nat>)
    ensures counts == seq(|fuels|, j requires 0 <= j < |fuels| => CountFuel(mine, fuels[j]))
  {
    counts := [];
    for j := 0 to |fuels|
      invariant |counts| == j
      invariant forall m :: 0 <= m < j ==> counts[m] == CountFuel(mine, fuels[m])
    {
      counts := counts + [CountFuel(mine, fuels[j])];
    }
  }

  /**
   * `t` is what restructure_state_data makes of a frame with rows `rows`
   * stored under `name`: one row per distinct STUSPS in ascending order,
   * each the count row of its state, so that no type count exceeds "all"
   * and the "all" column sums to the input length; the columns are STUSPS,
   * "all" and the type columns, or none when there are no rows.
   */
  ghost predicate Restructured(rows: seq<Row>, name: string, t: CountTable)
  {
    && Ascending(StatesOf(t.rows))
    && (forall s :: s in StatesOf(t.rows) <==> s in StatesIn(rows))
    && (forall k :: 0 <= k < |t.rows| ==> t.rows[k] == CountRowFor(rows, t.rows[k].stusps, FuelColumns(name)))
    && (forall k, j :: 0 <= k < |t.rows| && 0 <= j < |t.rows[k].fuelCounts| ==> t.rows[k].fuelCounts[j] <= t.rows[k].all)
    && SumAll(t.rows) == |rows|
    && t.columns == (if rows == [] then [] else ["STUSPS", "all"] + FuelColumns(name))
  }

  /**
   * restructure_state_data: one row per distinct STUSPS in ascending order,
   * "all" counting that state's rows (so the "all" column sums to the input
   * length), one count per type column bounded by "all"; the type columns
   * follow the table's name, and an input without rows yields a frame
   * without columns.
   */
  method RestructureStateData(f: Frame, name: string) returns (r: Result<CountTable, Error>)
    ensures f.NoColumns? ==> r == Err(KeyError("STUSPS"))
    ensures f.Table? ==> r.Ok?
    ensures r.Ok? ==> f.Table? && Restructured(f.rows, name, r.value)
  {
    if f.NoColumns? {
      return Err(KeyError("STUSPS"));
    }
    var rows := f.rows;
    var states := SortedList(StatesIn(rows));
    var fuels := FuelColumns(name);
    var out := CountRows(rows, states, fuels);
    CountRowsFacts(rows, states, fuels, out);
    if rows == [] {
      assert states == [];
    } else {
      assert rows[0].stusps in StatesIn(rows);
    }
    var columns := if states == [] then [] else ["STUSPS", "all"] + fuels;
    r := Ok(CountTable(columns, out));
  }

  // =====================================================================
  // merge_state_shapefile (lines 224-247)
  // =====================================================================

  /** A state boundary row after `filter(["STUSPS", "geometry"])`; geometry is opaque. */
  datatype Boundary = Boundary(stusps: string, geometry: nat)

  /** A row of the merged frame after `fillna(0)`. */
  datatype MergedRow = MergedRow(stusps: string, geometry: nat, all: nat, fuelCounts: seq<nat>)

  function Zeros(n: nat): (z: seq<nat>)
    ensures |z| == n && forall i :: 0 <= i < n ==> z[i] == 0
  {
    seq(n, i => 0)
  }

  /** Number of data columns besides STUSPS and "all". */
  function FuelWidth(t: CountTable): nat
  {
    if |t.columns| >= 2 then |t.columns| - 2 else 0
  }

  /** The data rows for one state, in data order. */
  function Matching(rows: seq<CountRow>, s: string): seq<CountRow>
  {
    if rows == [] then []
    else (if rows[0].stusps == s then [rows[0]] else []) + Matching(rows[1..], s)
  }

  /** The left-join output of one boundary row: one row per match, or one zero-filled row. */
  function JoinOne(b: Boundary, rows: seq<CountRow>, width: nat): seq<MergedRow>
  {
    var m := Matching(rows, b.stusps);
    if m == [] then [MergedRow(b.stusps, b.geometry, 0, Zeros(width))]
    else seq(|m|, i requires 0 <= i < |m| => MergedRow(b.stusps, b.geometry, m[i].all, m[i].fuelCounts))
  }

  function LeftJoin(bounds: seq<Boundary>, rows: seq<CountRow>, width: nat): seq<MergedRow>
  {
    if bounds == [] then [] else JoinOne(bounds[0], rows, width) + LeftJoin(bounds[1..], rows, width)
  }

  /** `shapefile.merge(data_df, on="STUSPS", how="left").fillna(0)`. */
  function MergeStateShapefile(bounds: seq<Boundary>, t: CountTable): Result<seq<MergedRow>, Error>
  {
    if "STUSPS" !in t.columns then Err(KeyError("STUSPS"))
    else Ok(LeftJoin(bounds, t.rows, FuelWidth(t)))
  }

  /** The first data row of a state. */
  function Lookup(rows: seq<CountRow>, s: string): Option<CountRow>
  {
    if rows == [] then None
    else if rows[0].stusps == s then Some(rows[0])
    else Lookup(rows[1..], s)
  }

  lemma {:induction false} MatchingUnique(rows: seq<CountRow>, s: string)
    requires forall i, j :: 0 <= i < j < |rows| ==> rows[i].stusps != rows[j].stusps
    ensures Lookup(rows, s).None? ==> Matching(rows, s) == []
    ensures Lookup(rows, s).Some? ==> Matching(rows, s) == [Lookup(rows, s).value]
    decreases |rows|
  {
    if rows != [] {
      MatchingUnique(rows[1..], s);
      if rows[0].stusps == s {
        MatchingNone(rows[1..], s);
      }
    }
  }

  lemma {:induction false} MatchingNone(rows: seq<CountRow>, s: string)
    requires forall i :: 0 <= i < |rows| ==> rows[i].stusps != s
    ensures Matching(rows, s) == []
    decreases |rows|
  {
    if rows != [] {
      MatchingNone(rows[1..], s);
    }
  }

  /** The left join never loses a boundary row. */
  lemma {:induction false} LeftJoinKeepsBoundaries(bounds: seq<Boundary>, rows: seq<CountRow>, width: nat)
    ensures |LeftJoin(bounds, rows, width)| >= |bounds|
    decreases |bounds|
  {
    if bounds != [] {
      LeftJoinKeepsBoundaries(bounds[1..], rows, width);
    }
  }

  /**
   * With one data row per state, the merge has exactly the boundary rows,
   * in order: a state with data carries its counts, any other state zeros.
   */
  lemma {:induction false} LeftJoinUnique(bounds: seq<Boundary>, rows: seq<CountRow>, width: nat)
    requires forall i, j :: 0 <= i < j < |rows| ==> rows[i].stusps != rows[j].stusps
    ensures |LeftJoin(bounds, rows, width)| == |bounds|
    ensures forall i :: 0 <= i < |bounds| ==>
              var m := LeftJoin(bounds, rows, width)[i];
              m.stusps == bounds[i].stusps && m.geometry == bounds[i].geometry &&
              match Lookup(rows, bounds[i].stusps)
              case Some(c) => m.all == c.all && m.fuelCounts == c.fuelCounts
              case None => m.all == 0 && m.fuelCounts == Zeros(width)
    decreases |bounds|
  {
    if bounds != [] {
      LeftJoinUnique(bounds[1..], rows, width);
      MatchingUnique(rows, bounds[0].stusps);
      var out := LeftJoin(bounds, rows, width);
      assert |JoinOne(bounds[0], rows, width)| == 1;
      forall i | 0 < i < |bounds|
        ensures out[i] == LeftJoin(bounds[1..], rows, width)[i - 1]
      {
      }
    }
  }

  /** Merging a restructured table keeps the boundary row count and fills missing states with 0. */
  lemma MergeRestructured(bounds: seq<Boundary>, t: CountTable)
    requires Ascending(StatesOf(t.rows))
    requires "STUSPS" in t.columns
    ensures MergeStateShapefile(bounds, t).Ok?
    ensures |MergeStateShapefile(bounds, t).value| == |bounds|
    ensures forall i :: 0 <= i < |bounds| ==>
              var m := MergeStateShapefile(bounds, t).value[i];
              m.stusps == bounds[i].stusps && m.geometry == bounds[i].geometry &&
              match Lookup(t.rows, bounds[i].stusps)
              case Some(c) => m.all == c.all && m.fuelCounts == c.fuelCounts
              case None => m.all == 0 && m.fuelCounts == Zeros(FuelWidth(t))
  {
    AscendingDistinct(StatesOf(t.rows));
    forall i, j | 0 <= i < j < |t.rows|
      ensures t.rows[i].stusps != t.rows[j].stusps
    {
      assert StatesOf(t.rows)[i] == t.rows[i].stusps && StatesOf(t.rows)[j] == t.rows[j].stusps;
    }
    LeftJoinUnique(bounds, t.rows, FuelWidth(t));
  }

  /** The first data row found for a state is a row of that state; when none is found, no row has it. */
  lemma {:induction false} LookupSpec(rows: seq<CountRow>, s: string)
    ensures Lookup(rows, s).Some? ==> Lookup(rows, s).value in rows && Lookup(rows, s).value.stusps == s
    ensures Lookup(rows, s).None? ==> s !in StatesOf(rows)
    decreases |rows|
  {
    if rows != [] && rows[0].stusps != s {
      LookupSpec(rows[1..], s);
      assert StatesOf(rows) == [rows[0].stusps] + StatesOf(rows[1..]);
    }
  }

  /** A state without rows in the frame counts 0 in "all" and in every type column. */
  lemma {:induction false} AbsentStateZero(rows: seq<Row>, s: string, fuels: seq<string>)
    requires s !in StatesIn(rows)
    ensures CountRowFor(rows, s, fuels) == CountRow(s, 0, Zeros(|fuels|))
  {
    StateRowsAbsent(rows, s);
  }

  lemma {:induction false} StateRowsAbsent(rows: seq<Row>, s: string)
    requires s !in StatesIn(rows)
    ensures StateRows(rows, s) == []
    decreases |rows|
  {
    if rows != [] {
      var n := |rows| - 1;
      assert rows[n] in rows;
      StateRowsAbsent(rows[..n], s);
    }
  }

  /**
   * What main saves for the table with rows `rows` stored under `name`: one
   * row per state boundary, in boundary order, carrying that state's count
   * row over the table.
   */
  function SavedRows(bounds: seq<Boundary>, rows: seq<Row>, name: string): seq<MergedRow>
  {
    seq(|bounds|, k requires 0 <= k < |bounds| =>
      var c := CountRowFor(rows, bounds[k].stusps, FuelColumns(name));
      MergedRow(bounds[k].stusps, bounds[k].geometry, c.all, c.fuelCounts))
  }

  /**
   * Restructuring a frame with rows and merging the result with the
   * boundaries gives, for each boundary, the count row of its state, and
   * zeros (the `fillna(0)`) for a state without rows.
   */
  lemma MergeIsSavedRows(bounds: seq<Boundary>, rows: seq<Row>, name: string, t: CountTable)
    requires Restructured(rows, name, t) && rows != []
    ensures MergeStateShapefile(bounds, t) == Ok(SavedRows(bounds, rows, name))
  {
    MergeRestructured(bounds, t);
    var m := MergeStateShapefile(bounds, t).value;
    var want := SavedRows(bounds, rows, name);
    assert FuelWidth(t) == |FuelColumns(name)|;
    forall k | 0 <= k < |bounds|
      ensures m[k] == want[k]
    {
      LookupCountRow(rows, name, t, bounds[k].stusps);
    }
    assert m == want;
  }

  /** The count row the merge finds for a state is that state's count row; a state it does not find has none. */
  lemma LookupCountRow(rows: seq<Row>, name: string, t: CountTable, st: string)
    requires Restructured(rows, name, t)
    ensures match Lookup(t.rows, st)
            case Some(c) => c == CountRowFor(rows, st, FuelColumns(name))
            case None => CountRowFor(rows, st, FuelColumns(name)) == CountRow(st, 0, Zeros(|FuelColumns(name)|))
  {
    LookupSpec(t.rows, st);
    match Lookup(t.rows, st)
    case Some(c) =>
      var idx :| 0 <= idx < |t.rows| && t.rows[idx] == c;
    case None =>
      AbsentStateZero(rows, st, FuelColumns(name));
  }

  // =====================================================================
  // main (lines 250-272), after the dict has been built
  // =====================================================================

  /** The loop at lines 261-262: every table restructured under its own name. */
  method RestructureAll(d: Dict) returns (r: Result<seq<CountTable>, Error>)
    ensures r.Ok? <==> forall i :: 0 <= i < |d| ==> d[i].1.Table?
    ensures r.Err? ==> r.error == KeyError("STUSPS")
    ensures r.Ok? ==> |r.value| == |d|
    ensures r.Ok? ==> forall i :: 0 <= i < |d| ==> Restructured(d[i].1.rows, d[i].0, r.value[i])
  {
    var tables: seq<CountTable> := [];
    for i := 0 to |d|
      invariant |tables| == i
      invariant forall j :: 0 <= j < i ==> d[j].1.Table? && Restructured(d[j].1.rows, d[j].0, tables[j])
    {
      var t := RestructureStateData(d[i].1, d[i].0);
      if t.Err? {
        return Err(t.error);
      }
      tables := tables + [t.value];
    }
    r := Ok(tables);
  }

  /**
   * The loop at lines 265-268: every restructured table merged with the
   * boundaries, each under its own key.
   */
  method MergeTables(names: seq<string>, tables: seq<CountTable>, bounds: seq<Boundary>)
    returns (r: Result<seq<(string, seq<MergedRow>)>, Error>)
    requires |names| == |tables|
    ensures r.Ok? <==> forall i :: 0 <= i < |tables| ==> "STUSPS" in tables[i].columns
    ensures r.Err? ==> r.error == KeyError("STUSPS")
    ensures r.Ok? ==> |r.value| == |tables|
    ensures r.Ok? ==> forall i :: 0 <= i < |tables| ==>
              r.value[i].0 == names[i] && r.value[i].1 == LeftJoin(bounds, tables[i].rows, FuelWidth(tables[i]))
  {
    var merged: seq<(string, seq<MergedRow>)> := [];
    for i := 0 to |tables|
      invariant |merged| == i
      invariant forall j :: 0 <= j < i ==> "STUSPS" in tables[j].columns
      invariant forall j :: 0 <= j < i ==>
                  merged[j].0 == names[j] && merged[j].1 == LeftJoin(bounds, tables[j].rows, FuelWidth(tables[j]))
    {
      var m := MergeStateShapefile(bounds, tables[i]);
      if m.Err? {
        return Err(m.error);
      }
      merged := merged + [(names[i], m.value)];
    }
    r := Ok(merged);
  }

  /**
   * Restructures every table of the dict, then merges each with the state
   * boundaries. The run fails exactly when some table is the empty frame or
   * has no rows; otherwise each table yields, under its own key, one row
   * per boundary, in boundary order, holding that state's count row over
   * the table (zeros for a state without rows).
   */
  method RestructureAndMerge(d: Dict, bounds: seq<Boundary>) returns (r: Result<seq<(string, seq<MergedRow>)>, Error>)
    ensures r.Ok? <==> forall i :: 0 <= i < |d| ==> d[i].1.Table? && d[i].1.rows != []
    ensures r.Err? ==> r.error == KeyError("STUSPS")
    ensures r.Ok? ==> |r.value| == |d|
    ensures r.Ok? ==> forall i :: 0 <= i < |d| ==>
              r.value[i].0 == d[i].0 && r.value[i].1 == SavedRows(bounds, d[i].1.rows, d[i].0)
  {
    var tables := RestructureAll(d);
    if tables.Err? {
      return Err(tables.error);
    }
    r := MergeTables(Names(d), tables.value, bounds);
    if r.Ok? {
      forall i | 0 <= i < |d|
        ensures r.value[i].1 == SavedRows(bounds, d[i].1.rows, d[i].0)
      {
        assert "STUSPS" in tables.value[i].columns;
        MergeIsSavedRows(bounds, d[i].1.rows, d[i].0, tables.value[i]);
      }
    }
  }
}
