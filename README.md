# Geo-TIDE state incentives and regulations: a Dafny model

This project models the data-processing scripts that keep the state-level
incentive and regulation tables of the Geo-TIDE backend, and proves
properties of them with Dafny.

- `state_support.dfy` (module `StateSupport`) covers
  `source/ProcessStateSupport.py`, one step at a time:
  - the CSV tables are read into an insertion-ordered dict keyed by file stem;
  - every table whose name mentions "incentives" (or "regulations") but not
    "emissions" is concatenated into one aggregate, de-duplicated on
    (STUSPS, Name) with the first occurrence kept;
  - the emissions rows are merged in: they either tag a matching row's Types
    with ", Emissions" or are appended with Types "Emissions";
  - the five `*_incentives_and_regulations` tables are built by concatenation;
  - every table is restructured into one count row per state, in sorted
    order, with per-fuel counts;
  - the counts are left-joined onto the state boundaries, with missing
    counts filled by 0.
- `expired_pruning.dfy` (module `ExpiredPruning`) covers
  `source/RemoveExpiredIncentivesRegulations.py`:
  - the heading classifier for `\b(Expired|Archived):`, case-insensitive;
  - the per-file drop, count, backup and rewrite, and the KeyError of a
    file without a Source column;
  - the total over the eight CSV files.
- `amount_pattern.dfy` (module `AmountPattern`) covers the monetary-amount
  pattern of `source/ScanIncentiveAmounts.py`.
  - The pattern is defined twice: declaratively, as the substrings either
    alternative can match, and as a greedy scanner.
  - The scanner is proved to return the leftmost match, and the longest one
    at that position. For this pattern that is the match Python's
    backtracking engine reports.
- `amount_scan.dfy` (module `AmountScan`) covers the rest of that script:
  - collecting the Source URLs, with the Electricity filter applied when a
    Types column exists;
  - the sorted per-URL result rows.
- `new_laws.dfy` (module `NewLaws`) covers
  `source/DetectNewIncentivesRegulations.py`:
  - the response-shape dispatch of `fetch_all_laws`;
  - the URL column, the cutoff filter, and the newest-first in-place sort;
  - the KEEP_COLS column selection.
- `strings.dfy` (module `Strings`) holds the parts of Python's `str` the
  scripts rely on:
  - `in`, `join`, `lower`;
  - code-point ordering and `sorted`;
  - the `re` classes `\s`, `\d`, `\w` and `\b`.
- `results.dfy` (module `Results`) holds `Option` and `Result`.

Some inputs are parameters of the model:
- files arrive already parsed, as rows;
- network responses arrive as page texts, heading texts or exception class
  names, one per request in request order;
- the date cutoff is a value.

Source errors are modelled as error values rather than excluded by
preconditions:
- a `KeyError` for a missing column or dict key;
- a `ValueError` or `TypeError` for an unexpected response shape.

Where the source as written does not run (`source/ScanIncentiveAmounts.py:44`
ends in a stray `l`, which is a syntax error), the model follows the
evident intent: the set update on that line.

## Model

| member | source | states |
|---|---|---|
| Strings.ContainsIffOccurs | source/ProcessStateSupport.py:76 | Python's `sub in s` holds exactly when `sub` occurs in `s` at some index |
| Strings.JoinSnoc | source/RemoveExpiredIncentivesRegulations.py:40-43 | `" ".join` of the headings is the join of all but the last, a space, then the last heading |
| Strings.LowerStrAppendIdempotent | source/RemoveExpiredIncentivesRegulations.py:45 | `lower()` of a concatenation is the concatenation of the lowered parts, and lowering twice changes nothing |
| Strings.LessTransitive | source/ProcessStateSupport.py:171 | Python's string order used by `sorted` is transitive |
| Strings.LessTotal | source/ProcessStateSupport.py:171 | any two different strings are ordered one way or the other |
| Strings.Least | source/ScanIncentiveAmounts.py:51 | the element chosen from a non-empty set is below every other element |
| Strings.SortedList | source/ScanIncentiveAmounts.py:51 | `sorted(set)` lists exactly the set's elements, strictly ascending, one each |
| StateSupport.Find | source/ProcessStateSupport.py:85 | a dict lookup fails exactly when the key is not among the dict's keys |
| StateSupport.Put | source/ProcessStateSupport.py:49 | assigning a new key appends it at the end; assigning an existing key keeps the key order |
| StateSupport.PutFind | source/ProcessStateSupport.py:124 | after `d[k] = v`, looking up `k` gives `v` |
| StateSupport.PutKeeps | source/ProcessStateSupport.py:124 | after `d[k] = v`, every other key maps to what it did before |
| StateSupport.PutUnique | source/ProcessStateSupport.py:49 | assignment never creates a duplicate key |
| StateSupport.PutNames | source/ProcessStateSupport.py:49 | after assignment the key is present and no earlier key is lost |
| StateSupport.LastIndexSpec | source/ProcessStateSupport.py:47 | the index found holds the separator and no later index does |
| StateSupport.CsvTableName | source/ProcessStateSupport.py:47 | the file `<dir>/<stem>.csv` is stored under the key `<stem>` |
| StateSupport.ReadStateData | source/ProcessStateSupport.py:15-51 | keys are unique; every file's stem is a key; with distinct stems the dict lists the files in glob order with their rows |
| StateSupport.DedupFromSpec | source/ProcessStateSupport.py:82 | de-duplication from a set of seen keys leaves unique keys; it keeps exactly the unseen keys, each through its first row |
| StateSupport.DropDuplicatesSpec | source/ProcessStateSupport.py:82 | `drop_duplicates(subset=["STUSPS","Name"])` keeps one row per key, the first one, and loses no key |
| StateSupport.DedupAppend | source/ProcessStateSupport.py:82 | de-duplicating a concatenation de-duplicates the second part against the keys of the first |
| StateSupport.DedupNoop | source/ProcessStateSupport.py:82 | rows with unique, unseen keys are left as they are |
| StateSupport.DropDuplicatesAbsorbs | source/ProcessStateSupport.py:77-82 | de-duplicating after each concatenation gives the same rows as one de-duplication at the end |
| StateSupport.CollectIsDedupOfJoined | source/ProcessStateSupport.py:72-82 | the aggregate is the de-duplicated concatenation of every table whose key contains the support word and not "emissions"; with none it stays the empty frame |
| StateSupport.CollectErrorPersists | source/ProcessStateSupport.py:74-82 | once the loop raises, later tables do not change the outcome |
| StateSupport.CollectUnique | source/ProcessStateSupport.py:82 | after the non-emissions pass no two aggregate rows share (STUSPS, Name) |
| StateSupport.CountKeyZero | source/ProcessStateSupport.py:92-95 | no aggregate row matches an emissions row exactly when its key is absent |
| StateSupport.UniqueCountAtMostOne | source/ProcessStateSupport.py:98-122 | with unique keys at most one row matches, so the "appears more than once" branch cannot be reached |
| StateSupport.CountKeyOne | source/ProcessStateSupport.py:98 | a single match identifies one row index holding the key |
| StateSupport.MergeEmissionMatched | source/ProcessStateSupport.py:98-110 | with one match, ", Emissions" is appended to that row's Types and every other row is unchanged |
| StateSupport.MergeEmissionUnmatched | source/ProcessStateSupport.py:113-117 | with no match, the emissions row is appended at the end with Types "Emissions" |
| StateSupport.MergeEmissionKeepsUnique | source/ProcessStateSupport.py:88-117 | merging one emissions row keeps keys unique and adds exactly its key |
| StateSupport.MergeAllKeepsUnique | source/ProcessStateSupport.py:88-122 | merging all emissions rows keeps (STUSPS, Name) unique |
| StateSupport.AggregateUnique | source/ProcessStateSupport.py:70-124 | the finished `all_<support>` table has unique (STUSPS, Name) keys |
| StateSupport.AggregateSupport | source/ProcessStateSupport.py:70-124 | one pass of the support loop computes the aggregate, raises KeyError for a missing emissions table, and leaves unique keys |
| StateSupport.AddAggregatedData | source/ProcessStateSupport.py:54-153 | the whole of `add_aggregated_data`, including its KeyError outcomes, agrees with its specification |
| StateSupport.AddCombinedTables | source/ProcessStateSupport.py:127-151 | the five combined-table statements, run in order, give the specified result, stopping with KeyError on the first missing part |
| StateSupport.AddPairsKeeps | source/ProcessStateSupport.py:127-151 | building the combined tables leaves every other key's table untouched |
| StateSupport.AddPairsBuilds | source/ProcessStateSupport.py:127-151 | each combined table is the concatenation of its two parts as they were before |
| StateSupport.FreshPAIRS | source/ProcessStateSupport.py:127-151 | the five combined names are distinct, never a part of another pair, and never an aggregate name |
| StateSupport.AddAggregatedSpec | source/ProcessStateSupport.py:69-151 | `all_incentives` is the incentives aggregate; `all_regulations` is computed after it is stored; each combined table concatenates its final parts |
| StateSupport.CombinedTablesConcatenate | source/ProcessStateSupport.py:127-151 | each `*_incentives_and_regulations` table is the incentives rows followed by the regulations rows, with the lengths adding up and no de-duplication |
| StateSupport.CountFuelAtMostRows | source/ProcessStateSupport.py:213-216 | a per-fuel count never exceeds the number of rows it counts in |
| StateSupport.HitsOnce | source/ProcessStateSupport.py:174-175 | a present state is selected by exactly one of the distinct states |
| StateSupport.HitsNone | source/ProcessStateSupport.py:174-175 | an absent state is selected by none |
| StateSupport.SumStateCountsSnoc | source/ProcessStateSupport.py:174-179 | adding a row adds one to the per-state total exactly when its state is listed |
| StateSupport.CountConservation | source/ProcessStateSupport.py:171-179 | over distinct states covering every row, the per-state counts add up to the number of rows |
| StateSupport.ZeroCounts | source/ProcessStateSupport.py:174-179 | an empty table counts nothing for any state |
| StateSupport.AscendingDistinct | source/ProcessStateSupport.py:171 | a strictly ascending state list has no repeats |
| StateSupport.SumAllCountRows | source/ProcessStateSupport.py:174-211 | the "all" column sums to the per-state totals |
| StateSupport.CountRowsFacts | source/ProcessStateSupport.py:171-219 | restructured rows follow the sorted states; each fuel count is at most "all"; the "all" values sum to the input length |
| StateSupport.RestructureStateData | source/ProcessStateSupport.py:156-221 | one row per distinct STUSPS in ascending order, each equal to that state's counts; fuel counts ≤ "all"; "all" sums to the input length; the column set depends on the name ("emissions": none, "all": with Emissions); a frame without columns raises KeyError |
| StateSupport.CountRows | source/ProcessStateSupport.py:174-219 | the loop over the sorted states yields, for each state in turn, exactly that state's count row |
| StateSupport.CountFuels | source/ProcessStateSupport.py:213-216 | the inner loop records, for each type column in order, how many of the state's rows mention that type |
| StateSupport.MatchingUnique | source/ProcessStateSupport.py:242 | with unique STUSPS a boundary matches at most one data row, the one found by lookup |
| StateSupport.MatchingNone | source/ProcessStateSupport.py:242 | a boundary with no data row matches nothing |
| StateSupport.LeftJoinKeepsBoundaries | source/ProcessStateSupport.py:242 | a left merge never has fewer rows than the boundaries |
| StateSupport.LeftJoinUnique | source/ProcessStateSupport.py:242-245 | with unique STUSPS the merge keeps every boundary, in order, with its own counts or zeros |
| StateSupport.MergeRestructured | source/ProcessStateSupport.py:238-247 | merging a restructured table keeps the boundary count and order; a state with data carries its counts and a state without data gets 0 |
| StateSupport.LookupSpec | source/ProcessStateSupport.py:242 | the data row the merge finds for a state belongs to that state; finding none means no row has it |
| StateSupport.AbsentStateZero | source/ProcessStateSupport.py:245 | a state with no rows in the table counts 0 in "all" and in every type column, the values `fillna(0)` supplies |
| StateSupport.LookupCountRow | source/ProcessStateSupport.py:171-245 | the count row the merge finds for a state is that state's count row over the original table; a state not found has the all-zero count row |
| StateSupport.MergeIsSavedRows | source/ProcessStateSupport.py:171-247 | restructuring a table with rows and merging it gives, for every boundary in order, that state's count row over the table, zeros for a state without rows |
| StateSupport.RestructureAll | source/ProcessStateSupport.py:261-262 | restructuring every table succeeds exactly when none lacks columns; the i-th result is the restructured i-th table: its states ascending and complete, each row that state's counts under the table's own name |
| StateSupport.MergeTables | source/ProcessStateSupport.py:265-268 | merging succeeds exactly when every restructured table has a STUSPS column; each merged frame keeps its key and is the left join of the boundaries with that table |
| StateSupport.RestructureAndMerge | source/ProcessStateSupport.py:261-268 | the main loops succeed exactly when every table has rows; the frame saved under each key has one row per boundary, in order, holding that state's "all" and per-type counts over the table, 0 for states without rows |
| ExpiredPruning.StaleIffText | source/RemoveExpiredIncentivesRegulations.py:65 | the status string is "expired" or "archived" exactly for the stale statuses |
| ExpiredPruning.SearchFrom | source/RemoveExpiredIncentivesRegulations.py:44 | the search finds the leftmost case-insensitive match of "Expired:" or "Archived:" at a word boundary, or reports that there is none |
| ExpiredPruning.Classify | source/RemoveExpiredIncentivesRegulations.py:35-47 | a failure gives check_manual; "active" exactly when the joined h2 text has no match; otherwise the word of the leftmost match |
| ExpiredPruning.FailureIsNeverStale | source/RemoveExpiredIncentivesRegulations.py:46-47 | a failed fetch is "check_manual (<class>)" and is never dropped |
| ExpiredPruning.ArchivedUpperCase | source/RemoveExpiredIncentivesRegulations.py:31 | the match ignores case: "ARCHIVED:" classifies as archived |
| ExpiredPruning.NoBoundaryNoMatch | source/RemoveExpiredIncentivesRegulations.py:31 | `\b` is required: "NotExpired:" is active |
| ExpiredPruning.SurvivorsCount | source/RemoveExpiredIncentivesRegulations.py:65-89 | rows kept plus rows removed equals the original length |
| ExpiredPruning.NoStaleKeepsAll | source/RemoveExpiredIncentivesRegulations.py:69-71 | with nothing stale every row survives |
| ExpiredPruning.SurvivorsAppend | source/RemoveExpiredIncentivesRegulations.py:77-79 | filtering distributes over concatenation, so survivors keep their relative order |
| ExpiredPruning.SurvivorsMembers | source/RemoveExpiredIncentivesRegulations.py:65-78 | a row survives exactly when its status is neither expired nor archived |
| ExpiredPruning.SurvivorsSound | source/RemoveExpiredIncentivesRegulations.py:65-78 | every row written back is a row whose status is neither expired nor archived |
| ExpiredPruning.SurvivorsComplete | source/RemoveExpiredIncentivesRegulations.py:65-78 | every row whose status is neither expired nor archived is written back |
| ExpiredPruning.ProcessFile | source/RemoveExpiredIncentivesRegulations.py:50-89 | a missing file gives 0 and no write; a file without Source raises KeyError before any request; otherwise every Source is checked and the count removed is the stale count; backup and rewrite happen together, exactly when something is removed, and the rewrite holds the survivors |
| ExpiredPruning.MarkStale | source/RemoveExpiredIncentivesRegulations.py:60-66 | every row's Source is requested in file order; an index is collected exactly when that row's status is expired or archived, in increasing order, one per stale row |
| ExpiredPruning.StaleIndicesSpec | source/RemoveExpiredIncentivesRegulations.py:61-66 | the indices collected are one per stale row, exactly the stale rows' indices, in range and increasing |
| ExpiredPruning.Drop | source/RemoveExpiredIncentivesRegulations.py:77-79 | `df.drop` of the collected indices, which are exactly the stale rows' indices, leaves exactly the survivors, in order |
| ExpiredPruning.FilesDistinct | source/RemoveExpiredIncentivesRegulations.py:14-23 | the eight file names are distinct |
| ExpiredPruning.CleanFiles | source/RemoveExpiredIncentivesRegulations.py:92-97 | files are processed in order; the run stops with KeyError at the first file without Source, otherwise the total is the sum of the per-file counts; processed files hold their survivors and the others are untouched |
| ExpiredPruning.CleanOne | source/RemoveExpiredIncentivesRegulations.py:94-96 | one file is processed: it raises KeyError without Source and changes nothing; otherwise its removed count is its stale count, it ends up holding its survivors, and no other file changes |
| ExpiredPruning.CleanAll | source/RemoveExpiredIncentivesRegulations.py:92-97 | `main` over the fixed eight files: it completes exactly when none lacks Source, and the total removed is then the sum of their counts |
| AmountPattern.RunEnd | source/ScanIncentiveAmounts.py:21 | a greedy repetition stops at the first character outside its class |
| AmountPattern.RunMaximal | source/ScanIncentiveAmounts.py:21 | any shorter run stops before a character of the class |
| AmountPattern.FractionEnd | source/ScanIncentiveAmounts.py:21 | the greedy `(?:\.\d+)?` takes a well-formed fraction or nothing |
| AmountPattern.FractionMaximal | source/ScanIncentiveAmounts.py:23 | a shorter fraction stops before a digit or a '.' |
| AmountPattern.GroupsEnd | source/ScanIncentiveAmounts.py:23 | the greedy `(?:,\d{3})*` takes whole groups until no group follows |
| AmountPattern.GroupsMaximal | source/ScanIncentiveAmounts.py:23 | fewer groups stop before a ',' |
| AmountPattern.ScanDollarSound | source/ScanIncentiveAmounts.py:21 | the scanner's dollar match fits the dollar alternative |
| AmountPattern.DollarHead | source/ScanIncentiveAmounts.py:21 | the white space after '$' is always taken whole, and the digit run stops early only before another digit or comma |
| AmountPattern.DollarTailLongest | source/ScanIncentiveAmounts.py:21 | no fraction, white space and suffix after the digits reach further than the greedy ones |
| AmountPattern.DollarTailEmpty | source/ScanIncentiveAmounts.py:21 | when a digit or comma follows, the fraction, white space and suffix must all be empty |
| AmountPattern.ScanDollarLongest | source/ScanIncentiveAmounts.py:21 | every dollar match at a position is found, and none is longer than the scanner's |
| AmountPattern.ScanPercentSound | source/ScanIncentiveAmounts.py:23 | the scanner's percent match fits the percent alternative |
| AmountPattern.PercentTailUnique | source/ScanIncentiveAmounts.py:23 | a percent match's fraction and white space are the greedy ones and end at the '%'; the group list cannot stop before a digit or comma |
| AmountPattern.ScanPercentUnique | source/ScanIncentiveAmounts.py:23 | a percent match at a position is unique and is the scanner's, so backtracking finds nothing else |
| AmountPattern.MatchAtSpec | source/ScanIncentiveAmounts.py:19-26 | at a position, a match is found exactly when either alternative matches, and it is the longest |
| AmountPattern.FirstHitSpec | source/ScanIncentiveAmounts.py:61 | trying the start positions in order stops at the first one that matches, and gives up only when none does |
| AmountPattern.SearchFirst | source/ScanIncentiveAmounts.py:61 | `Search` returns the first start where the scanner succeeds, and nothing when it succeeds nowhere |
| AmountPattern.SearchLeftmostLongest | source/ScanIncentiveAmounts.py:61 | `amount_re.search` gives the leftmost match (longest there), and nothing when the pattern matches nowhere |
| AmountPattern.MatchShape | source/ScanIncentiveAmounts.py:19-26 | every match is non-empty and starts with '$' or ends with '%' |
| AmountPattern.FirstMatch | source/ScanIncentiveAmounts.py:67 | `m.group(0)` is non-empty and starts with '$' or ends with '%' |
| AmountPattern.CommasAloneMatch | source/ScanIncentiveAmounts.py:21 | "$ ,," is a match, all of it |
| AmountPattern.FourDigitsNoPercent | source/ScanIncentiveAmounts.py:23 | "1234%" contains no match |
| AmountPattern.SuffixAfterSpace | source/ScanIncentiveAmounts.py:21 | in "Up to $5 k." the first match is "$5 k" |
| AmountScan.GatherUrls | source/ScanIncentiveAmounts.py:29-44 | the URL set is the duplicate-free union of the non-missing Sources of the selected files, keeping only Electricity rows where Types exists; a file without Source raises ValueError |
| AmountScan.ResultForSpec | source/ScanIncentiveAmounts.py:61-78 | "yes" exactly when the pattern matches the page text, with first_match the leftmost match; "no" and "" otherwise; a failure gives "error (<class>)" and "" |
| AmountScan.ScanUrls | source/ScanIncentiveAmounts.py:50-81 | exactly one row per URL, in strictly ascending URL order, each the row for that URL's fetch |
| AmountScan.ScanIncentiveAmounts | source/ScanIncentiveAmounts.py:29-81 | the script's rows cover exactly the discovered URLs, in sorted order, or it stops with the read error |
| NewLaws.Get | source/DetectNewIncentivesRegulations.py:34-36 | `dict.get` finds a value exactly when some member has the key |
| NewLaws.LawsOfAcceptedShapes | source/DetectNewIncentivesRegulations.py:32-37 | a list, a "result" list and a "result" object with "laws" each give back the records inside |
| NewLaws.ResultListWins | source/DetectNewIncentivesRegulations.py:34-36 | the "result" list branch is tried before the "laws" branch |
| NewLaws.LawsOfRejects | source/DetectNewIncentivesRegulations.py:38-39 | a response that is neither a list nor an object with "result" raises ValueError |
| NewLaws.UrlRoundTrip | source/DetectNewIncentivesRegulations.py:53 | the id can be recovered from afdc_url, which starts with the AFDC laws prefix |
| NewLaws.WithUrls | source/DetectNewIncentivesRegulations.py:53 | every row keeps its record and gets a URL that starts with the AFDC laws prefix and continues with its own id |
| NewLaws.RecentCounts | source/DetectNewIncentivesRegulations.py:57 | the filter keeps every row enacted on or after the cutoff, as often as it occurs, and nothing else (NaT never passes) |
| NewLaws.SortNewestFirst | source/DetectNewIncentivesRegulations.py:63 | the in-place sort leaves the rows newest first and is a permutation |
| NewLaws.InsertNewest | source/DetectNewIncentivesRegulations.py:63 | one insertion step extends the newest-first prefix by one row and is a permutation |
| NewLaws.SelectSpec | source/DetectNewIncentivesRegulations.py:65 | the written columns are exactly the KEEP_COLS present, all of KEEP_COLS when all are present |
| NewLaws.SelectAppend | source/DetectNewIncentivesRegulations.py:65 | the selection keeps KEEP_COLS order: selecting from two stretches of KEEP_COLS gives the first's selection followed by the second's |
| NewLaws.SelectSingle | source/DetectNewIncentivesRegulations.py:65 | a single column is kept exactly when present, so with `SelectAppend` the written list is KEEP_COLS filtered in order |
| NewLaws.UrlColumnWritten | source/DetectNewIncentivesRegulations.py:21-22 | afdc_url is always among the written columns |
| NewLaws.DetectNewLaws | source/DetectNewIncentivesRegulations.py:43-70 | KeyError without id or enacted_date; no file when nothing is recent; otherwise the recent rows, newest first, with the KEEP_COLS present, and a failing preview when a KEEP_COLS column is absent |
| NewLaws.SavedRowsAreRecent | source/DetectNewIncentivesRegulations.py:53-57 | saved rows are recent catalogue rows with their own URL, and every recent catalogue row is saved |

## Left out

- HTTP requests, BeautifulSoup extraction, `time.sleep` and timeouts: pages arrive as given page text, h2 texts or exception class names.
- CSV, shapefile and JSON reading and writing: tables arrive as rows. Also out are `glob`, directory creation, `shutil.copy2` and the timestamped backup name. `ProcessFile` only reports that a backup is made.
- `state_names_to_abbr`, `saveShapefile` and `get_top_dir` from CommonTools are not part of this model. Rows arrive with STUSPS already abbreviated.
- source/SimplifyGeojsons.py: its work is floating-point geometry, clustering and projection in library calls.
- Console output, progress lines and the `sys.exit` message formatting.
- Date parsing (`pd.to_datetime` with `errors="coerce"`, `tz_localize`) and the two-year `relativedelta`: dates are day numbers or NaT, and the cutoff is an input.
- `pd.DataFrame(laws)` after the dispatch: `DetectNewLaws` takes the parsed table, and an id is the text `f"{i}"` gives.
- SortNewestFirst: does not fix the order of rows with equal dates, because the source's default sort is not stable either.
- pandas NaN cases in keys and Types (`Name`, `STUSPS`, Types in `str.contains`): keys and Types are assumed present in `StateSupport`.
- `str.contains(fuel)` is a regular-expression search. It is modelled as a substring test because the fuel names hold no metacharacters.
- `\w`, `\d` and `re.I` case folding are ASCII only. `\s` is exactly Python's `str.isspace` set.
- The geometry column is an opaque value; dtype changes caused by `fillna` and `concat` are not modelled.
- ReadStateData: the paths are given, not globbed. The glob of line 36 lists one directory, so its `.csv` names, and hence their stems, are always distinct; that is the `DistinctTableNames` case of the contract, which gives the dict in glob order. For other inputs the contract states only that every stem is a key.
- The "appears more than once" message at source/ProcessStateSupport.py:119-122 prints only; the model keeps the rows unchanged there, and `UniqueCountAtMostOne` shows the branch cannot be reached.
- AmountScan: the CSV-header probe on line 38 is modelled as the `hasTypes` and `hasSource` flags of the parsed file.
