# xlog_analyzer statistics core in Dafny

`xlog_analyzer.py` reads the text that `pg_xlogdump` prints for PostgreSQL write-ahead-log
segments and derives statistics from it. This project models the part that computes them:

- the `xlog_stats` record (`init_xlog_stats`);
- the line-by-line parse that fills it (`parse_xlogdump_output`):
  - ten literal searches;
  - the relation/page pattern with its nested relation table;
  - the backup-block bitmap;
  - the derived `n_other` and the two averages;
- the ranking of relations by number of distinct pages (`print_top_n_relations`);
- the summary that `main` accumulates over several segments.

Modules, one per file:

- `Text` (text.dfy): `str.split("\n")` with its inverse `Join`, literal search and character counting.
- `LineClassifier` (classifier.dfy): the ten search literals and the two anchored patterns.
  - `pattern.match(line, re.M|re.I)` passes the flags value 10 as the start position, so both
    patterns are matched from offset 10.
  - The greedy leading `.*` binds the last viable start offset, and each `[0-9]*` takes a
    maximal digit run.
  - `PageMatch` and `BkpMatch` compute these bindings. Lemmas relate them to every possible
    match.
- `Statistics` (statistics.dfy): the record as a value and the specification of every step.
  - The record is the datatype `Stats`, with the nested `relations` dict as a map of maps.
  - `Ingest` covers one line, `IngestAll` the loop, and `Finish` the code after it.
  - `Parse` is the state `parse_xlogdump_output` leaves, and `ParseFails` says it raises
    ZeroDivisionError.
  - `Merge` folds one segment into the summary.
  - `Consistent` states the invariant the parse keeps between the counters and the table. For
    example, `n_page` is the sum of all occurrence counts.
- `Accumulator` (accumulator.dfy): the dict as an object updated in place.
  - Class `XlogStats` holds the dict's entries in one field `entries` of type `Stats`. Every
    `xlog_stats[key] += …` is a reassignment of that field with one entry changed.
  - Its methods run the loops of the source (over lines, over backup digits) and are proved to
    leave exactly the record the `Statistics` functions specify.
- `Ranking` (ranking.dfy): the stable descending sort by `len(pages)` and the loop that prints
  the top entries. This holds for any enumeration order of the dict.
- `Rollup` (rollup.dfy): the summary loop of `main` as a method over the segments' dump outputs.
  - It is specified by `MergeAll` and `Summary`.
  - Lemmas cover when the summary exists, the sums it holds, and how `dict.update` merges the
    tables.

## Model

| member | source | states |
|---|---|---|
| Text.Split | xlog_analyzer.py:230 | `output.split("\n")` yields one piece more than the output has newlines |
| Text.SplitPieces | xlog_analyzer.py:230 | no piece of the split contains a newline |
| Text.JoinSplit | xlog_analyzer.py:230 | joining the pieces with newlines gives the output back, so no character is lost or added |
| Text.SplitJoin | xlog_analyzer.py:230 | splitting newline-free pieces joined by newlines gives the same pieces back |
| Text.TrailingNewline | xlog_analyzer.py:230 | an output ending in a newline yields an empty last piece, which the loop still counts |
| Text.ContainsIff | xlog_analyzer.py:232-251 | a literal `search` succeeds exactly when the literal occurs at some offset of the line |
| LineClassifier.DigitRunEnd | xlog_analyzer.py:226 | a greedy `[0-9]*` ends where the run of digits ends: all digits before it, none right after |
| LineClassifier.RelPathAt | xlog_analyzer.py:226 | definition of reading `rel [0-9]*/[0-9]*/([0-9]*)` at an offset; specified by RelPathAtSpec |
| LineClassifier.RelPathAtSpec | xlog_analyzer.py:226 | `rel [0-9]*/[0-9]*/` is read at an offset exactly when `rel `, a digit run, a slash, a digit run and a slash follow there. The slashes are unique, and group 1 is a maximal digit run after the second slash |
| LineClassifier.LastOccurrence | xlog_analyzer.py:226 | the greedy `.*tid\ ` binds the last `tid ` in range, and no later one exists |
| LineClassifier.PageMatch | xlog_analyzer.py:253 | definition of the binding `re_page.match(line, 10)` makes; specified by PageMatchSpec |
| LineClassifier.PageMatchBelow | xlog_analyzer.py:226 | definition of the backtracking search below a bound; specified by PageMatchBelowGreatest |
| LineClassifier.PageMatchSpec | xlog_analyzer.py:253 | `re_page.match(line, 10)` succeeds exactly when some `rel`/`tid` pair matches from offset 10. It binds the greatest `rel` offset and, for it, the greatest `tid` offset |
| LineClassifier.PageMatchBelowGreatest | xlog_analyzer.py:226 | the backtracking search below any bound returns the greatest match below it, or None when there is none |
| LineClassifier.StepAt | xlog_analyzer.py:226 | one backtracking step: either no match starts at the offset and the search continues below, or it stops there with the greatest `tid` |
| LineClassifier.ExtractPage | xlog_analyzer.py:253-260 | definition of `group(1)` and `group(2)` of the page match; specified by ExtractPageSpec |
| LineClassifier.Groups | xlog_analyzer.py:259-260 | definition of the two groups of a match; specified by GroupsSpec |
| LineClassifier.GroupsSpec | xlog_analyzer.py:259-260 | `group(1)` is the maximal digit run after the second slash of the bound `rel` token; `group(2)` is the maximal digit run after the bound `tid ` |
| LineClassifier.ExtractPageSpec | xlog_analyzer.py:253-260 | the relation and page are extracted exactly when the page pattern matches anywhere from offset 10, and they are the groups of the greatest match |
| LineClassifier.BkpMatch | xlog_analyzer.py:275 | `re_bkp.match(line, 10)` binds the greatest offset holding `bkp: ` and four digits, or fails when there is none |
| LineClassifier.ExtractBkp | xlog_analyzer.py:275-282 | definition of the four groups of the backup match; specified by ExtractBkpSpec |
| LineClassifier.ExtractBkpSpec | xlog_analyzer.py:228 | the four groups exist exactly when `bkp: ` and four digits occur from offset 10; they are four digits that follow `bkp: ` in the line |
| Statistics.Classify | xlog_analyzer.py:232-251 | definition: the searches whose literal occurs in the line; what each contributes to its counter is stated by TallyCounters |
| Statistics.Init | xlog_analyzer.py:107-139 | definition: every counter 0 and an empty relation table; its invariant is InitConsistent |
| Statistics.AddReference | xlog_analyzer.py:265-273 | definition of the nested table update; specified by AddReferenceOccurrences |
| Statistics.Record | xlog_analyzer.py:262-273 | definition of the `if rel_match:` body; specified by RecordConsistent and EnterCounters |
| Statistics.Tally | xlog_analyzer.py:231-251 | definition of the ten conditional increments; specified by TallyCounters |
| Statistics.Enter | xlog_analyzer.py:258-273 | definition of the `if rel_match:` block; specified by EnterConsistent and EnterCounters |
| Statistics.AddBackups | xlog_analyzer.py:280-283 | definition of the `if bkp_match:` block; specified by BackupCounters |
| Statistics.Backups | xlog_analyzer.py:275-283 | definition: the `'1'` digits among the four backup groups of a line, 0 without a match |
| Statistics.BackupTotal | xlog_analyzer.py:230-283 | definition: the backup blocks of all lines |
| Statistics.Ingest | xlog_analyzer.py:231-283 | definition of one loop iteration; specified by IngestCounters and IngestConsistent |
| Statistics.IngestAll | xlog_analyzer.py:230-283 | definition of the loop over the lines; specified by IngestAllCounters and IngestAllConsistent |
| Statistics.Finish | xlog_analyzer.py:285-297 | definition of the code after the loop, up to the raise; specified by FinishEffect |
| Statistics.FinishFails | xlog_analyzer.py:293-297 | definition: the second division is reached with no transaction record |
| Statistics.Parse | xlog_analyzer.py:197-299 | definition of the state `parse_xlogdump_output` leaves; specified by ParseCounts, ParseConsistent and OtherFormula |
| Statistics.ParseFails | xlog_analyzer.py:197-299 | definition: the parse raises; characterised by ParseFailsExactly |
| Statistics.Merge | xlog_analyzer.py:445-449 | definition of the per-entry merge; specified by MergeTable, MergeBalanced and MergeAllScalars |
| Statistics.Reweight | xlog_analyzer.py:457-458 | definition of the division of both averages; used by Summary and DivideAverages |
| Statistics.InitConsistent | xlog_analyzer.py:116-139 | fresh stats (all counters 0, empty table) satisfy the table invariant |
| Statistics.AddReferenceOccurrences | xlog_analyzer.py:265-273 | a reference adds one to its own (relation, page) count and changes no other count |
| Statistics.AddReferenceTotal | xlog_analyzer.py:262-273 | a reference adds one to the total of all page counts, matching `n_relation += 1` and `n_page += 1` |
| Statistics.AddReferenceDistinct | xlog_analyzer.py:269-271 | the number of (relation, page) keys grows by one exactly when the page was new under its relation |
| Statistics.AddReferenceRelations | xlog_analyzer.py:265-267 | the number of relations grows by one exactly when the relation was new |
| Statistics.AddReferencePositive | xlog_analyzer.py:265-273 | after a reference every relation holds a page and every page count is positive |
| Statistics.RecordConsistent | xlog_analyzer.py:258-273 | the `if rel_match:` block keeps the counters in agreement with the table |
| Statistics.EnterConsistent | xlog_analyzer.py:258-273 | the same, whether or not the line matched |
| Statistics.TableUntouched | xlog_analyzer.py:231-251 | the ten searches and the backup block leave the table and its four counters unchanged |
| Statistics.IngestConsistent | xlog_analyzer.py:230-283 | one loop iteration keeps the table invariant |
| Statistics.IngestAllConsistent | xlog_analyzer.py:230-283 | the whole loop keeps the table invariant |
| Statistics.ParseConsistent | xlog_analyzer.py:197-299 | after `parse_xlogdump_output`, `n_relation` and `n_page` equal the sum of the table's counts. `n_distinct_relation` and `n_distinct_page` equal the number of relations and of (relation, page) keys |
| Statistics.ParseFreshConsistent | xlog_analyzer.py:209-299 | the same for a parse into `init_xlog_stats()` |
| Statistics.EmptyTable | xlog_analyzer.py:293 | with consistent counters, no relation was seen exactly when no page was referenced |
| Statistics.KindsCounted | xlog_analyzer.py:231-239 | `count` gains one and each record-kind counter gains one exactly when its literal occurs; nothing else changes |
| Statistics.OperationsCounted | xlog_analyzer.py:240-251 | each operation counter gains one exactly when its literal occurs; nothing else changes |
| Statistics.TallyCounters | xlog_analyzer.py:231-251 | all ten searches together: `count` gains one, and each of the ten counters gains one exactly when its own literal occurs in the line, independently of the other searches; the table is untouched |
| Statistics.EnterCounters | xlog_analyzer.py:253-263 | `n_relation` and `n_page` gain one exactly when the page pattern matches somewhere; the other fields change only in the table part |
| Statistics.BackupCounters | xlog_analyzer.py:275-283 | the backup block adds to `n_bkp` exactly the number of `'1'` digits among the four groups (`Backups`): 0 to 4, and 0 when the pattern does not match; nothing else changes |
| Statistics.IngestCounters | xlog_analyzer.py:230-283 | what one line adds to each counter: one to `count`, one to each counter whose literal occurs, one to `n_relation` and `n_page` exactly when the page pattern matches, and its backup blocks to `n_bkp`; the derived fields are untouched |
| Statistics.IngestAllCounters | xlog_analyzer.py:230-283 | after the loop: `count` grows by the number of lines, each search counter by the number of lines containing its literal, `n_relation` and `n_page` by the number of lines the page pattern matches, and `n_bkp` by the backup blocks of all lines (`BackupTotal`), at most 4 per line |
| Statistics.FinishEffect | xlog_analyzer.py:285-297 | `n_other` becomes `count` minus the four kinds. With a relation seen, the averages become floor quotients (the second only with a transaction record); otherwise they are kept. Nothing else changes |
| Statistics.FinishKeepsTable | xlog_analyzer.py:285-297 | the code after the loop changes neither `count` nor the table and its counters |
| Statistics.ParseCounts | xlog_analyzer.py:230-231 | a parse adds the number of newlines plus one to `count` |
| Statistics.ParseBalanced | xlog_analyzer.py:285-290 | after a parse, `n_other` equals `count` minus the four record-kind counters |
| Statistics.OtherFormula | xlog_analyzer.py:285-290 | after a parse, `n_other` is the record count minus the lines matching each of the four (overlapping) kind searches |
| Statistics.OtherCanBeNegative | xlog_analyzer.py:285-290 | a line with ` Heap `, ` Heap2` and ` Btree` but no ` Transaction` lowers `n_other` by two, so it goes negative for fresh stats |
| Statistics.IngestAllFails | xlog_analyzer.py:293-297 | from stats with no reference and no transaction, the second division raises exactly when some line matches the page pattern and none contains ` Transaction` |
| Statistics.ParseFailsExactly | xlog_analyzer.py:293-297 | `parse_xlogdump_output` raises ZeroDivisionError exactly when the output has a page reference and no transaction record |
| Statistics.MergeIntoFresh | xlog_analyzer.py:444-449 | folding a segment into `init_xlog_stats()` gives the segment back |
| Statistics.MergeTable | xlog_analyzer.py:446-447 | `dict.update`: the merged table has the relations of both; a relation of the segment takes the segment's page map, and the others keep theirs |
| Statistics.MergeBalanced | xlog_analyzer.py:444-449 | adding balanced records keeps `n_other` balanced |
| Statistics.MergeOvercounts | xlog_analyzer.py:444-449 | when two segments share a relation, the summed `n_distinct_relation` exceeds the merged table's size, and the first segment's page counts for it are lost |
| Accumulator.XlogStats.constructor | xlog_analyzer.py:107-139 | the new object holds `init_xlog_stats()` |
| Accumulator.XlogStats.IngestLine | xlog_analyzer.py:231-283 | one iteration of the loop leaves the record `Ingest` specifies |
| Accumulator.XlogStats.CountSearches | xlog_analyzer.py:231-251 | the ten conditional increments leave the record `Tally` specifies |
| Accumulator.XlogStats.CountKindSearches | xlog_analyzer.py:231-239 | `count` and the four kind increments leave the record `CountKinds` specifies |
| Accumulator.XlogStats.CountOperationSearches | xlog_analyzer.py:240-251 | the six operation increments leave the record `CountOperations` specifies |
| Accumulator.XlogStats.EnterReference | xlog_analyzer.py:258-273 | the in-place table update leaves the record `Enter` specifies |
| Accumulator.XlogStats.AddBackupBlocks | xlog_analyzer.py:280-283 | the loop over the four groups adds the number of `'1'` digits to `n_bkp` |
| Accumulator.XlogStats.ParseOutput | xlog_analyzer.py:197-299 | the object ends as `Parse` says, and the status is ZeroDivisionError exactly when `ParseFails` |
| Accumulator.XlogStats.FinishTotals | xlog_analyzer.py:285-297 | the closing step leaves the record `Finish` specifies and raises exactly when `FinishFails` |
| Accumulator.XlogStats.FinishTotalsGuarded | xlog_analyzer.py:292-297 | with the second division guarded by `n_transaction`, the closing step always completes and leaves the record `Finish` specifies, whose averages FinishEffect gives as floor quotients |
| Accumulator.XlogStats.Accumulate | xlog_analyzer.py:445-449 | the loop over the entries leaves `Merge` of the old record and the segment |
| Accumulator.XlogStats.DivideAverages | xlog_analyzer.py:455-458 | with no segment the first division raises and nothing changes; otherwise both averages are floor-divided by the segment count |
| Ranking.Key | xlog_analyzer.py:382 | definition of the sort key `len(x[1])` |
| Ranking.Insert | xlog_analyzer.py:381-382 | definition of one insertion step of the stable sort; specified by InsertPermutes and InsertSorted |
| Ranking.SortByPages | xlog_analyzer.py:381-382 | definition of `sorted(relations.items(), key=len, reverse=True)`; specified by SortRanks, SortPermutes and RankedEnumerates |
| Ranking.Limit | xlog_analyzer.py:389-391 | definition of how many entries the `i > n` loop lets through; TopN meets it and LimitOneTooMany exhibits it |
| Ranking.InsertPermutes | xlog_analyzer.py:381-382 | inserting one entry adds exactly that entry |
| Ranking.InsertSorted | xlog_analyzer.py:381-382 | inserting into a ranked list keeps it ranked by descending page count |
| Ranking.SortRanks | xlog_analyzer.py:381-382 | `sorted(…, key=len(pages), reverse=True)` is ordered by descending number of pages |
| Ranking.SortPermutes | xlog_analyzer.py:381-382 | the sorted list is a permutation of the items |
| Ranking.RankedEnumerates | xlog_analyzer.py:381-382 | every sorted entry is a relation of the table with its own pages, every relation appears, and none appears twice |
| Ranking.TopN | xlog_analyzer.py:389-391 | the loop prints `Limit(n, len)` entries, which are the first entries of the ranking with their page counts |
| Ranking.LimitOneTooMany | xlog_analyzer.py:389-391 | asked for n < len relations, the loop prints n + 1 |
| Ranking.TopNCorrected | xlog_analyzer.py:389-391 | with `i >= n` the loop prints min(n, len) entries, the first of the ranking |
| Ranking.TopRelations | xlog_analyzer.py:381-391 | the printed relations are distinct relations of the table with their page counts, in descending order, and no relation left out has more pages than one printed |
| Ranking.RankRelations | xlog_analyzer.py:381-391 | sorting and the loop end to end: `Limit(n, len)` distinct relations of the table with their page counts, ranked, none left out with more pages |
| Rollup.Summarize | xlog_analyzer.py:430-458 | the summary loop of `main` with objects yields `Summary` of the segments' parses: each segment either raises, ending the program without a summary, or is folded into the overall record |
| Rollup.Parsed | xlog_analyzer.py:439 | definition: one segment's parse into fresh stats, or None when it raises; characterised by RaisedSegments and ParsedCount |
| Rollup.ParseEach | xlog_analyzer.py:435-439 | definition: the parse result of every segment, in order |
| Rollup.MergeAll | xlog_analyzer.py:435-449 | definition of the segment loop's overall record; specified by MergeAllFails, MergeAllScalars, MergeAllKeys and MergeAllLastWins |
| Rollup.Summary | xlog_analyzer.py:444-458 | definition of the printed summary; specified by SummaryFails, SummaryScalars and SummaryBalanced |
| Rollup.FailurePersists | xlog_analyzer.py:439 | once a segment's parse has raised, no summary is produced |
| Rollup.MergeAllFails | xlog_analyzer.py:435-449 | the segment loop gets through exactly when no segment raised |
| Rollup.RaisedSegments | xlog_analyzer.py:439 | a segment's result is None exactly when its parse raises |
| Rollup.SummaryFails | xlog_analyzer.py:435-458 | a summary is printed exactly when there is at least one segment and no parse raises |
| Rollup.MergeAllScalars | xlog_analyzer.py:444-449 | every scalar entry of the overall record is the sum of that entry over the segments that parsed, since each merge adds the segment's entry |
| Rollup.SummaryScalars | xlog_analyzer.py:444-458 | in the summary every non-average entry is the sum over segments. Each average is the sum of the segments' averages, floor-divided by the segment count |
| Rollup.ParsedCount | xlog_analyzer.py:439 | a segment that parses counts one record per line of its output |
| Rollup.CountTotal | xlog_analyzer.py:444-449 | when no parse raises, the overall `count` before the averages are fixed is the total number of lines over all outputs |
| Rollup.MergeAllBalanced | xlog_analyzer.py:444-449 | the overall record keeps `n_other` balanced when every segment does |
| Rollup.SummaryBalanced | xlog_analyzer.py:444-458 | the printed summary's `n_other` balances its record kinds against its `count` |
| Rollup.MergeAllKeys | xlog_analyzer.py:446-447 | the overall table holds exactly the relations that some segment holds |
| Rollup.MergeAllLastWins | xlog_analyzer.py:446-447 | a relation's page map in the overall table is the one of the last segment that holds it |

## Left out

- Command line handling (`setup_argparse`, `check_arguments`) and running `pg_xlogdump` (`read_xlog_file`, a subprocess) are left out. The dump output is a parameter.
- The database connection and relation-name resolution through psycopg2 are left out. They are a foreign call and do not change what is ranked.
- All printing is left out: `print_xlog_stats`, and the heading and per-relation lines of `print_top_n_relations`. `TopN` returns the (relfilenode, page count) pairs the loop would print.
- Python's regular-expression engine is not modelled in general. Only the ten literals and the two anchored patterns the parser uses are modelled, together with the match position they are called with.
- Rollup.Summarize: the summary is modelled for the list of segment outputs. A missing segment list (where `len(None)` raises TypeError) is treated as the empty list, which also gives no summary.
- Accumulator.XlogStats: the record is held by value. The source shares inner page dicts between the overall and the segment tables after `dict.update`, and it works through the local alias `relations`. The model does not capture this aliasing, and no later statement of the source mutates a shared dict.
- Accumulator.XlogStats.Accumulate: the entries are added in a fixed order, whereas the source iterates the dict in its own order. Every entry is updated independently, so the result is the same.
- Ranking.SortByPages: the sort is stable, like Python's `sorted`, but only ranking and permutation are proved, not stability. The order of `relations.items()` is unspecified, so every ranking property is stated for any enumeration of the table.
- Statistics.Stats: the counters are unbounded integers, as Python's are. `/` on them is floor division, which for the non-negative operands here agrees with Dafny's.

## Findings

| source | as written | input that shows it | evidently intended | confidence | as-written member | corrected member |
|---|---|---|---|---|---|---|
| xlog_analyzer.py:389-391 | `if i > n: break` lets the entries at indices 0 to n through | a table with three relations and n = 1 prints two relations | `if i >= n: break`, printing the n relations the docstring promises | not executed | Ranking.LimitOneTooMany | Ranking.TopNCorrected |
| xlog_analyzer.py:293-297 | `n_page / n_transaction` is guarded only by `n_distinct_relation` | an output whose only line is ten spaces followed by `rel 1/2/3 tid 4` references a page but has no ` Transaction` record, so the parse raises ZeroDivisionError | guard the second division by `n_transaction` as the first is guarded by `n_distinct_relation` | not executed | Statistics.ParseFailsExactly | Accumulator.XlogStats.FinishTotalsGuarded |

The rest of the model follows the code as written, because it describes what the program
computes. The corrected members are proved on their own terms:

- `TopNCorrected` prints min(n, len) entries.
- `FinishTotalsGuarded` always completes. It leaves the same record as the source's closing
  step, whose last write comes before the division that raises.
