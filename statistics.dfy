/**
 * The statistics record of one xlog segment (the `xlog_stats` dict) as a value, and the
 * specification of everything `parse_xlogdump_output` and the summary in `main` do to it.
 * The class in accumulator.dfy performs these steps in place and is proved against the
 * functions here.
 */
module Statistics {
  import opened Text
  import opened LineClassifier

  /** Occurrence count per page id, for one relation. */
  type Pages = map<string, nat>
  /** The nested `relations` dict: relation id (relfilenode) to its pages. */
  type Relations = map<string, Pages>

  /** The 19 counters and the relation table of `init_xlog_stats`. */
  datatype Stats = Stats(
    count: nat,
    nHeap: nat,
    nHeap2: nat,
    nBtree: nat,
    nTransaction: nat,
    nOther: int,
    nRelation: nat,
    nPage: nat,
    nDistinctRelation: nat,
    nDistinctPage: nat,
    nBkp: nat,
    nAvgPagePerRelation: nat,
    nAvgPagePerTransaction: nat,
    nInsert: nat,
    nUpdate: nat,
    nHotUpdate: nat,
    nDelete: nat,
    nCommit: nat,
    nAbort: nat,
    relations: Relations)

  /** Whether a computation ran to its end or raised ZeroDivisionError. */
  datatype Status = Completed | ZeroDivisionError

  /** `init_xlog_stats()`: every counter zero, no relations. */
  function Init(): Stats {
    Stats(0, 0, 0, 0, 0, 0, 0, 0, 0, 0, 0, 0, 0, 0, 0, 0, 0, 0, 0, map[])
  }

  function Bit(b: bool): nat {
    if b then 1 else 0
  }

  /** `relations[relation][page]`, read as 0 where the table has no such entry. */
  function Occurrences(rels: Relations, relation: string, page: string): nat {
    if relation in rels && page in rels[relation] then rels[relation][page] else 0
  }

  /** `relations[relation][page] += 1`, creating the inner dict and the entry when missing. */
  function AddReference(rels: Relations, relation: string, page: string): Relations {
    var pages: Pages := if relation in rels then rels[relation] else map[];
    rels[relation := pages[page := Occurrences(rels, relation, page) + 1]]
  }

  /** `page` is already a key under `relation`. */
  predicate Seen(rels: Relations, relation: string, page: string) {
    relation in rels && page in rels[relation]
  }

  /** The `if rel_match:` branch: one more reference to `page` of `relation`. */
  function Record(s: Stats, relation: string, page: string): Stats {
    s.(nRelation := s.nRelation + 1,
       nPage := s.nPage + 1,
       nDistinctRelation := s.nDistinctRelation + Bit(relation !in s.relations),
       nDistinctPage := s.nDistinctPage + Bit(!Seen(s.relations, relation, page)),
       relations := AddReference(s.relations, relation, page))
  }

  /** The ten literal searches: four record kinds and six operations. */
  datatype Search =
    | HeapSearch | Heap2Search | BtreeSearch | TransactionSearch
    | InsertSearch | UpdateSearch | HotUpdateSearch | DeleteSearch | CommitSearch | AbortSearch

  const AllSearches: set<Search> := {
    HeapSearch, Heap2Search, BtreeSearch, TransactionSearch,
    InsertSearch, UpdateSearch, HotUpdateSearch, DeleteSearch, CommitSearch, AbortSearch}

  /** The literal each search looks for. */
  function Pattern(k: Search): string {
    match k
    case HeapSearch => HEAP
    case Heap2Search => HEAP2
    case BtreeSearch => BTREE
    case TransactionSearch => TRANSACTION
    case InsertSearch => INSERT
    case UpdateSearch => UPDATE
    case HotUpdateSearch => HOT_UPDATE
    case DeleteSearch => DELETE
    case CommitSearch => COMMIT
    case AbortSearch => ABORT
  }

  /** The searches that succeed on `line`, each decided independently of the others. */
  function Classify(line: string): (hits: set<Search>)
    ensures forall k :: k in hits <==> Contains(line, Pattern(k))
  {
    set k | k in AllSearches && Contains(line, Pattern(k))
  }

  /** `count` gains one, and each pattern counter gains one when its search succeeded. */
  function Tally(s: Stats, hits: set<Search>): Stats {
    CountOperations(CountKinds(s, hits), hits)
  }

  /** The record count and the four record-kind counters that n_other is derived from. */
  function CountKinds(s: Stats, hits: set<Search>): Stats {
    s.(count := s.count + 1,
       nHeap := s.nHeap + Bit(HeapSearch in hits),
       nHeap2 := s.nHeap2 + Bit(Heap2Search in hits),
       nBtree := s.nBtree + Bit(BtreeSearch in hits),
       nTransaction := s.nTransaction + Bit(TransactionSearch in hits))
  }

  /** The six operation counters. */
  function CountOperations(s: Stats, hits: set<Search>): Stats {
    s.(nInsert := s.nInsert + Bit(InsertSearch in hits),
       nUpdate := s.nUpdate + Bit(UpdateSearch in hits),
       nHotUpdate := s.nHotUpdate + Bit(HotUpdateSearch in hits),
       nDelete := s.nDelete + Bit(DeleteSearch in hits),
       nCommit := s.nCommit + Bit(CommitSearch in hits),
       nAbort := s.nAbort + Bit(AbortSearch in hits))
  }

  /** The `if rel_match:` block: a match records its (relation, page) reference. */
  function Enter(s: Stats, relMatch: Option<PageRef>): Stats {
    match relMatch
    case Some(ref) => Record(s, ref.relation, ref.page)
    case None => s
  }

  /** The `if bkp_match:` block: each of the four captured digits that is '1' is one backup block. */
  function AddBackups(s: Stats, bkpMatch: Option<string>): Stats {
    match bkpMatch
    case Some(digits) => s.(nBkp := s.nBkp + CountChar(digits, '1'))
    case None => s
  }

  /** One iteration of the loop over the lines of the dump output. */
  function Ingest(s: Stats, line: string): Stats
    requires '\n' !in line
  {
    AddBackups(Enter(Tally(s, Classify(line)), ExtractPage(line)), ExtractBkp(line))
  }

  predicate NoNewlines(lines: seq<string>) {
    forall k :: 0 <= k < |lines| ==> '\n' !in lines[k]
  }

  /** The loop over all lines, from the record it was handed. */
  function IngestAll(s: Stats, lines: seq<string>): Stats
    requires NoNewlines(lines)
    decreases |lines|
  {
    if lines == [] then s
    else Ingest(IngestAll(s, lines[..|lines| - 1]), lines[|lines| - 1])
  }

  /**
   * The code after the loop: n_other is derived, and when some relation was seen the two
   * averages are recomputed. The second division is not guarded; when there is no
   * transaction record it raises (FinishFails) after n_other and the first average were written.
   */
  function Finish(s: Stats): Stats {
    var derived := s.(nOther := s.count - (s.nHeap + s.nHeap2 + s.nBtree + s.nTransaction));
    if s.nDistinctRelation == 0 then derived
    else
      var perRelation := derived.(nAvgPagePerRelation := s.nDistinctPage / s.nDistinctRelation);
      if s.nTransaction == 0 then perRelation
      else perRelation.(nAvgPagePerTransaction := s.nPage / s.nTransaction)
  }

  /** `n_page / n_transaction` is reached with a zero divisor. */
  predicate FinishFails(s: Stats) {
    s.nDistinctRelation != 0 && s.nTransaction == 0
  }

  /** `parse_xlogdump_output(output, xlog_stats)`: the state it leaves (also when it raises). */
  function Parse(s: Stats, output: string): Stats {
    SplitPieces(output);
    Finish(IngestAll(s, Split(output)))
  }

  /** `parse_xlogdump_output` raises ZeroDivisionError. */
  predicate ParseFails(s: Stats, output: string) {
    SplitPieces(output);
    FinishFails(IngestAll(s, Split(output)))
  }

  /**
   * One segment folded into the summary by the loop `for entry in xlog_stats` in `main`:
   * every scalar entry is added, including n_other and the two averages, while the
   * `relations` dict is merged with `dict.update`, so a relation present in `seg` replaces
   * the overall page map instead of adding to it.
   */
  function Merge(overall: Stats, seg: Stats): Stats {
    Stats(
      overall.count + seg.count,
      overall.nHeap + seg.nHeap,
      overall.nHeap2 + seg.nHeap2,
      overall.nBtree + seg.nBtree,
      overall.nTransaction + seg.nTransaction,
      overall.nOther + seg.nOther,
      overall.nRelation + seg.nRelation,
      overall.nPage + seg.nPage,
      overall.nDistinctRelation + seg.nDistinctRelation,
      overall.nDistinctPage + seg.nDistinctPage,
      overall.nBkp + seg.nBkp,
      overall.nAvgPagePerRelation + seg.nAvgPagePerRelation,
      overall.nAvgPagePerTransaction + seg.nAvgPagePerTransaction,
      overall.nInsert + seg.nInsert,
      overall.nUpdate + seg.nUpdate,
      overall.nHotUpdate + seg.nHotUpdate,
      overall.nDelete + seg.nDelete,
      overall.nCommit + seg.nCommit,
      overall.nAbort + seg.nAbort,
      overall.relations + seg.relations)
  }

  /** `overall[avg] /= len(xlog_segment)` for both averages, with at least one segment. */
  function Reweight(s: Stats, segments: nat): Stats
    requires segments > 0
  {
    s.(nAvgPagePerRelation := s.nAvgPagePerRelation / segments,
       nAvgPagePerTransaction := s.nAvgPagePerTransaction / segments)
  }

  // ---------------------------------------------------------------------------------------
  // Sums over the relation table

  /** Some key of a non-empty map. */
  ghost function Pick<K>(m: map<K, nat>): (k: K)
    requires |m| != 0
    ensures k in m
  {
    var k :| k in m; k
  }

  /** Sum of the values of a map. */
  ghost function Sum<K>(m: map<K, nat>): nat
    decreases |m|
  {
    if |m| == 0 then 0
    else
      var k := Pick(m);
      assert (m - {k}).Keys == m.Keys - {k};
      m[k] + Sum(m - {k})
  }

  /** The sum does not depend on which key is taken out first. */
  lemma {:induction false} SumRemove<K>(m: map<K, nat>, k: K)
    requires k in m
    ensures Sum(m) == m[k] + Sum(m - {k})
    decreases |m|
  {
    assert |m| != 0;
    var j := Pick(m);
    if j != k {
      var mj, mk := m - {j}, m - {k};
      assert mj.Keys == m.Keys - {j};
      assert mk.Keys == m.Keys - {k};
      assert k in mj && j in mk;
      SumRemove(mj, k);
      SumRemove(mk, j);
      assert mj - {k} == mk - {j};
    }
  }

  /** Setting one entry changes the sum by the difference between the new and the old value. */
  lemma SumUpdate<K>(m: map<K, nat>, k: K, v: nat)
    ensures Sum(m[k := v]) + (if k in m then m[k] else 0) == Sum(m) + v
  {
    var m' := m[k := v];
    SumRemove(m', k);
    assert Sum(m') == v + Sum(m' - {k});
    if k in m {
      SumRemove(m, k);
      assert m' - {k} == m - {k};
    } else {
      assert m' - {k} == m;
    }
  }

  /** The (relation, page) keys of the table. */
  ghost function Keys2(rels: Relations): set<(string, string)> {
    set r, p | r in rels && p in rels[r] :: (r, p)
  }

  /** The table flattened to one map from (relation, page) to its occurrence count. */
  ghost function Flat(rels: Relations): (m: map<(string, string), nat>)
    ensures m.Keys == Keys2(rels)
  {
    map k | k in Keys2(rels) :: rels[k.0][k.1]
  }

  /** Total of all occurrence counts in the table. */
  ghost function TotalPages(rels: Relations): nat {
    Sum(Flat(rels))
  }

  /** Number of (relation, page) keys in the table. */
  ghost function DistinctPages(rels: Relations): nat {
    |Keys2(rels)|
  }

  /** Every relation of the table holds a page, and every count is positive. */
  ghost predicate Positive(rels: Relations) {
    && (forall r :: r in rels ==> |rels[r]| > 0)
    && (forall r, p :: r in rels && p in rels[r] ==> rels[r][p] > 0)
  }

  /**
   * What fresh stats keep while lines are parsed: the counters agree with the table.
   * n_relation and n_page equal the sum of all occurrence counts, n_distinct_relation the
   * number of relations, n_distinct_page the number of (relation, page) keys; every relation
   * holds at least one page and every count is positive.
   */
  ghost predicate Consistent(s: Stats) {
    && s.nRelation == s.nPage == TotalPages(s.relations)
    && s.nDistinctRelation == |s.relations|
    && s.nDistinctPage == DistinctPages(s.relations)
    && Positive(s.relations)
  }

  // ---------------------------------------------------------------------------------------
  // Lemmas

  lemma InitConsistent()
    ensures var s := Init(); Consistent(s)
  {
  }

  /** One reference adds exactly one to its own (relation, page) entry and changes no other. */
  lemma AddReferenceOccurrences(rels: Relations, relation: string, page: string, r: string, p: string)
    ensures Occurrences(AddReference(rels, relation, page), r, p)
         == Occurrences(rels, r, p) + Bit(r == relation && p == page)
    ensures AddReference(rels, relation, page).Keys == rels.Keys + {relation}
    ensures Seen(AddReference(rels, relation, page), r, p) <==> Seen(rels, r, p) || (r == relation && p == page)
  {
  }

  /** A reference adds its (relation, page) key to the table's keys. */
  lemma AddReferenceKeys(rels: Relations, relation: string, page: string)
    ensures Keys2(AddReference(rels, relation, page)) == Keys2(rels) + {(relation, page)}
  {
    var rels' := AddReference(rels, relation, page);
    forall k | k in Keys2(rels') ensures k in Keys2(rels) + {(relation, page)} {
      assert k.0 in rels' && k.1 in rels'[k.0];
    }
    forall k | k in Keys2(rels) + {(relation, page)} ensures k in Keys2(rels') {
      assert k.0 in rels' && k.1 in rels'[k.0];
    }
  }

  /** In the flattened table, a reference sets its own entry to one more than before. */
  lemma AddReferenceFlat(rels: Relations, relation: string, page: string)
    ensures Flat(AddReference(rels, relation, page))
         == Flat(rels)[(relation, page) := Occurrences(rels, relation, page) + 1]
  {
    var rels' := AddReference(rels, relation, page);
    var updated := Flat(rels)[(relation, page) := Occurrences(rels, relation, page) + 1];
    AddReferenceKeys(rels, relation, page);
    forall k | k in Keys2(rels')
      ensures Flat(rels')[k] == updated[k]
    {
      AddReferenceOccurrences(rels, relation, page, k.0, k.1);
    }
  }

  /** A reference adds one to the total of all occurrence counts. */
  lemma AddReferenceTotal(rels: Relations, relation: string, page: string)
    ensures TotalPages(AddReference(rels, relation, page)) == TotalPages(rels) + 1
  {
    AddReferenceFlat(rels, relation, page);
    var flat := Flat(rels);
    SumUpdate(flat, (relation, page), Occurrences(rels, relation, page) + 1);
  }

  /** A reference adds a (relation, page) key exactly when the page was not seen under the relation. */
  lemma AddReferenceDistinct(rels: Relations, relation: string, page: string)
    ensures DistinctPages(AddReference(rels, relation, page)) == DistinctPages(rels) + Bit(!Seen(rels, relation, page))
  {
    AddReferenceKeys(rels, relation, page);
    var keys := Keys2(rels);
    if Seen(rels, relation, page) {
      assert (relation, page) in keys;
      assert keys + {(relation, page)} == keys;
    } else {
      assert (relation, page) !in keys;
    }
  }

  /** A reference adds a relation exactly when the relation was not in the table. */
  lemma AddReferenceRelations(rels: Relations, relation: string, page: string)
    ensures |AddReference(rels, relation, page)| == |rels| + Bit(relation !in rels)
  {
    var rels' := AddReference(rels, relation, page);
    assert rels'.Keys == rels.Keys + {relation};
    if relation in rels {
      assert rels'.Keys == rels.Keys;
    }
  }

  /** A reference keeps every relation non-empty and every count positive. */
  lemma AddReferencePositive(rels: Relations, relation: string, page: string)
    requires Positive(rels)
    ensures Positive(AddReference(rels, relation, page))
  {
    var rels' := AddReference(rels, relation, page);
    forall r | r in rels' ensures |rels'[r]| > 0 {
      if r == relation {
        assert page in rels'[r];
      }
    }
    forall r, p | r in rels' && p in rels'[r] ensures rels'[r][p] > 0 {
      AddReferenceOccurrences(rels, relation, page, r, p);
    }
  }

  /** A reference keeps the counters in agreement with the table. */
  lemma RecordConsistent(s: Stats, relation: string, page: string)
    requires Consistent(s)
    ensures Consistent(Record(s, relation, page))
  {
    AddReferenceTotal(s.relations, relation, page);
    AddReferenceDistinct(s.relations, relation, page);
    AddReferenceRelations(s.relations, relation, page);
    AddReferencePositive(s.relations, relation, page);
  }

  /** The counters Consistent relates, and the table, are the same in both records. */
  predicate SameTable(a: Stats, b: Stats) {
    && a.nRelation == b.nRelation && a.nPage == b.nPage
    && a.nDistinctRelation == b.nDistinctRelation && a.nDistinctPage == b.nDistinctPage
    && a.relations == b.relations
  }

  lemma SameTableConsistent(a: Stats, b: Stats)
    requires SameTable(a, b) && Consistent(a)
    ensures Consistent(b)
  {
  }

  /** Entering a reference, or none, keeps the counters in agreement with the table. */
  lemma EnterConsistent(s: Stats, relMatch: Option<PageRef>)
    requires Consistent(s)
    ensures Consistent(Enter(s, relMatch))
  {
    if relMatch.Some? {
      RecordConsistent(s, relMatch.value.relation, relMatch.value.page);
    }
  }

  /** A line keeps the counters in agreement with the table. */
  lemma IngestConsistent(s: Stats, line: string)
    requires '\n' !in line
    requires Consistent(s)
    ensures Consistent(Ingest(s, line))
  {
    var hits, relMatch, bkpMatch := Classify(line), ExtractPage(line), ExtractBkp(line);
    var counted := Tally(s, hits);
    TableUntouched(s, hits, bkpMatch);
    SameTableConsistent(s, counted);
    var referenced := Enter(counted, relMatch);
    EnterConsistent(counted, relMatch);
    TableUntouched(referenced, hits, bkpMatch);
    SameTableConsistent(referenced, AddBackups(referenced, bkpMatch));
  }

  /** Neither the ten searches nor the backup pattern touch the relation table or its counters. */
  lemma TableUntouched(s: Stats, hits: set<Search>, bkpMatch: Option<string>)
    ensures SameTable(s, Tally(s, hits)) && SameTable(s, AddBackups(s, bkpMatch))
  {
  }

  /** Parsing any number of lines keeps the counters in agreement with the table. */
  lemma {:induction false} IngestAllConsistent(s: Stats, lines: seq<string>)
    requires NoNewlines(lines)
    requires Consistent(s)
    ensures Consistent(IngestAll(s, lines))
    decreases |lines|
  {
    if lines != [] {
      var prefix := lines[..|lines| - 1];
      IngestAllConsistent(s, prefix);
      IngestConsistent(IngestAll(s, prefix), lines[|lines| - 1]);
    }
  }

  /** The page pattern matches somewhere in the line. */
  ghost predicate HasPageRef(line: string) {
    exists p: nat, q: nat :: PageMatchAt(line, p, q)
  }

  /** Number of lines the page pattern matches. */
  ghost function PageLines(lines: seq<string>): (n: nat)
    ensures n <= |lines|
    decreases |lines|
  {
    if lines == [] then 0
    else PageLines(lines[..|lines| - 1]) + Bit(HasPageRef(lines[|lines| - 1]))
  }

  /** Number of lines in which `pat` occurs. */
  function LinesWith(lines: seq<string>, pat: string): (n: nat)
    ensures n <= |lines|
    decreases |lines|
  {
    if lines == [] then 0
    else LinesWith(lines[..|lines| - 1], pat) + Bit(Contains(lines[|lines| - 1], pat))
  }

  /** Backup blocks a line holds: the '1' digits among the four groups of the backup pattern. */
  function Backups(line: string): nat
    requires '\n' !in line
  {
    match ExtractBkp(line)
    case Some(digits) => CountChar(digits, '1')
    case None => 0
  }

  /** Backup blocks over all lines. */
  function BackupTotal(lines: seq<string>): nat
    requires NoNewlines(lines)
    decreases |lines|
  {
    if lines == [] then 0
    else BackupTotal(lines[..|lines| - 1]) + Backups(lines[|lines| - 1])
  }

  /** The ten searches of a line each add one to their own counter exactly when they succeed. */
  lemma TallyCounters(s: Stats, line: string)
    ensures var t := Tally(s, Classify(line));
      && t.count == s.count + 1
      && t.nHeap == s.nHeap + Bit(Contains(line, HEAP))
      && t.nHeap2 == s.nHeap2 + Bit(Contains(line, HEAP2))
      && t.nBtree == s.nBtree + Bit(Contains(line, BTREE))
      && t.nTransaction == s.nTransaction + Bit(Contains(line, TRANSACTION))
      && t.nInsert == s.nInsert + Bit(Contains(line, INSERT))
      && t.nUpdate == s.nUpdate + Bit(Contains(line, UPDATE))
      && t.nHotUpdate == s.nHotUpdate + Bit(Contains(line, HOT_UPDATE))
      && t.nDelete == s.nDelete + Bit(Contains(line, DELETE))
      && t.nCommit == s.nCommit + Bit(Contains(line, COMMIT))
      && t.nAbort == s.nAbort + Bit(Contains(line, ABORT))
      && SameTable(s, t)
  {
    KindsCounted(s, line);
    OperationsCounted(CountKinds(s, Classify(line)), line);
  }

  /** The record-kind searches add one to `count` and one to each kind found. */
  lemma KindsCounted(s: Stats, line: string)
    ensures var t := CountKinds(s, Classify(line));
      && t.count == s.count + 1
      && t.nHeap == s.nHeap + Bit(Contains(line, HEAP))
      && t.nHeap2 == s.nHeap2 + Bit(Contains(line, HEAP2))
      && t.nBtree == s.nBtree + Bit(Contains(line, BTREE))
      && t.nTransaction == s.nTransaction + Bit(Contains(line, TRANSACTION))
      && t.(count := s.count, nHeap := s.nHeap, nHeap2 := s.nHeap2, nBtree := s.nBtree,
            nTransaction := s.nTransaction) == s
  {
    var hits := Classify(line);
    assert HeapSearch in hits <==> Contains(line, HEAP);
    assert Heap2Search in hits <==> Contains(line, HEAP2);
    assert BtreeSearch in hits <==> Contains(line, BTREE);
    assert TransactionSearch in hits <==> Contains(line, TRANSACTION);
  }

  /** The operation searches add one to each operation found. */
  lemma OperationsCounted(s: Stats, line: string)
    ensures var t := CountOperations(s, Classify(line));
      && t.nInsert == s.nInsert + Bit(Contains(line, INSERT))
      && t.nUpdate == s.nUpdate + Bit(Contains(line, UPDATE))
      && t.nHotUpdate == s.nHotUpdate + Bit(Contains(line, HOT_UPDATE))
      && t.nDelete == s.nDelete + Bit(Contains(line, DELETE))
      && t.nCommit == s.nCommit + Bit(Contains(line, COMMIT))
      && t.nAbort == s.nAbort + Bit(Contains(line, ABORT))
      && t.(nInsert := s.nInsert, nUpdate := s.nUpdate, nHotUpdate := s.nHotUpdate,
            nDelete := s.nDelete, nCommit := s.nCommit, nAbort := s.nAbort) == s
  {
    var hits := Classify(line);
    assert InsertSearch in hits <==> Contains(line, INSERT);
    assert UpdateSearch in hits <==> Contains(line, UPDATE);
    assert HotUpdateSearch in hits <==> Contains(line, HOT_UPDATE);
    assert DeleteSearch in hits <==> Contains(line, DELETE);
    assert CommitSearch in hits <==> Contains(line, COMMIT);
    assert AbortSearch in hits <==> Contains(line, ABORT);
  }

  /** The page pattern adds one reference to n_relation and n_page exactly when it matches. */
  lemma EnterCounters(s: Stats, line: string)
    requires '\n' !in line
    ensures var t := Enter(s, ExtractPage(line));
      && t.nRelation == s.nRelation + Bit(HasPageRef(line))
      && t.nPage == s.nPage + Bit(HasPageRef(line))
      && t.(nRelation := s.nRelation, nPage := s.nPage, nDistinctRelation := s.nDistinctRelation,
            nDistinctPage := s.nDistinctPage, relations := s.relations) == s
  {
    ExtractPageSpec(line);
  }

  /** The backup pattern adds the line's backup blocks: at most four, and none when it does not match. */
  lemma BackupCounters(s: Stats, line: string)
    requires '\n' !in line
    ensures var t := AddBackups(s, ExtractBkp(line));
      && t.nBkp == s.nBkp + Backups(line)
      && s.nBkp <= t.nBkp <= s.nBkp + 4
      && ((forall p: nat :: !BkpMatchAt(line, p)) ==> t.nBkp == s.nBkp)
      && t.(nBkp := s.nBkp) == s
  {
    ExtractBkpSpec(line);
    match ExtractBkp(line)
    case Some(digits) => assert CountChar(digits, '1') <= |digits| == 4;
    case None =>
  }

  /**
   * What one line adds: one to `count`, 0 or 1 to each of the ten pattern counters, 1 to
   * n_relation and n_page exactly when the page pattern matches, and its 0 to 4 backup blocks.
   */
  lemma IngestCounters(s: Stats, line: string)
    requires '\n' !in line
    ensures var t := Ingest(s, line);
      && t.count == s.count + 1
      && t.nHeap == s.nHeap + Bit(Contains(line, HEAP))
      && t.nHeap2 == s.nHeap2 + Bit(Contains(line, HEAP2))
      && t.nBtree == s.nBtree + Bit(Contains(line, BTREE))
      && t.nTransaction == s.nTransaction + Bit(Contains(line, TRANSACTION))
      && t.nInsert == s.nInsert + Bit(Contains(line, INSERT))
      && t.nUpdate == s.nUpdate + Bit(Contains(line, UPDATE))
      && t.nHotUpdate == s.nHotUpdate + Bit(Contains(line, HOT_UPDATE))
      && t.nDelete == s.nDelete + Bit(Contains(line, DELETE))
      && t.nCommit == s.nCommit + Bit(Contains(line, COMMIT))
      && t.nAbort == s.nAbort + Bit(Contains(line, ABORT))
      && t.nRelation == s.nRelation + Bit(HasPageRef(line))
      && t.nPage == s.nPage + Bit(HasPageRef(line))
      && t.nBkp == s.nBkp + Backups(line)
      && s.nBkp <= t.nBkp <= s.nBkp + 4
      && ((forall p: nat :: !BkpMatchAt(line, p)) ==> t.nBkp == s.nBkp)
      && t.nOther == s.nOther
      && t.nAvgPagePerRelation == s.nAvgPagePerRelation
      && t.nAvgPagePerTransaction == s.nAvgPagePerTransaction
  {
    var counted := Tally(s, Classify(line));
    TallyCounters(s, line);
    var referenced := Enter(counted, ExtractPage(line));
    EnterCounters(counted, line);
    BackupCounters(referenced, line);
  }

  /**
   * What parsing a sequence of lines adds: one to `count` per line, to each of the ten
   * pattern counters the number of lines containing its pattern (a line may raise several),
   * and to n_bkp the backup blocks of all lines.
   */
  lemma {:induction false} IngestAllCounters(s: Stats, lines: seq<string>)
    requires NoNewlines(lines)
    ensures var t := IngestAll(s, lines);
      && t.count == s.count + |lines|
      && t.nHeap == s.nHeap + LinesWith(lines, HEAP)
      && t.nHeap2 == s.nHeap2 + LinesWith(lines, HEAP2)
      && t.nBtree == s.nBtree + LinesWith(lines, BTREE)
      && t.nTransaction == s.nTransaction + LinesWith(lines, TRANSACTION)
      && t.nInsert == s.nInsert + LinesWith(lines, INSERT)
      && t.nUpdate == s.nUpdate + LinesWith(lines, UPDATE)
      && t.nHotUpdate == s.nHotUpdate + LinesWith(lines, HOT_UPDATE)
      && t.nDelete == s.nDelete + LinesWith(lines, DELETE)
      && t.nCommit == s.nCommit + LinesWith(lines, COMMIT)
      && t.nAbort == s.nAbort + LinesWith(lines, ABORT)
      && t.nRelation == s.nRelation + PageLines(lines)
      && t.nPage == s.nPage + PageLines(lines)
      && t.nBkp == s.nBkp + BackupTotal(lines)
      && s.nBkp <= t.nBkp <= s.nBkp + 4 * |lines|
      && t.nOther == s.nOther
      && t.nAvgPagePerRelation == s.nAvgPagePerRelation
      && t.nAvgPagePerTransaction == s.nAvgPagePerTransaction
    decreases |lines|
  {
    if lines != [] {
      var prefix := lines[..|lines| - 1];
      IngestAllCounters(s, prefix);
      IngestCounters(IngestAll(s, prefix), lines[|lines| - 1]);
    }
  }

  /** q is `x // d` for a positive d. */
  predicate IsFloorDiv(q: int, x: int, d: int) {
    d > 0 && q * d <= x < (q + 1) * d
  }

  lemma FloorDiv(x: nat, d: nat)
    requires d > 0
    ensures IsFloorDiv(x / d, x, d)
  {
    assert x == (x / d) * d + x % d;
    assert (x / d + 1) * d == (x / d) * d + d;
  }

  /**
   * After the loop: n_other balances the four record-kind counters against `count`; when a
   * relation was seen, the averages become floor quotients, the second one only when there
   * is a transaction record (otherwise the division raises and leaves it as it was); when no
   * relation was seen, both averages keep their values. Nothing else changes.
   */
  lemma FinishEffect(s: Stats)
    ensures var t := Finish(s);
      && t.nOther == t.count - (t.nHeap + t.nHeap2 + t.nBtree + t.nTransaction)
      && t.(nOther := s.nOther, nAvgPagePerRelation := s.nAvgPagePerRelation,
            nAvgPagePerTransaction := s.nAvgPagePerTransaction) == s
      && (s.nDistinctRelation == 0 ==>
            t.nAvgPagePerRelation == s.nAvgPagePerRelation && t.nAvgPagePerTransaction == s.nAvgPagePerTransaction)
      && (s.nDistinctRelation != 0 ==> IsFloorDiv(t.nAvgPagePerRelation, s.nDistinctPage, s.nDistinctRelation))
      && (s.nDistinctRelation != 0 && s.nTransaction != 0 ==>
            IsFloorDiv(t.nAvgPagePerTransaction, s.nPage, s.nTransaction))
      && (FinishFails(s) ==> t.nAvgPagePerTransaction == s.nAvgPagePerTransaction)
  {
    if s.nDistinctRelation != 0 {
      FloorDiv(s.nDistinctPage, s.nDistinctRelation);
      if s.nTransaction != 0 {
        FloorDiv(s.nPage, s.nTransaction);
      }
    }
  }

  /**
   * Parsing a whole dump text: `count` grows by the number of newlines plus one (the piece
   * after the last newline counts even when empty).
   */
  lemma ParseCounts(s: Stats, output: string)
    ensures Parse(s, output).count == s.count + CountChar(output, '\n') + 1
  {
    var lines := Split(output);
    SplitPieces(output);
    IngestAllCounters(s, lines);
    FinishKeepsTable(IngestAll(s, lines));
  }

  /** Parsing keeps the relation counters consistent with the table. */
  lemma ParseConsistent(s: Stats, output: string)
    requires Consistent(s)
    ensures Consistent(Parse(s, output))
  {
    var lines := Split(output);
    SplitPieces(output);
    var ingested := IngestAll(s, lines);
    IngestAllConsistent(s, lines);
    FinishKeepsTable(ingested);
    SameTableConsistent(ingested, Finish(ingested));
  }

  /** After parsing, n_other balances the record kinds against `count`. */
  lemma ParseBalanced(s: Stats, output: string)
    ensures Balanced(Parse(s, output))
  {
    SplitPieces(output);
    FinishEffect(IngestAll(s, Split(output)));
  }

  /** The closing step changes neither `count` nor the relation table and its counters. */
  lemma FinishKeepsTable(s: Stats)
    ensures Finish(s).count == s.count && SameTable(s, Finish(s))
  {
  }

  /** The same from `init_xlog_stats()`: n_page is the sum of all entries of the table, and so on. */
  lemma ParseFreshConsistent(output: string)
    ensures var s := Init(); Consistent(Parse(s, output))
  {
    InitConsistent();
    var s := Init();
    ParseConsistent(s, output);
  }

  /** With consistent counters, the table is empty exactly when no page was referenced. */
  lemma EmptyTable(s: Stats)
    requires Consistent(s)
    ensures s.nDistinctRelation == 0 <==> s.nPage == 0
  {
    if |s.relations| != 0 {
      var r :| r in s.relations;
      var p :| p in s.relations[r];
      var flat := Flat(s.relations);
      assert (r, p) in Keys2(s.relations);
      SumRemove(flat, (r, p));
    } else {
      assert Keys2(s.relations) == {};
    }
  }

  /**
   * From stats with no page reference and no transaction record, the closing step raises
   * exactly when some line references a page and no line contains " Transaction".
   */
  lemma IngestAllFails(s: Stats, lines: seq<string>)
    requires NoNewlines(lines)
    requires Consistent(s) && s.nPage == 0 && s.nTransaction == 0
    ensures FinishFails(IngestAll(s, lines)) <==> PageLines(lines) > 0 && LinesWith(lines, TRANSACTION) == 0
  {
    IngestAllCounters(s, lines);
    IngestAllConsistent(s, lines);
    EmptyTable(IngestAll(s, lines));
  }

  /**
   * For `parse_xlogdump_output(output)` on stats that hold no page reference and no transaction
   * record yet, such as fresh ones.
   */
  lemma ParseFailsExactly(s: Stats, output: string)
    requires Consistent(s) && s.nPage == 0 && s.nTransaction == 0
    ensures ParseFails(s, output) <==> PageLines(Split(output)) > 0 && LinesWith(Split(output), TRANSACTION) == 0
  {
    SplitPieces(output);
    IngestAllFails(s, Split(output));
  }

  /**
   * A single line holding " Heap ", " Heap2" and " Btree" but not " Transaction" (such as
   * " Heap Heap2 Btree") counts three record kinds for one record, so n_other drops by two
   * below what the earlier records give: -2 when parsed on its own into fresh stats.
   */
  lemma OtherCanBeNegative(s: Stats, line: string)
    requires '\n' !in line
    requires Contains(line, HEAP) && Contains(line, HEAP2) && Contains(line, BTREE)
    requires !Contains(line, TRANSACTION)
    ensures Parse(s, line).nOther == s.count - (s.nHeap + s.nHeap2 + s.nBtree + s.nTransaction) - 2
  {
    OtherFormula(s, line);
    SplitNoNewline(line, []);
    assert line + [] == line;
    var lines := Split(line);
    assert lines == [line] && lines[..0] == [];
  }

  /**
   * After parsing, n_other is the record count minus the number of lines matching each of the
   * four record-kind searches, which overlap.
   */
  lemma OtherFormula(s: Stats, output: string)
    ensures var lines := Split(output);
      Parse(s, output).nOther ==
        s.count + |lines| - (s.nHeap + s.nHeap2 + s.nBtree + s.nTransaction)
        - (LinesWith(lines, HEAP) + LinesWith(lines, HEAP2) + LinesWith(lines, BTREE) + LinesWith(lines, TRANSACTION))
  {
    var lines := Split(output);
    SplitPieces(output);
    var t := IngestAll(s, lines);
    IngestAllCounters(s, lines);
    FinishBalances(t);
  }

  /** The closing step sets n_other to `count` minus the four record kinds. */
  lemma FinishBalances(s: Stats)
    ensures Finish(s).nOther == s.count - (s.nHeap + s.nHeap2 + s.nBtree + s.nTransaction)
  {
  }

  // ---------------------------------------------------------------------------------------
  // The summary

  /** Folding a segment into `init_xlog_stats()` gives the segment back. */
  lemma MergeIntoFresh(seg: Stats)
    ensures var s := Init(); Merge(s, seg) == seg
  {
    var s := Init();
    assert s.relations + seg.relations == seg.relations;
  }

  /**
   * `dict.update`: the merged table holds the relations of both, and for a relation present in
   * the segment it holds the segment's page map, whatever the overall table had for it.
   */
  lemma MergeTable(overall: Stats, seg: Stats)
    ensures var m := Merge(overall, seg).relations;
      && m.Keys == overall.relations.Keys + seg.relations.Keys
      && (forall r :: r in seg.relations ==> m[r] == seg.relations[r])
      && (forall r :: r in overall.relations && r !in seg.relations ==> m[r] == overall.relations[r])
  {
  }

  /** n_other balances the record kinds against `count`. */
  predicate Balanced(s: Stats) {
    s.nOther == s.count - (s.nHeap + s.nHeap2 + s.nBtree + s.nTransaction)
  }

  /** Adding balanced records field by field keeps the balance. */
  lemma MergeBalanced(overall: Stats, seg: Stats)
    requires Balanced(overall) && Balanced(seg)
    ensures Balanced(Merge(overall, seg))
  {
  }

  /**
   * When two segments both reference a relation, the summed n_distinct_relation exceeds the
   * number of relations in the merged table, and the occurrences the first segment recorded
   * for that relation's pages are lost.
   */
  lemma MergeOvercounts(overall: Stats, seg: Stats, r: string, p: string)
    requires Consistent(overall) && Consistent(seg)
    requires Seen(overall.relations, r, p) && r in seg.relations
    ensures var m := Merge(overall, seg);
      && m.nDistinctRelation > |m.relations|
      && Occurrences(m.relations, r, p) < Occurrences(overall.relations, r, p) + Occurrences(seg.relations, r, p)
  {
    var a, b := overall.relations.Keys, seg.relations.Keys;
    assert Merge(overall, seg).relations.Keys == a + b;
    assert r in a * b;
    assert |a * b| > 0;
  }
}
