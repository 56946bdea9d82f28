/**
 * The `xlog_stats` dict as an object that `parse_xlogdump_output` and the summary in `main`
 * update in place. The object holds the dict's entries as one record; every `xlog_stats[key]
 * += …` of the source is one reassignment of that record with the entry changed. Each method is
 * proved to leave the record that the functions of module Statistics specify.
 */
module Accumulator {
  import opened Text
  import opened LineClassifier
  import opened Statistics

  class XlogStats {
    /** The entries of the dict, one per key of `init_xlog_stats`. */
    var entries: Stats

    /** `init_xlog_stats()`. */
    constructor ()
      ensures entries == Init()
    {
      entries := Stats(
        count := 0, nHeap := 0, nHeap2 := 0, nBtree := 0, nTransaction := 0, nOther := 0,
        nRelation := 0, nPage := 0, nDistinctRelation := 0, nDistinctPage := 0, nBkp := 0,
        nAvgPagePerRelation := 0, nAvgPagePerTransaction := 0,
        nInsert := 0, nUpdate := 0, nHotUpdate := 0, nDelete := 0, nCommit := 0, nAbort := 0,
        relations := map[]);
    }

    /** One pass of the loop body of `parse_xlogdump_output` over `line`. */
    method IngestLine(line: string)
      requires '\n' !in line
      modifies this
      ensures entries == Ingest(old(entries), line)
    {
      var hits := Classify(line);
      CountSearches(hits);
      var relMatch := ExtractPage(line);
      EnterReference(relMatch);
      var bkpMatch := ExtractBkp(line);
      AddBackupBlocks(bkpMatch);
    }

    /** `count += 1`, then `+= 1` on the counter of each of the ten searches that succeeded. */
    method CountSearches(hits: set<Search>)
      modifies this
      ensures entries == Tally(old(entries), hits)
    {
      CountKindSearches(hits);
      CountOperationSearches(hits);
    }

    /** `count += 1` and the four record-kind searches. */
    method CountKindSearches(hits: set<Search>)
      modifies this
      ensures entries == CountKinds(old(entries), hits)
    {
      entries := entries.(count := entries.count + 1);
      if HeapSearch in hits {
        entries := entries.(nHeap := entries.nHeap + 1);
      }
      if Heap2Search in hits {
        entries := entries.(nHeap2 := entries.nHeap2 + 1);
      }
      if BtreeSearch in hits {
        entries := entries.(nBtree := entries.nBtree + 1);
      }
      if TransactionSearch in hits {
        entries := entries.(nTransaction := entries.nTransaction + 1);
      }
    }

    /** The six operation searches. */
    method CountOperationSearches(hits: set<Search>)
      modifies this
      ensures entries == CountOperations(old(entries), hits)
    {
      ghost var s := entries;
      if InsertSearch in hits {
        entries := entries.(nInsert := entries.nInsert + 1);
      }
      if UpdateSearch in hits {
        entries := entries.(nUpdate := entries.nUpdate + 1);
      }
      if HotUpdateSearch in hits {
        entries := entries.(nHotUpdate := entries.nHotUpdate + 1);
      }
      assert entries == s.(nInsert := s.nInsert + Bit(InsertSearch in hits),
                           nUpdate := s.nUpdate + Bit(UpdateSearch in hits),
                           nHotUpdate := s.nHotUpdate + Bit(HotUpdateSearch in hits));
      if DeleteSearch in hits {
        entries := entries.(nDelete := entries.nDelete + 1);
      }
      if CommitSearch in hits {
        entries := entries.(nCommit := entries.nCommit + 1);
      }
      if AbortSearch in hits {
        entries := entries.(nAbort := entries.nAbort + 1);
      }
    }

    /** The `if rel_match:` block: the reference is entered in the nested relation table. */
    method EnterReference(relMatch: Option<PageRef>)
      modifies this
      ensures entries == Enter(old(entries), relMatch)
    {
      if relMatch.Some? {
        var relation, page := relMatch.value.relation, relMatch.value.page;
        // `relations` in the source is an alias of the table; the update is written back below.
        var table: Relations := entries.relations;
        entries := entries.(nRelation := entries.nRelation + 1);
        entries := entries.(nPage := entries.nPage + 1);
        if relation !in table {
          table := table[relation := map[]];
          entries := entries.(nDistinctRelation := entries.nDistinctRelation + 1);
        }
        ghost var pages: Pages := if relation in old(entries).relations then old(entries).relations[relation] else map[];
        if page !in table[relation] {
          table := table[relation := table[relation][page := 0]];
          entries := entries.(nDistinctPage := entries.nDistinctPage + 1);
        }
        assert table == old(entries).relations[relation := table[relation]];
        ghost var occurrences: nat := Occurrences(old(entries).relations, relation, page) + 1;
        assert table[relation][page := occurrences] == pages[page := occurrences];
        table := table[relation := table[relation][page := table[relation][page] + 1]];
        entries := entries.(relations := table);
      }
    }

    /** The `if bkp_match:` block: one backup block per captured digit that is '1'. */
    method AddBackupBlocks(bkpMatch: Option<string>)
      modifies this
      ensures entries == AddBackups(old(entries), bkpMatch)
    {
      if bkpMatch.Some? {
        var digits := bkpMatch.value;
        for i := 0 to |digits|
          invariant entries == old(entries).(nBkp := old(entries).nBkp + CountChar(digits[..i], '1'))
        {
          CountCharAppend(digits[..i], [digits[i]], '1');
          assert digits[..i + 1] == digits[..i] + [digits[i]];
          if digits[i] == '1' {
            entries := entries.(nBkp := entries.nBkp + 1);
          }
        }
        assert digits[..|digits|] == digits;
      }
    }

    /**
     * `parse_xlogdump_output(output, xlog_stats)` with this object as `xlog_stats`. The status
     * says whether it returned or raised ZeroDivisionError; either way the object is left as
     * Parse says, which is the state at the moment of the raise.
     */
    method ParseOutput(output: string) returns (status: Status)
      modifies this
      ensures entries == Parse(old(entries), output)
      ensures status == ZeroDivisionError <==> ParseFails(old(entries), output)
    {
      var lines := Split(output);
      SplitPieces(output);
      var i := 0;
      while i < |lines|
        invariant 0 <= i <= |lines|
        invariant entries == IngestAll(old(entries), lines[..i])
      {
        assert lines[..i + 1][..i] == lines[..i];
        IngestLine(lines[i]);
        i := i + 1;
      }
      assert lines[..i] == lines;
      status := FinishTotals();
    }

    /**
     * The code after the loop of `parse_xlogdump_output`: n_other is derived and, when a relation
     * was seen, the two averages are divided out; the second division raises when there is no
     * transaction record.
     */
    method FinishTotals() returns (status: Status)
      modifies this
      ensures entries == Finish(old(entries))
      ensures status == ZeroDivisionError <==> FinishFails(old(entries))
    {
      entries := entries.(nOther := entries.count -
        (entries.nHeap + entries.nHeap2 + entries.nBtree + entries.nTransaction));
      status := Completed;
      if entries.nDistinctRelation != 0 {
        entries := entries.(nAvgPagePerRelation := entries.nDistinctPage / entries.nDistinctRelation);
        if entries.nTransaction == 0 {
          status := ZeroDivisionError;
          return;
        }
        entries := entries.(nAvgPagePerTransaction := entries.nPage / entries.nTransaction);
      }
    }

    /**
     * The closing step with the second division guarded by `n_transaction` as the first is by
     * `n_distinct_relation`: it leaves the same record as the source's closing step, which
     * raises only after its last write, and it always completes.
     */
    method FinishTotalsGuarded() returns (status: Status)
      modifies this
      ensures entries == Finish(old(entries))
      ensures status == Completed
    {
      entries := entries.(nOther := entries.count -
        (entries.nHeap + entries.nHeap2 + entries.nBtree + entries.nTransaction));
      if entries.nDistinctRelation != 0 {
        entries := entries.(nAvgPagePerRelation := entries.nDistinctPage / entries.nDistinctRelation);
        if entries.nTransaction != 0 {
          entries := entries.(nAvgPagePerTransaction := entries.nPage / entries.nTransaction);
        }
      }
      status := Completed;
    }

    /**
     * The loop `for entry in xlog_stats` of the summary: scalar entries are added, the
     * relation table is merged with `dict.update`.
     */
    method Accumulate(seg: Stats)
      modifies this
      ensures entries == Merge(old(entries), seg)
    {
      entries := entries.(count := entries.count + seg.count);
      entries := entries.(nHeap := entries.nHeap + seg.nHeap);
      entries := entries.(nHeap2 := entries.nHeap2 + seg.nHeap2);
      entries := entries.(nBtree := entries.nBtree + seg.nBtree);
      entries := entries.(nTransaction := entries.nTransaction + seg.nTransaction);
      entries := entries.(nOther := entries.nOther + seg.nOther);
      entries := entries.(nRelation := entries.nRelation + seg.nRelation);
      entries := entries.(nPage := entries.nPage + seg.nPage);
      entries := entries.(nDistinctRelation := entries.nDistinctRelation + seg.nDistinctRelation);
      entries := entries.(nDistinctPage := entries.nDistinctPage + seg.nDistinctPage);
      entries := entries.(nBkp := entries.nBkp + seg.nBkp);
      entries := entries.(nAvgPagePerRelation := entries.nAvgPagePerRelation + seg.nAvgPagePerRelation);
      entries := entries.(nAvgPagePerTransaction := entries.nAvgPagePerTransaction + seg.nAvgPagePerTransaction);
      entries := entries.(nInsert := entries.nInsert + seg.nInsert);
      entries := entries.(nUpdate := entries.nUpdate + seg.nUpdate);
      entries := entries.(nHotUpdate := entries.nHotUpdate + seg.nHotUpdate);
      entries := entries.(nDelete := entries.nDelete + seg.nDelete);
      entries := entries.(nCommit := entries.nCommit + seg.nCommit);
      entries := entries.(nAbort := entries.nAbort + seg.nAbort);
      entries := entries.(relations := entries.relations + seg.relations);
    }

    /**
     * `overall[avg] /= len(xlog_segment)` for both averages. With no segment the first
     * division raises and nothing is changed.
     */
    method DivideAverages(segments: nat) returns (status: Status)
      modifies this
      ensures status == ZeroDivisionError <==> segments == 0
      ensures segments == 0 ==> entries == old(entries)
      ensures segments > 0 ==> entries == Reweight(old(entries), segments)
    {
      if segments == 0 {
        return ZeroDivisionError;
      }
      entries := entries.(nAvgPagePerRelation := entries.nAvgPagePerRelation / segments);
      entries := entries.(nAvgPagePerTransaction := entries.nAvgPagePerTransaction / segments);
      status := Completed;
    }
  }
}
