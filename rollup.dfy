/**
 * The summary of `main`: every segment's dump output is parsed into fresh stats, the scalar
 * entries are added into an overall record, its relation table is merged with `dict.update`,
 * and at the end both averages are divided by the number of segments.
 *
 * The specification works on the results of the per-segment parses, in segment order: the
 * stats of a segment, or None when its parse raised ZeroDivisionError.
 */
module Rollup {
  import opened Text
  import opened Statistics
  import opened Accumulator

  /** `parse_xlogdump_output(output)` with no stats handed in, or None when it raises. */
  function Parsed(output: string): Option<Stats> {
    if ParseFails(Init(), output) then None else Some(Parse(Init(), output))
  }

  /** The parse result of every segment, in order. */
  function ParseEach(outputs: seq<string>): seq<Option<Stats>> {
    seq(|outputs|, k requires 0 <= k < |outputs| => Parsed(outputs[k]))
  }

  /**
   * The overall record after the segment loop of `main` has gone over the segments, or None
   * when one of their parses raised and ended the program.
   */
  function MergeAll(segments: seq<Option<Stats>>): Option<Stats>
    decreases |segments|
  {
    if segments == [] then Some(Init())
    else
      match MergeAll(segments[..|segments| - 1])
      case None => None
      case Some(overall) =>
        match segments[|segments| - 1]
        case None => None
        case Some(seg) => Some(Merge(overall, seg))
  }

  /**
   * The record `main` prints as "Overall Statistics", or None when no summary is printed
   * because a division raised: in a segment's parse, or in `/= len(args.xlog_segment)` when
   * there is no segment.
   */
  function Summary(segments: seq<Option<Stats>>): Option<Stats> {
    if |segments| == 0 then None
    else
      match MergeAll(segments)
      case None => None
      case Some(overall) => Some(Reweight(overall, |segments|))
  }

  /** The summary as `main` computes it, with the dicts of the source as XlogStats objects. */
  method Summarize(outputs: seq<string>) returns (summary: Option<Stats>)
    ensures summary == Summary(ParseEach(outputs))
  {
    ghost var segments := ParseEach(outputs);
    var overall := new XlogStats();
    for i := 0 to |outputs|
      invariant fresh(overall)
      invariant MergeAll(segments[..i]) == Some(overall.entries)
    {
      var segment := new XlogStats();
      var status := segment.ParseOutput(outputs[i]);
      assert segments[i] == if status == ZeroDivisionError then None else Some(segment.entries);
      MergeStep(segments, i);
      if status == ZeroDivisionError {
        FailurePersists(segments, i + 1);
        return None;
      }
      overall.Accumulate(segment.entries);
    }
    assert segments[..|outputs|] == segments;
    var status := overall.DivideAverages(|outputs|);
    if status == ZeroDivisionError {
      return None;
    }
    summary := Some(overall.entries);
  }

  /** One more segment: it either raises or is merged into the overall record. */
  lemma MergeStep(segments: seq<Option<Stats>>, i: nat)
    requires i < |segments|
    ensures MergeAll(segments[..i + 1]) ==
              match MergeAll(segments[..i])
              case None => None
              case Some(overall) =>
                match segments[i]
                case None => None
                case Some(seg) => Some(Merge(overall, seg))
  {
    assert segments[..i + 1][..i] == segments[..i];
  }

  /** Once a segment has raised, the later ones cannot bring the summary back. */
  lemma {:induction false} FailurePersists(segments: seq<Option<Stats>>, j: nat)
    requires j <= |segments|
    requires MergeAll(segments[..j]) == None
    ensures MergeAll(segments) == None
    decreases |segments|
  {
    if j < |segments| {
      var prefix := segments[..|segments| - 1];
      assert prefix[..j] == segments[..j];
      FailurePersists(prefix, j);
    } else {
      assert segments[..j] == segments;
    }
  }

  /** The segment loop gets through exactly when no segment's parse raises. */
  lemma {:induction false} MergeAllFails(segments: seq<Option<Stats>>)
    ensures MergeAll(segments) == None <==> exists k :: 0 <= k < |segments| && segments[k] == None
    decreases |segments|
  {
    if segments != [] {
      var prefix := segments[..|segments| - 1];
      MergeAllFails(prefix);
      if exists k :: 0 <= k < |prefix| && prefix[k] == None {
        var k :| 0 <= k < |prefix| && prefix[k] == None;
        assert segments[k] == None;
      }
      if exists k :: 0 <= k < |segments| && segments[k] == None {
        var k :| 0 <= k < |segments| && segments[k] == None;
        if k < |prefix| {
          assert prefix[k] == None;
        }
      }
    }
  }

  /** A summary is printed exactly when there is a segment and none of the parses raises. */
  lemma SummaryFails(outputs: seq<string>)
    ensures Summary(ParseEach(outputs)) == None <==>
              |outputs| == 0 || exists k :: 0 <= k < |outputs| && ParseFails(Init(), outputs[k])
  {
    var segments := ParseEach(outputs);
    MergeAllFails(segments);
    RaisedSegments(outputs);
  }

  /** A segment's entry is None exactly when its parse raises. */
  lemma RaisedSegments(outputs: seq<string>)
    ensures (exists k :: 0 <= k < |outputs| && ParseEach(outputs)[k] == None) <==>
            (exists k :: 0 <= k < |outputs| && ParseFails(Init(), outputs[k]))
  {
    var segments := ParseEach(outputs);
    if exists k :: 0 <= k < |outputs| && ParseFails(Init(), outputs[k]) {
      var k :| 0 <= k < |outputs| && ParseFails(Init(), outputs[k]);
      assert segments[k] == None;
    }
  }

  /** The scalar entries of the stats dict. */
  datatype Counter =
    | Count | NHeap | NHeap2 | NBtree | NTransaction | NOther | NRelation | NPage
    | NDistinctRelation | NDistinctPage | NBkp | NAvgPagePerRelation | NAvgPagePerTransaction
    | NInsert | NUpdate | NHotUpdate | NDelete | NCommit | NAbort

  /** `xlog_stats[entry]` for a scalar entry. */
  function Scalar(s: Stats, c: Counter): int {
    match c
    case Count => s.count
    case NHeap => s.nHeap
    case NHeap2 => s.nHeap2
    case NBtree => s.nBtree
    case NTransaction => s.nTransaction
    case NOther => s.nOther
    case NRelation => s.nRelation
    case NPage => s.nPage
    case NDistinctRelation => s.nDistinctRelation
    case NDistinctPage => s.nDistinctPage
    case NBkp => s.nBkp
    case NAvgPagePerRelation => s.nAvgPagePerRelation
    case NAvgPagePerTransaction => s.nAvgPagePerTransaction
    case NInsert => s.nInsert
    case NUpdate => s.nUpdate
    case NHotUpdate => s.nHotUpdate
    case NDelete => s.nDelete
    case NCommit => s.nCommit
    case NAbort => s.nAbort
  }

  /** The sum of one scalar entry over the segments that parsed. */
  function Total(segments: seq<Option<Stats>>, c: Counter): int
    decreases |segments|
  {
    if segments == [] then 0
    else
      var last := segments[|segments| - 1];
      Total(segments[..|segments| - 1], c) + (if last.Some? then Scalar(last.value, c) else 0)
  }

  /** The merge adds every scalar entry. */
  lemma MergeScalar(overall: Stats, seg: Stats, c: Counter)
    ensures Scalar(Merge(overall, seg), c) == Scalar(overall, c) + Scalar(seg, c)
  {
  }

  /** Every scalar entry of the overall record is the sum of that entry over the segments. */
  lemma {:induction false} MergeAllScalars(segments: seq<Option<Stats>>, c: Counter)
    requires MergeAll(segments).Some?
    ensures Scalar(MergeAll(segments).value, c) == Total(segments, c)
    decreases |segments|
  {
    if segments != [] {
      var prefix := segments[..|segments| - 1];
      MergeAllScalars(prefix, c);
      MergeScalar(MergeAll(prefix).value, segments[|segments| - 1].value, c);
    }
  }

  /**
   * In the printed summary every entry other than the two averages is the sum over the
   * segments, and each average is the sum of the segments' (already floored) averages,
   * floor-divided by the number of segments.
   */
  lemma SummaryScalars(segments: seq<Option<Stats>>, c: Counter)
    requires Summary(segments).Some?
    ensures c != NAvgPagePerRelation && c != NAvgPagePerTransaction ==>
              Scalar(Summary(segments).value, c) == Total(segments, c)
    ensures c == NAvgPagePerRelation || c == NAvgPagePerTransaction ==>
              Scalar(Summary(segments).value, c) == Total(segments, c) / |segments|
  {
    MergeAllScalars(segments, c);
  }

  /** Number of lines `split("\n")` gives over all outputs. */
  function LineTotal(outputs: seq<string>): nat
    decreases |outputs|
  {
    if outputs == [] then 0
    else LineTotal(outputs[..|outputs| - 1]) + CountChar(outputs[|outputs| - 1], '\n') + 1
  }

  /** When no parse raises, the summary's `count` is the number of lines of all outputs together. */
  lemma CountTotal(outputs: seq<string>)
    requires forall k :: 0 <= k < |outputs| ==> Parsed(outputs[k]).Some?
    ensures Total(ParseEach(outputs), Count) == LineTotal(outputs)
  {
    var segments := ParseEach(outputs);
    forall k | 0 <= k < |outputs|
      ensures segments[k].Some? && segments[k].value.count == CountChar(outputs[k], '\n') + 1
    {
      ParsedCount(outputs[k]);
    }
    LinesCounted(segments, outputs);
  }

  /** A segment whose parse does not raise counts one line per piece of its output. */
  lemma ParsedCount(output: string)
    requires Parsed(output).Some?
    ensures Parsed(output).value.count == CountChar(output, '\n') + 1
  {
    ParseCounts(Init(), output);
  }

  /** Segments that each count the lines of their output add up to the lines of all outputs. */
  lemma {:induction false} LinesCounted(segments: seq<Option<Stats>>, outputs: seq<string>)
    requires |segments| == |outputs|
    requires forall k :: 0 <= k < |outputs| ==>
               segments[k].Some? && segments[k].value.count == CountChar(outputs[k], '\n') + 1
    ensures Total(segments, Count) == LineTotal(outputs)
    decreases |outputs|
  {
    if outputs != [] {
      var last := |outputs| - 1;
      LinesCounted(segments[..last], outputs[..last]);
    }
  }

  /** The overall record keeps n_other balanced against `count` when every segment does. */
  lemma {:induction false} MergeAllBalanced(segments: seq<Option<Stats>>)
    requires MergeAll(segments).Some?
    requires forall k :: 0 <= k < |segments| && segments[k].Some? ==> Balanced(segments[k].value)
    ensures Balanced(MergeAll(segments).value)
    decreases |segments|
  {
    if segments != [] {
      var prefix := segments[..|segments| - 1];
      MergeAllBalanced(prefix);
      MergeBalanced(MergeAll(prefix).value, segments[|segments| - 1].value);
    }
  }

  /** The printed summary's n_other balances its record kinds against its `count`. */
  lemma SummaryBalanced(outputs: seq<string>)
    requires Summary(ParseEach(outputs)).Some?
    ensures Balanced(Summary(ParseEach(outputs)).value)
  {
    var segments := ParseEach(outputs);
    forall k | 0 <= k < |segments| && segments[k].Some?
      ensures Balanced(segments[k].value)
    {
      ParseBalanced(Init(), outputs[k]);
    }
    MergeAllBalanced(segments);
  }

  /** `dict.update` over the segments: the overall table holds exactly the relations some segment holds. */
  lemma {:induction false} MergeAllKeys(segments: seq<Option<Stats>>, r: string)
    requires MergeAll(segments).Some?
    ensures r in MergeAll(segments).value.relations <==>
              exists k :: 0 <= k < |segments| && segments[k].Some? && r in segments[k].value.relations
    decreases |segments|
  {
    if segments != [] {
      var last := |segments| - 1;
      var prefix := segments[..last];
      MergeAllKeys(prefix, r);
      MergeTable(MergeAll(prefix).value, segments[last].value);
      assert forall k :: 0 <= k < |prefix| ==> prefix[k] == segments[k];
    }
  }

  /**
   * `dict.update` over the segments: a relation's page map in the overall table is the one of
   * the last segment holding the relation.
   */
  lemma {:induction false} MergeAllLastWins(segments: seq<Option<Stats>>, r: string, k: nat)
    requires MergeAll(segments).Some?
    requires k < |segments| && segments[k].Some? && r in segments[k].value.relations
    requires forall j :: k < j < |segments| && segments[j].Some? ==> r !in segments[j].value.relations
    ensures r in MergeAll(segments).value.relations
    ensures MergeAll(segments).value.relations[r] == segments[k].value.relations[r]
    decreases |segments|
  {
    var last := |segments| - 1;
    var prefix := segments[..last];
    MergeTable(MergeAll(prefix).value, segments[last].value);
    if k < last {
      assert prefix[k] == segments[k];
      MergeAllLastWins(prefix, r, k);
    }
  }
}
