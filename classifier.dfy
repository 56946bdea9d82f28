/**
 * The per-line patterns of `parse_xlogdump_output`: ten literal searches and the two
 * anchored patterns that pick a relation/page reference and a backup-block bitmap out of a line.
 *
 * The two anchored patterns are `.*rel\ [0-9]*\/[0-9]*\/([0-9]*).*tid\ ([0-9]*).*` and
 * `.*bkp:\ ([0-9])([0-9])([0-9])([0-9]).*`, applied with `pattern.match(line, re.M|re.I)`.
 * The flags value `re.M|re.I` (8 | 2) lands in the `pos` parameter, so both are matched from
 * offset 10. The leading `.*` is greedy, so the match binds at the LAST start offset from which
 * the rest of the pattern can match; `[0-9]*` is greedy and, being followed by `/`, by `.*` or by
 * the end of the pattern, always takes the longest run of digits.
 */
module LineClassifier {
  import opened Text

  const HEAP: string := " Heap "
  const HEAP2: string := " Heap2"
  const BTREE: string := " Btree"
  const TRANSACTION: string := " Transaction"
  const INSERT: string := " insert"
  const UPDATE: string := " update"
  const HOT_UPDATE: string := " hotupdate"
  const DELETE: string := " delete"
  const COMMIT: string := " commit"
  const ABORT: string := " abort"

  /** Offset from which both anchored patterns are matched: the value of `re.M|re.I`. */
  const MATCH_POS: nat := 10

  /** s[i..j] consists of decimal digits. */
  predicate Digits(s: string, i: nat, j: nat) {
    i <= j <= |s| && forall k :: i <= k < j ==> IsDigit(s[k])
  }

  /** s[i..j] is what a greedy `[0-9]*` takes at i: digits, and no digit right after. */
  predicate MaximalDigits(s: string, i: nat, j: nat) {
    Digits(s, i, j) && (j == |s| || !IsDigit(s[j]))
  }

  function DigitRunEnd(s: string, i: nat): (j: nat)
    requires i <= |s|
    ensures MaximalDigits(s, i, j)
    decreases |s| - i
  {
    if i < |s| && IsDigit(s[i]) then DigitRunEnd(s, i + 1) else i
  }

  // `rel [0-9]*\/[0-9]*\/` read at offset p, with its two slashes at a and b.
  predicate RelPrefix(s: string, p: nat, a: nat, b: nat) {
    && OccursAt(s, "rel ", p)
    && Digits(s, p + 4, a) && a < |s| && s[a] == '/'
    && Digits(s, a + 1, b) && b < |s| && s[b] == '/'
  }

  /** Offsets inside one `rel A/B/C` token: the two slashes and the end of C. */
  datatype RelPath = RelPath(slash1: nat, slash2: nat, end: nat)

  /** `rel [0-9]*\/[0-9]*\/([0-9]*)` read at offset p; the captured group is s[slash2 + 1..end]. */
  function RelPathAt(s: string, p: nat): Option<RelPath> {
    if !OccursAt(s, "rel ", p) then None
    else
      var a := DigitRunEnd(s, p + 4);
      if a == |s| || s[a] != '/' then None
      else
        var b := DigitRunEnd(s, a + 1);
        if b == |s| || s[b] != '/' then None
        else Some(RelPath(a, b, DigitRunEnd(s, b + 1)))
  }

  /**
   * RelPathAt reads the token exactly when `rel ` and two slash-terminated digit runs start at p,
   * with the slashes where the greedy runs end and the captured group a maximal digit run.
   */
  lemma RelPathAtSpec(s: string, p: nat)
    ensures var r := RelPathAt(s, p);
      && (r.Some? ==> RelPrefix(s, p, r.value.slash1, r.value.slash2))
      && (r.Some? ==> MaximalDigits(s, r.value.slash2 + 1, r.value.end))
      && (forall a, b :: RelPrefix(s, p, a, b) ==> r.Some? && a == r.value.slash1 && b == r.value.slash2)
  {
    if OccursAt(s, "rel ", p) {
      var a := DigitRunEnd(s, p + 4);
      if a < |s| && s[a] == '/' {
        var b := DigitRunEnd(s, a + 1);
        assert forall a', b' :: RelPrefix(s, p, a', b') ==> a' == a && b' == b by {
          forall a', b' | RelPrefix(s, p, a', b')
            ensures a' == a && b' == b
          {
            DigitsEnd(s, p + 4, a', a);
            DigitsEnd(s, a + 1, b', b);
          }
        }
      } else {
        forall a': nat, b': nat
          ensures !RelPrefix(s, p, a', b')
        {
          if Digits(s, p + 4, a') && a' < |s| && s[a'] == '/' {
            DigitsEnd(s, p + 4, a', a);
          }
        }
      }
    }
  }

  /** A digit run ending in a non-digit ends where the greedy run ends. */
  lemma DigitsEnd(s: string, i: nat, j: nat, k: nat)
    requires Digits(s, i, j) && j < |s| && !IsDigit(s[j])
    requires MaximalDigits(s, i, k)
    ensures j == k
  {
  }

  /** The last offset q in [lo, hi) at which `pat` occurs. */
  function LastOccurrence(s: string, pat: string, lo: nat, hi: nat): (r: Option<nat>)
    ensures r.Some? ==> lo <= r.value < hi && OccursAt(s, pat, r.value)
    ensures r.Some? ==> forall q: nat :: r.value < q < hi ==> !OccursAt(s, pat, q)
    ensures r.None? ==> forall q: nat :: lo <= q < hi ==> !OccursAt(s, pat, q)
    decreases hi
  {
    if hi <= lo then None
    else if OccursAt(s, pat, hi - 1) then Some(hi - 1)
    else LastOccurrence(s, pat, lo, hi - 1)
  }

  /** The page pattern matches with its `rel ` at offset p and its `tid ` at offset q. */
  predicate PageMatchAt(s: string, p: nat, q: nat) {
    && MATCH_POS <= p
    && RelPathAt(s, p).Some?
    && RelPathAt(s, p).value.end <= q
    && OccursAt(s, "tid ", q)
  }

  /** Where a match of the page pattern puts its `rel ` and its `tid `. */
  datatype Hit = Hit(rel: nat, tid: nat)

  /** The binding `re_page.match(line, 10)` makes: the greatest viable `rel ` offset, then the greatest `tid ` offset. */
  function PageMatch(s: string): Option<Hit> {
    PageMatchBelow(s, |s|)
  }

  /** PageMatch finds a match exactly when there is one, and the one it finds is the greatest. */
  lemma PageMatchSpec(s: string)
    ensures var r := PageMatch(s);
      && (r.Some? ==> PageMatchAt(s, r.value.rel, r.value.tid))
      && (r.Some? ==> forall p: nat, q: nat :: PageMatchAt(s, p, q) ==>
                        p < r.value.rel || (p == r.value.rel && q <= r.value.tid))
      && (r.None? ==> forall p: nat, q: nat :: !PageMatchAt(s, p, q))
  {
    PageMatchBelowGreatest(s, |s|);
  }

  /** PageMatch restricted to `rel ` offsets below hi. */
  function PageMatchBelow(s: string, hi: nat): Option<Hit>
    decreases hi
  {
    if hi <= MATCH_POS then None
    else
      var p := hi - 1;
      match RelPathAt(s, p)
      case None => PageMatchBelow(s, p)
      case Some(path) =>
        match LastOccurrence(s, "tid ", path.end, |s|)
        case Some(q) => Some(Hit(p, q))
        case None => PageMatchBelow(s, p)
  }

  /** What PageMatchBelow promises for offsets below hi. */
  ghost predicate GreatestBelow(s: string, hi: nat, r: Option<Hit>) {
    && (r.Some? ==> r.value.rel < hi && PageMatchAt(s, r.value.rel, r.value.tid))
    && (r.Some? ==> forall p: nat, q: nat :: p < hi && PageMatchAt(s, p, q) ==>
                      p < r.value.rel || (p == r.value.rel && q <= r.value.tid))
    && (r.None? ==> forall p: nat, q: nat :: p < hi ==> !PageMatchAt(s, p, q))
  }

  /** Which `tid ` offsets can complete a match whose `rel ` is at p. */
  lemma TidsAt(s: string, p: nat)
    requires MATCH_POS <= p
    ensures RelPathAt(s, p).None? ==> forall q: nat :: !PageMatchAt(s, p, q)
    ensures RelPathAt(s, p).Some? ==>
      var t := LastOccurrence(s, "tid ", RelPathAt(s, p).value.end, |s|);
      && (t.None? ==> forall q: nat :: !PageMatchAt(s, p, q))
      && (t.Some? ==> PageMatchAt(s, p, t.value) && forall q: nat :: PageMatchAt(s, p, q) ==> q <= t.value)
  {
  }

  /** No match has its `rel ` at p, so the greatest match below p is the greatest below hi = p + 1. */
  lemma GreatestSkips(s: string, p: nat, hi: nat, r: Option<Hit>)
    requires hi == p + 1
    requires GreatestBelow(s, p, r)
    requires forall q: nat :: !PageMatchAt(s, p, q)
    ensures GreatestBelow(s, hi, r)
  {
    if r.Some? {
      forall p': nat, q: nat | p' < hi && PageMatchAt(s, p', q)
        ensures p' < r.value.rel || (p' == r.value.rel && q <= r.value.tid)
      {
        assert p' < p;
      }
    } else {
      forall p': nat, q: nat | p' < hi
        ensures !PageMatchAt(s, p', q)
      {
        if p' < p {
        }
      }
    }
  }

  /** A match at p with the greatest `tid ` for p beats every match below hi = p + 1. */
  lemma GreatestAt(s: string, p: nat, hi: nat)
    requires hi == p + 1
    requires PageMatchBelow(s, hi).Some? && PageMatchBelow(s, hi).value.rel == p
    requires var t := PageMatchBelow(s, hi).value.tid;
      PageMatchAt(s, p, t) && forall q: nat :: PageMatchAt(s, p, q) ==> q <= t
    ensures GreatestBelow(s, hi, PageMatchBelow(s, hi))
  {
  }

  /**
   * One step of PageMatchBelow below hi = p + 1: either no match has its `rel ` at p and the
   * search goes on below p, or it stops at p with the greatest `tid ` for p.
   */
  lemma StepAt(s: string, p: nat, hi: nat) returns (skip: bool)
    requires MATCH_POS <= p && hi == p + 1
    ensures skip ==> PageMatchBelow(s, hi) == PageMatchBelow(s, p) && forall q: nat :: !PageMatchAt(s, p, q)
    ensures !skip ==> PageMatchBelow(s, hi).Some? && PageMatchBelow(s, hi).value.rel == p
    ensures !skip ==> var t := PageMatchBelow(s, hi).value.tid;
      PageMatchAt(s, p, t) && forall q: nat :: PageMatchAt(s, p, q) ==> q <= t
  {
    TidsAt(s, p);
    match RelPathAt(s, p) {
      case None =>
        skip := true;
      case Some(path) =>
        skip := LastOccurrence(s, "tid ", path.end, |s|).None?;
    }
  }

  lemma {:induction false} PageMatchBelowGreatest(s: string, hi: nat)
    ensures GreatestBelow(s, hi, PageMatchBelow(s, hi))
    decreases hi
  {
    if hi > MATCH_POS {
      var p := hi - 1;
      PageMatchBelowGreatest(s, p);
      var skip := StepAt(s, p, hi);
      if skip {
        GreatestSkips(s, p, hi, PageMatchBelow(s, p));
      } else {
        GreatestAt(s, p, hi);
      }
    }
  }

  /** The two groups of the page pattern: the third component after `rel ` and the number after `tid `. */
  datatype PageRef = PageRef(relation: string, page: string)

  /** `rel_match.group(1)` and `rel_match.group(2)`, or None when the line does not match. */
  function ExtractPage(line: string): Option<PageRef>
    requires '\n' !in line
  {
    match PageMatch(line)
    case None => None
    case Some(h) =>
      PageMatchSpec(line);
      Some(Groups(line, h))
  }

  /** The two groups of a match whose `rel ` is at h.rel and whose `tid ` is at h.tid. */
  function Groups(line: string, h: Hit): PageRef
    requires PageMatchAt(line, h.rel, h.tid)
  {
    RelPathAtSpec(line, h.rel);
    var path := RelPathAt(line, h.rel).value;
    PageRef(line[path.slash2 + 1..path.end], line[h.tid + 4..DigitRunEnd(line, h.tid + 4)])
  }

  /**
   * Group 1 is the third number of the `rel` token the match binds, group 2 the whole (greedy)
   * digit run after its `tid `.
   */
  lemma GroupsSpec(line: string, h: Hit)
    requires PageMatchAt(line, h.rel, h.tid)
    ensures var start, relation := RelPathAt(line, h.rel).value.slash2 + 1, Groups(line, h).relation;
      MaximalDigits(line, start, start + |relation|) && OccursAt(line, relation, start)
    ensures var page := Groups(line, h).page;
      MaximalDigits(line, h.tid + 4, h.tid + 4 + |page|) && OccursAt(line, page, h.tid + 4)
  {
    RelPathAtSpec(line, h.rel);
  }

  /**
   * The page pattern yields groups exactly when it matches somewhere from offset 10 on, and then
   * they are the groups of the greatest match.
   */
  lemma ExtractPageSpec(line: string)
    requires '\n' !in line
    ensures ExtractPage(line).Some? <==> exists p: nat, q: nat :: PageMatchAt(line, p, q)
    ensures ExtractPage(line).Some? <==> PageMatch(line).Some?
    ensures ExtractPage(line).Some? ==>
      var h := PageMatch(line).value;
      PageMatchAt(line, h.rel, h.tid) && ExtractPage(line).value == Groups(line, h)
  {
    PageMatchSpec(line);
  }

  /** The backup pattern matches with its `bkp: ` at offset p. */
  predicate BkpMatchAt(s: string, p: nat) {
    MATCH_POS <= p && OccursAt(s, "bkp: ", p) && Digits(s, p + 5, p + 9)
  }

  /** The binding `re_bkp.match(line, 10)` makes: the greatest viable `bkp: ` offset. */
  function BkpMatch(s: string): (r: Option<nat>)
    ensures r.Some? ==> BkpMatchAt(s, r.value) && forall p: nat :: BkpMatchAt(s, p) ==> p <= r.value
    ensures r.None? ==> forall p: nat :: !BkpMatchAt(s, p)
  {
    BkpMatchBelow(s, |s|)
  }

  function BkpMatchBelow(s: string, hi: nat): (r: Option<nat>)
    requires hi <= |s|
    ensures r.Some? ==> r.value < hi && BkpMatchAt(s, r.value)
    ensures r.Some? ==> forall p: nat :: p < hi && BkpMatchAt(s, p) ==> p <= r.value
    ensures r.None? ==> forall p: nat :: p < hi ==> !BkpMatchAt(s, p)
    decreases hi
  {
    if hi <= MATCH_POS then None
    else if BkpMatchAt(s, hi - 1) then Some(hi - 1)
    else BkpMatchBelow(s, hi - 1)
  }

  /** The four groups of the backup pattern, or None when the line does not match. */
  function ExtractBkp(line: string): Option<string>
    requires '\n' !in line
  {
    match BkpMatch(line)
    case None => None
    case Some(p) => Some(line[p + 5..p + 9])
  }

  /** The backup pattern yields four digits exactly when `bkp: ` and four digits occur from offset 10 on. */
  lemma ExtractBkpSpec(line: string)
    requires '\n' !in line
    ensures var r := ExtractBkp(line);
      && (r.Some? <==> exists p: nat :: BkpMatchAt(line, p))
      && (r.Some? ==> |r.value| == 4 && forall k :: 0 <= k < 4 ==> IsDigit(r.value[k]))
      && (r.Some? ==> OccursAt(line, "bkp: " + r.value, BkpMatch(line).value))
  {
  }
}
