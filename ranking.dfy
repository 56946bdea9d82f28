/**
 * The ranking part of `print_top_n_relations`: the entries of the relation table sorted by
 * number of distinct pages, largest first, and the loop that takes entries from the front
 * while its index is at most n.
 *
 * `relations.items()` of a Python 2 dict comes in an unspecified order, so every statement
 * here holds for any enumeration of the table (Enumerates).
 */
module Ranking {
  import opened Statistics

  /** One `(rel, pages)` pair of `relations.items()`. */
  type Item = (string, Pages)

  /** The sort key `len(x[1])`: the number of distinct pages of the relation. */
  function Key(item: Item): nat {
    |item.1|
  }

  /** items lists every entry of rels exactly once, in some order. */
  ghost predicate Enumerates(items: seq<Item>, rels: Relations) {
    && |items| == |rels|
    && (forall k :: 0 <= k < |items| ==> items[k].0 in rels && rels[items[k].0] == items[k].1)
    && (forall j, k :: 0 <= j < k < |items| ==> items[j].0 != items[k].0)
  }

  /** Largest key first. */
  predicate NonIncreasing(s: seq<Item>) {
    forall j, k :: 0 <= j < k < |s| ==> Key(s[j]) >= Key(s[k])
  }

  /** Places x before the first entry whose key is not larger, keeping x ahead of its equals. */
  function Insert(x: Item, s: seq<Item>): seq<Item> {
    if s == [] || Key(s[0]) <= Key(x) then [x] + s
    else [s[0]] + Insert(x, s[1..])
  }

  /** Inserting adds x and loses nothing. */
  lemma {:induction false} InsertPermutes(x: Item, s: seq<Item>)
    ensures multiset(Insert(x, s)) == multiset(s) + multiset{x}
    ensures |Insert(x, s)| == |s| + 1
  {
    if s != [] && Key(s[0]) > Key(x) {
      InsertPermutes(x, s[1..]);
      assert s == [s[0]] + s[1..];
    }
  }

  /** Inserting into a ranked sequence leaves it ranked, headed by x or by the old head. */
  lemma {:induction false} InsertSorted(x: Item, s: seq<Item>)
    requires NonIncreasing(s)
    ensures NonIncreasing(Insert(x, s))
    ensures Insert(x, s)[0] == x || (s != [] && Insert(x, s)[0] == s[0])
  {
    if s == [] || Key(s[0]) <= Key(x) {
      ConsNonIncreasing(x, s);
    } else {
      var tail := s[1..];
      assert NonIncreasing(tail) by {
        forall j, k | 0 <= j < k < |tail|
          ensures Key(tail[j]) >= Key(tail[k])
        {
          assert tail[j] == s[j + 1] && tail[k] == s[k + 1];
        }
      }
      InsertSorted(x, tail);
      var rest := Insert(x, tail);
      assert Key(s[0]) >= Key(rest[0]) by {
        if rest[0] != x {
          assert rest[0] == s[1];
        }
      }
      ConsNonIncreasing(s[0], rest);
    }
  }

  /** An entry whose key is at least that of the head of a ranked sequence can go in front. */
  lemma ConsNonIncreasing(y: Item, s: seq<Item>)
    requires NonIncreasing(s)
    requires s != [] ==> Key(y) >= Key(s[0])
    ensures NonIncreasing([y] + s)
  {
    var r := [y] + s;
    forall j, k | 0 <= j < k < |r|
      ensures Key(r[j]) >= Key(r[k])
    {
      if j == 0 && k > 1 {
        assert Key(s[0]) >= Key(s[k - 1]);
      }
    }
  }

  /**
   * `sorted(items, key=lambda x: len(x[1]), reverse=True)`: a stable sort by descending key,
   * so entries with the same key keep their order in `items`.
   */
  function SortByPages(items: seq<Item>): seq<Item> {
    if items == [] then [] else Insert(items[0], SortByPages(items[1..]))
  }

  /** The sort ranks the entries, largest key first. */
  lemma {:induction false} SortRanks(items: seq<Item>)
    ensures NonIncreasing(SortByPages(items))
  {
    if items != [] {
      SortRanks(items[1..]);
      InsertSorted(items[0], SortByPages(items[1..]));
    }
  }

  /** The sort is a permutation of the entries. */
  lemma {:induction false} SortPermutes(items: seq<Item>)
    ensures multiset(SortByPages(items)) == multiset(items)
    ensures |SortByPages(items)| == |items|
  {
    if items != [] {
      SortPermutes(items[1..]);
      InsertPermutes(items[0], SortByPages(items[1..]));
      assert items == [items[0]] + items[1..];
    }
  }

  /** Number of entries the loop `for i, … in enumerate(ranked): if i > n: break` lets through. */
  function Limit(n: int, len: nat): nat {
    if n < 0 then 0 else if n + 1 < len then n + 1 else len
  }

  /**
   * The loop of `print_top_n_relations` with its output collected instead of printed: the
   * relfilenode and `len(pages)` of each entry it reaches.
   */
  method TopN(ranked: seq<Item>, n: int) returns (top: seq<(string, nat)>)
    ensures |top| == Limit(n, |ranked|)
    ensures forall k :: 0 <= k < |top| ==> top[k] == (ranked[k].0, Key(ranked[k]))
  {
    top := [];
    for i := 0 to |ranked|
      invariant |top| == Limit(n, i)
      invariant forall k :: 0 <= k < |top| ==> top[k] == (ranked[k].0, Key(ranked[k]))
    {
      if i > n {
        break;
      }
      top := top + [(ranked[i].0, Key(ranked[i]))];
    }
  }

  /** The loop with `if i >= n: break`, which stops after n entries. */
  method TopNCorrected(ranked: seq<Item>, n: int) returns (top: seq<(string, nat)>)
    ensures |top| == (if n < 0 then 0 else if n < |ranked| then n else |ranked|)
    ensures forall k :: 0 <= k < |top| ==> top[k] == (ranked[k].0, Key(ranked[k]))
  {
    top := [];
    for i := 0 to |ranked|
      invariant |top| == (if n < 0 then 0 else if n < i then n else i)
      invariant forall k :: 0 <= k < |top| ==> top[k] == (ranked[k].0, Key(ranked[k]))
    {
      if i >= n {
        break;
      }
      top := top + [(ranked[i].0, Key(ranked[i]))];
    }
  }

  /**
   * Asked for the top n relations of a table holding more than n of them, the loop prints
   * n + 1, one more than the docstring's "list (of length n)".
   */
  lemma LimitOneTooMany(n: int, len: nat)
    requires 0 <= n < len
    ensures Limit(n, len) == n + 1
  {
  }

  /** Enumerating the table and sorting it lists each relation once with its own pages. */
  lemma RankedEnumerates(items: seq<Item>, rels: Relations)
    requires Enumerates(items, rels)
    ensures var ranked := SortByPages(items);
      && (forall k :: 0 <= k < |ranked| ==> ranked[k].0 in rels && rels[ranked[k].0] == ranked[k].1)
      && (forall r :: r in rels ==> exists k :: 0 <= k < |ranked| && ranked[k].0 == r)
      && (forall j, k :: 0 <= j < k < |ranked| ==> ranked[j].0 != ranked[k].0)
  {
    var ranked := SortByPages(items);
    SortPermutes(items);
    forall k | 0 <= k < |ranked|
      ensures ranked[k].0 in rels && rels[ranked[k].0] == ranked[k].1
    {
      assert ranked[k] in multiset(items);
    }
    forall r | r in rels
      ensures exists k :: 0 <= k < |ranked| && ranked[k].0 == r
    {
      var k := IndexOfKey(items, rels, r);
      assert items[k] in multiset(ranked);
      var j :| 0 <= j < |ranked| && ranked[j] == items[k];
    }
    forall j, k | 0 <= j < k < |ranked|
      ensures ranked[j].0 != ranked[k].0
    {
      if ranked[j].0 == ranked[k].0 {
        assert ranked[j] in multiset(items) && ranked[k] in multiset(items);
        assert ranked[j] == ranked[k];
        CountedTwice(ranked, j, k);
        CountedOnce(items, ranked[j]);
        assert false;
      }
    }
  }

  /** An entry at two positions of a sequence occurs at least twice in its multiset. */
  lemma CountedTwice(s: seq<Item>, j: nat, k: nat)
    requires j < k < |s| && s[j] == s[k]
    ensures multiset(s)[s[j]] >= 2
  {
    var x := s[j];
    assert s == s[..k] + [s[k]] + s[k + 1..];
    assert x in s[..k];
  }

  /** In an enumeration without repeated relations, every entry occurs at most once. */
  lemma {:induction false} CountedOnce(items: seq<Item>, x: Item)
    requires forall j, k :: 0 <= j < k < |items| ==> items[j].0 != items[k].0
    ensures multiset(items)[x] <= 1
    decreases |items|
  {
    if items != [] {
      var last := |items| - 1;
      var prefix := items[..last];
      assert items == prefix + [items[last]];
      CountedOnce(prefix, x);
      if items[last] == x {
        assert x !in prefix by {
          forall j | 0 <= j < |prefix| ensures prefix[j] != x {
            assert items[j].0 != items[last].0;
          }
        }
      }
    }
  }

  /** The relations an enumeration names. */
  ghost function Names(items: seq<Item>): set<string> {
    set k | 0 <= k < |items| :: items[k].0
  }

  /** An enumeration without repeated relations names as many relations as it has entries. */
  lemma {:induction false} NamesCount(items: seq<Item>)
    requires forall j, k :: 0 <= j < k < |items| ==> items[j].0 != items[k].0
    ensures |Names(items)| == |items|
  {
    if items != [] {
      var last := |items| - 1;
      var prefix := items[..last];
      NamesCount(prefix);
      assert Names(items) == Names(prefix) + {items[last].0};
      assert items[last].0 !in Names(prefix);
    }
  }

  /** The position of relation r in an enumeration of the table. */
  lemma IndexOfKey(items: seq<Item>, rels: Relations, r: string) returns (k: nat)
    requires Enumerates(items, rels) && r in rels
    ensures k < |items| && items[k].0 == r
  {
    NamesCount(items);
    if r !in Names(items) {
      var others := rels.Keys - {r};
      assert Names(items) <= others;
      SubsetCard(Names(items), others);
      assert false;
    }
    k :| 0 <= k < |items| && items[k].0 == r;
  }

  lemma {:induction false} SubsetCard(a: set<string>, b: set<string>)
    requires a <= b
    ensures |a| <= |b|
  {
    assert b == a + (b - a);
  }

  /**
   * What the ranking prints for the table, asked for n: the first Limit entries of the sorted
   * table, each relation at most once, and no relation left out has more distinct pages than
   * one printed.
   */
  lemma TopRelations(items: seq<Item>, rels: Relations, n: int, top: seq<(string, nat)>)
    requires Enumerates(items, rels)
    requires |top| == Limit(n, |rels|)
    requires forall k :: 0 <= k < |top| ==>
               k < |SortByPages(items)| && top[k] == (SortByPages(items)[k].0, Key(SortByPages(items)[k]))
    ensures forall k :: 0 <= k < |top| ==> top[k].0 in rels && top[k].1 == |rels[top[k].0]|
    ensures forall j, k :: 0 <= j < k < |top| ==> top[j].0 != top[k].0
    ensures forall j, k :: 0 <= j < k < |top| ==> top[j].1 >= top[k].1
    ensures forall r, k :: r in rels && 0 <= k < |top| && (forall j :: 0 <= j < |top| ==> top[j].0 != r) ==>
              |rels[r]| <= top[k].1
  {
    var ranked := SortByPages(items);
    SortRanks(items);
    RankedEnumerates(items, rels);
    forall r, k | r in rels && 0 <= k < |top|
      ensures (forall j :: 0 <= j < |top| ==> top[j].0 != r) ==> |rels[r]| <= top[k].1
    {
      var i :| 0 <= i < |ranked| && ranked[i].0 == r;
      if i < |top| {
        assert top[i].0 == r;
      } else {
        assert Key(ranked[k]) >= Key(ranked[i]);
      }
    }
  }

  /**
   * The ranking of `print_top_n_relations` end to end, for one enumeration of the table:
   * Limit(n, |rels|) distinct relations with their page counts, largest first, and none left
   * out that has more pages than one listed.
   */
  method RankRelations(items: seq<Item>, rels: Relations, n: int) returns (top: seq<(string, nat)>)
    requires Enumerates(items, rels)
    ensures |top| == Limit(n, |rels|)
    ensures forall k :: 0 <= k < |top| ==> top[k].0 in rels && top[k].1 == |rels[top[k].0]|
    ensures forall j, k :: 0 <= j < k < |top| ==> top[j].0 != top[k].0
    ensures forall j, k :: 0 <= j < k < |top| ==> top[j].1 >= top[k].1
    ensures forall r, k :: r in rels && 0 <= k < |top| && (forall j :: 0 <= j < |top| ==> top[j].0 != r) ==>
              |rels[r]| <= top[k].1
  {
    var ranked := SortByPages(items);
    SortPermutes(items);
    top := TopN(ranked, n);
    TopRelations(items, rels, n, top);
  }
}
