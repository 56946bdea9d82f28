/** Text primitives: the parts of Python's `str` and `re` that the analyzer relies on. */
module Text {

  datatype Option<+T> = None | Some(value: T)

  predicate IsDigit(c: char) {
    '0' <= c <= '9'
  }

  /** `pat` occurs in `s` starting at offset `i`. */
  predicate OccursAt(s: string, pat: string, i: nat) {
    i + |pat| <= |s| && s[i..i + |pat|] == pat
  }

  /** Substring search for a literal pattern (`re.compile(literal).search(s)` succeeds). */
  function Contains(s: string, pat: string): bool {
    ContainsFrom(s, pat, 0)
  }

  /** `pat` occurs in `s` at some offset from lo on. */
  function ContainsFrom(s: string, pat: string, lo: nat): bool
    decreases |s| - lo
  {
    if lo + |pat| > |s| then false
    else OccursAt(s, pat, lo) || ContainsFrom(s, pat, lo + 1)
  }

  /** The search succeeds exactly when the pattern occurs at some offset. */
  lemma ContainsIff(s: string, pat: string)
    ensures Contains(s, pat) <==> exists i: nat :: OccursAt(s, pat, i)
  {
    ContainsFromIff(s, pat, 0);
  }

  lemma {:induction false} ContainsFromIff(s: string, pat: string, lo: nat)
    ensures ContainsFrom(s, pat, lo) <==> exists i: nat :: lo <= i && OccursAt(s, pat, i)
    decreases |s| - lo
  {
    if lo + |pat| <= |s| {
      ContainsFromIff(s, pat, lo + 1);
      if !OccursAt(s, pat, lo) {
        forall i: nat | lo <= i && OccursAt(s, pat, i) ensures lo + 1 <= i {
        }
      }
    }
  }

  /** Number of occurrences of the character `c` in `s`. */
  function CountChar(s: string, c: char): (n: nat)
    ensures n <= |s|
    ensures n == 0 <==> c !in s
  {
    if s == [] then 0
    else CountChar(s[1..], c) + (if s[0] == c then 1 else 0)
  }

  lemma {:induction false} CountCharAppend(s: string, t: string, c: char)
    ensures CountChar(s + t, c) == CountChar(s, c) + CountChar(t, c)
  {
    if s != [] {
      assert (s + t)[1..] == s[1..] + t;
      CountCharAppend(s[1..], t, c);
    } else {
      assert s + t == t;
    }
  }

  /** Python's `s.split("\n")`: the pieces between newlines, the empty ones included. */
  function Split(s: string): (lines: seq<string>)
    ensures |lines| == CountChar(s, '\n') + 1
  {
    if s == [] then [[]]
    else
      var rest := Split(s[1..]);
      if s[0] == '\n' then [[]] + rest
      else [[s[0]] + rest[0]] + rest[1..]
  }

  /** No piece holds a newline. */
  lemma {:induction false} SplitPieces(s: string)
    ensures forall k :: 0 <= k < |Split(s)| ==> '\n' !in Split(s)[k]
  {
    if s != [] {
      SplitPieces(s[1..]);
      var rest := Split(s[1..]);
      if s[0] != '\n' {
        assert Split(s) == [[s[0]] + rest[0]] + rest[1..];
        assert '\n' !in [s[0]] + rest[0];
      }
    }
  }

  /** Python's `"\n".join(lines)`. */
  function Join(lines: seq<string>): string {
    if |lines| == 0 then []
    else if |lines| == 1 then lines[0]
    else lines[0] + "\n" + Join(lines[1..])
  }

  /** Splitting loses nothing: joining the pieces again gives back the text. */
  lemma {:induction false} JoinSplit(s: string)
    ensures Join(Split(s)) == s
  {
    if s != [] {
      var rest := Split(s[1..]);
      JoinSplit(s[1..]);
      if s[0] == '\n' {
        assert Split(s) == [[]] + rest;
        assert ([[]] + rest)[1..] == rest;
      } else {
        var lines := [[s[0]] + rest[0]] + rest[1..];
        assert Split(s) == lines;
        if |rest| == 1 {
          assert Join(lines) == [s[0]] + rest[0];
        } else {
          assert lines[1..] == rest[1..];
          assert Join(rest) == rest[0] + "\n" + Join(rest[1..]);
        }
      }
    }
  }

  /** Joining newline-free pieces and splitting again gives back exactly those pieces. */
  lemma {:induction false} SplitJoin(lines: seq<string>)
    requires |lines| >= 1
    requires forall k :: 0 <= k < |lines| ==> '\n' !in lines[k]
    ensures Split(Join(lines)) == lines
  {
    if |lines| == 1 {
      SplitNoNewline(lines[0], []);
      assert lines[0] + [] == lines[0];
    } else {
      var tail := lines[1..];
      SplitJoin(tail);
      var t := "\n" + Join(tail);
      assert Join(lines) == lines[0] + t;
      SplitNoNewline(lines[0], t);
      assert t[1..] == Join(tail);
      assert Split(t) == [[]] + Split(t[1..]);
      assert Split(t)[0] == [] && Split(t)[1..] == tail;
      assert lines[0] + [] == lines[0];
      assert lines == [lines[0]] + tail;
    }
  }

  /** A newline-free prefix extends the first piece and leaves the others alone. */
  lemma {:induction false} SplitNoNewline(w: string, t: string)
    requires '\n' !in w
    ensures Split(w + t) == [w + Split(t)[0]] + Split(t)[1..]
  {
    if w == [] {
      var lines := Split(t);
      assert w + t == t && w + lines[0] == lines[0];
      assert lines == [lines[0]] + lines[1..];
    } else {
      var u := w[1..] + t;
      assert w[0] in w;
      assert w + t == [w[0]] + u;
      SplitNoNewline(w[1..], t);
      SplitCons(w[0], u);
      Regroup(w, Split(t)[0]);
    }
  }

  lemma Regroup(w: string, x: string)
    requires w != []
    ensures [w[0]] + (w[1..] + x) == w + x
  {
    assert w == [w[0]] + w[1..];
  }

  /** A character other than a newline joins the first piece. */
  lemma SplitCons(c: char, u: string)
    requires c != '\n'
    ensures Split([c] + u) == [[c] + Split(u)[0]] + Split(u)[1..]
  {
    assert ([c] + u)[1..] == u;
  }

  /** A trailing newline leaves an empty last piece, which is kept. */
  lemma {:induction false} TrailingNewline(s: string)
    requires |s| > 0 && s[|s| - 1] == '\n'
    ensures Split(s)[|Split(s)| - 1] == []
  {
    if |s| > 1 {
      TrailingNewline(s[1..]);
    }
  }
}
