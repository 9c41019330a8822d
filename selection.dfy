/**
 * Choosing the summary sentences: how many (`max(1, int(N * 0.3))`) and which
 * (the highest scores, as a stable descending sort followed by a prefix, so
 * that among equal scores the earlier sentence comes first).
 */
module Selection {

  /**
   * The number of sentences to select, `max(1, int(n * 0.3))`, with the
   * product taken as the exact `3 * n / 10`.
   */
  function SelectCount(n: nat): (k: nat)
    ensures k >= 1
    ensures n >= 1 ==> k <= n
    ensures n >= 4 ==> 10 * k <= 3 * n < 10 * (k + 1)
    ensures n < 4 ==> k == 1
  {
    var f := (3 * n) / 10;
    if f > 1 then f else 1
  }

  /** Sentence `a` is ranked ahead of `b`: a higher score, or an equal score and an earlier position. */
  predicate Before(s: seq<real>, a: nat, b: nat)
    requires a < |s| && b < |s|
  {
    s[a] > s[b] || (s[a] == s[b] && a < b)
  }

  /** `xs` lists positions of `s` in strictly descending rank, each at most once. */
  predicate Ranked(s: seq<real>, xs: seq<nat>)
  {
    && (forall p :: 0 <= p < |xs| ==> xs[p] < |s|)
    && (forall p, q :: 0 <= p < q < |xs| ==> Before(s, xs[p], xs[q]))
  }

  /** Places position `i` into a ranked list after every position ranked ahead of it. */
  function Insert(s: seq<real>, i: nat, xs: seq<nat>): (r: seq<nat>)
    requires i < |s| && i !in xs
    requires Ranked(s, xs)
    ensures |r| == |xs| + 1
    ensures forall x :: x in r <==> x in xs || x == i
    ensures Ranked(s, r)
  {
    if |xs| == 0 then [i]
    else if Before(s, i, xs[0]) then
      assert forall q :: 0 <= q < |xs| ==> Before(s, i, xs[q]) by {
        forall q | 0 <= q < |xs| ensures Before(s, i, xs[q]) {
          if q > 0 { assert Before(s, xs[0], xs[q]); }
        }
      }
      [i] + xs
    else
      var rest := Insert(s, i, xs[1..]);
      assert Before(s, xs[0], i);
      assert forall x :: x in rest ==> Before(s, xs[0], x) by {
        forall x | x in rest ensures Before(s, xs[0], x) {
          if x != i {
            var q :| 0 <= q < |xs[1..]| && xs[1..][q] == x;
            assert Before(s, xs[0], xs[q + 1]);
          }
        }
      }
      [xs[0]] + rest
  }

  /** All positions below `n`, in descending rank: a stable sort of them by score, descending. */
  function Rank(s: seq<real>, n: nat): (r: seq<nat>)
    requires n <= |s|
    ensures |r| == n
    ensures forall x: int :: x in r <==> 0 <= x < n
    ensures Ranked(s, r)
  {
    if n == 0 then [] else Insert(s, n - 1, Rank(s, n - 1))
  }

  /**
   * `heapq.nlargest(k, ...)`: the first `k` positions (or all, if fewer) in
   * descending rank; they are distinct positions of `s`, in non-increasing
   * score order with earlier positions first among equal scores.
   */
  function TopK(s: seq<real>, k: nat): (t: seq<nat>)
    ensures |t| == if k <= |s| then k else |s|
    ensures Ranked(s, t)
  {
    var r := Rank(s, |s|);
    if k <= |s| then r[..k] else r
  }

  /** Ranked lists hold no position twice. */
  lemma RankedDistinct(s: seq<real>, xs: seq<nat>)
    requires Ranked(s, xs)
    ensures forall p, q :: 0 <= p < q < |xs| ==> xs[p] != xs[q]
  {
  }

  /** Every selected position is ranked ahead of every position of `s` left out. */
  lemma TopKBeatsRest(s: seq<real>, k: nat, x: nat, y: nat)
    requires x in TopK(s, k) && y !in TopK(s, k) && y < |s|
    ensures s[x] > s[y] || (s[x] == s[y] && x < y)
  {
    var r := Rank(s, |s|);
    var t := TopK(s, k);
    var p :| 0 <= p < |t| && t[p] == x;
    assert y in r;
    var q :| 0 <= q < |r| && r[q] == y;
    assert r[p] == x;
    assert Before(s, r[p], r[q]);
  }

  /** A single sentence is always selected on its own. */
  lemma TopKSingle(s: seq<real>)
    requires |s| == 1
    ensures TopK(s, SelectCount(1)) == [0]
  {
    var r := Rank(s, 1);
    assert 0 in r;
  }
}
