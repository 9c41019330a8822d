/**
 * Sentence scoring: the frequencies of a sentence's words in the table, plus a
 * positional bonus that favours earlier sentences. A sentence none of whose
 * tokens is in the table never gets a score entry, and adding the bonus to
 * the missing entry fails with a key error.
 */
module Scoring {
  import opened Wrappers
  import opened Document

  /** The failure the summarizer can raise: no score entry for this sentence (by position). */
  datatype SummaryError = MissingScore(sentence: nat)

  /** The sum of `freq` over the tokens whose lower-cased text is a key of `freq`. */
  function Content(toks: seq<Token>, freq: map<string, real>): real
  {
    if |toks| == 0 then 0.0
    else
      var t := toks[|toks| - 1];
      Content(toks[..|toks| - 1], freq) + (if t.lower in freq then freq[t.lower] else 0.0)
  }

  /** Some token's lower-cased text is a key of the table, so the sentence gets a score entry. */
  predicate HasScoredWord(toks: seq<Token>, freq: map<string, real>)
  {
    exists j :: 0 <= j < |toks| && toks[j].lower in freq
  }

  /** Every sentence gets a score entry, so scoring does not fail. */
  predicate AllScored(sents: seq<Sentence>, freq: map<string, real>)
  {
    forall i :: 0 <= i < |sents| ==> HasScoredWord(sents[i].tokens, freq)
  }

  /** The positional weight `(N - i) / N` of sentence `i` out of `n`. */
  function Bonus(i: nat, n: nat): real
    requires i < n
  {
    (n - i) as real / n as real
  }

  /** The score of each sentence, in document order. */
  function Scores(sents: seq<Sentence>, freq: map<string, real>): seq<real>
  {
    seq(|sents|, i requires 0 <= i < |sents| => Content(sents[i].tokens, freq) + Bonus(i, |sents|))
  }

  /**
   * Accumulates each sentence's score entry token by token, then adds the
   * positional bonus to the entry; fails at the first sentence without one.
   */
  method ScoreSentences(sents: seq<Sentence>, freq: map<string, real>) returns (r: Result<seq<real>, SummaryError>)
    ensures r.Success? <==> AllScored(sents, freq)
    ensures r.Success? ==> r.value == Scores(sents, freq)
    ensures r.Failure? ==>
      var i := r.error.sentence;
      && i < |sents|
      && !HasScoredWord(sents[i].tokens, freq)
      && forall j :: 0 <= j < i ==> HasScoredWord(sents[j].tokens, freq)
  {
    var n := |sents|;
    var scores: seq<real> := [];
    var i := 0;
    while i < n
      invariant 0 <= i <= n
      invariant |scores| == i
      invariant forall k :: 0 <= k < i ==> HasScoredWord(sents[k].tokens, freq)
      invariant forall k :: 0 <= k < i ==> scores[k] == Content(sents[k].tokens, freq) + Bonus(k, n)
    {
      var toks := sents[i].tokens;
      var entry: Option<real> := None;
      var j := 0;
      while j < |toks|
        invariant 0 <= j <= |toks|
        invariant entry.None? <==> !HasScoredWord(toks[..j], freq)
        invariant Content(toks[..j], freq) == (if entry.Some? then entry.value else 0.0)
      {
        assert toks[..j + 1][..j] == toks[..j];
        var w := toks[j].lower;
        if w in freq {
          entry := Some((if entry.Some? then entry.value else 0.0) + freq[w]);
          assert toks[..j + 1][j] == toks[j];
        } else {
          if HasScoredWord(toks[..j + 1], freq) {
            var k :| 0 <= k < j + 1 && toks[..j + 1][k].lower in freq;
            assert toks[..j][k].lower in freq;
          }
        }
        j := j + 1;
      }
      assert toks[..|toks|] == toks;
      if entry.None? {
        return Failure(MissingScore(i));
      }
      scores := scores + [entry.value + Bonus(i, n)];
      i := i + 1;
    }
    r := Success(scores);
  }

  /** The positional bonus lies in (0, 1], is 1 for the first sentence, and strictly decreases. */
  lemma BonusRange(i: nat, n: nat)
    requires i < n
    ensures 0.0 < Bonus(i, n) <= 1.0
    ensures i == 0 ==> Bonus(i, n) == 1.0
    ensures forall j :: i < j < n ==> Bonus(j, n) < Bonus(i, n)
  {
    forall j | i < j < n ensures Bonus(j, n) < Bonus(i, n) {
      BonusMonotone(i, j, n);
    }
  }

  /** A later sentence gets a strictly smaller bonus. */
  lemma BonusMonotone(i: nat, j: nat, n: nat)
    requires i < j < n
    ensures Bonus(j, n) < Bonus(i, n)
  {
  }

  /** Of two sentences with equal content, the earlier one scores strictly higher. */
  lemma EarlierWinsOnEqualContent(sents: seq<Sentence>, freq: map<string, real>, i: nat, j: nat)
    requires i < j < |sents|
    requires Content(sents[i].tokens, freq) == Content(sents[j].tokens, freq)
    ensures Scores(sents, freq)[j] < Scores(sents, freq)[i]
  {
    BonusMonotone(i, j, |sents|);
  }

  /** With a table of non-negative values, a sentence's score is never below its bonus. */
  lemma {:induction false} ContentNonNegative(toks: seq<Token>, freq: map<string, real>)
    requires forall w :: w in freq ==> freq[w] >= 0.0
    ensures Content(toks, freq) >= 0.0
  {
    if |toks| > 0 {
      ContentNonNegative(toks[..|toks| - 1], freq);
    }
  }
}
