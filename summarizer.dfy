/**
 * The extractive summarizer: frequency table, normalisation, sentence scores,
 * selection of the top sentences, and the returned texts and counts.
 */
module Summarizer {
  import opened Wrappers
  import opened Document
  import opened Frequency
  import opened Scoring
  import opened Selection
  import opened Text

  /** What the summarizer returns: the summary text and the two word counts. */
  datatype Summary = Summary(text: string, originalWords: nat, summaryTokens: nat)

  /** The number of tokens that are not whitespace; all of them when none is whitespace. */
  function NonSpaceCount(toks: seq<Token>): (n: nat)
    ensures n <= |toks|
    ensures (forall j :: 0 <= j < |toks| ==> !toks[j].isSpace) ==> n == |toks|
  {
    if |toks| == 0 then 0 else (if toks[0].isSpace then 0 else 1) + NonSpaceCount(toks[1..])
  }

  /** The position of the first sentence that gets no score entry. */
  function FirstUnscored(sents: seq<Sentence>, freq: map<string, real>): (i: nat)
    requires !AllScored(sents, freq)
    ensures i < |sents| && !HasScoredWord(sents[i].tokens, freq)
    ensures forall j :: 0 <= j < i ==> HasScoredWord(sents[j].tokens, freq)
  {
    if !HasScoredWord(sents[0].tokens, freq) then 0
    else
      assert !AllScored(sents[1..], freq) by {
        var k :| 0 <= k < |sents| && !HasScoredWord(sents[k].tokens, freq);
        assert sents[1..][k - 1] == sents[k];
      }
      var i := 1 + FirstUnscored(sents[1..], freq);
      assert forall j :: 1 <= j < i ==> sents[j] == sents[1..][j - 1];
      i
  }

  /** The texts of the chosen sentences, in the order chosen. */
  function Texts(sents: seq<Sentence>, chosen: seq<nat>): seq<string>
    requires forall p :: 0 <= p < |chosen| ==> chosen[p] < |sents|
  {
    seq(|chosen|, p requires 0 <= p < |chosen| => sents[chosen[p]].text)
  }

  /**
   * The whole pipeline as one definition. `retokenize` stands for running the
   * language model on the summary text; its tokens are only counted.
   */
  ghost function SummarySpec(raw: string, sents: seq<Sentence>, base: set<string>,
                             retokenize: string -> seq<Token>): Result<Summary, SummaryError>
  {
    var freq := Frequencies(Flatten(sents), Stopwords(base));
    if !AllScored(sents, freq) then Failure(MissingScore(FirstUnscored(sents, freq)))
    else
      var chosen := TopK(Scores(sents, freq), SelectCount(|sents|));
      var text := Join(Texts(sents, chosen));
      Success(Summary(text, WordCount(raw), NonSpaceCount(retokenize(text))))
  }

  /**
   * Summarizes a document given as its raw text and the language model's
   * sentences of it, with `base` the language's stopword list.
   */
  method Summarize(raw: string, sents: seq<Sentence>, base: set<string>,
                   retokenize: string -> seq<Token>) returns (r: Result<Summary, SummaryError>)
    ensures r == SummarySpec(raw, sents, base, retokenize)
  {
    var stop := Stopwords(base);
    var doc := Flatten(sents);
    var counts := CountWords(doc, stop);
    var maxc := MaxOfCounts(counts);
    CountTableKeys(doc, stop);
    var freq := Normalise(counts, maxc);
    assert freq == Frequencies(doc, stop);
    var scored := ScoreSentences(sents, freq);
    if scored.Failure? {
      assert scored.error.sentence == FirstUnscored(sents, freq);
      return Failure(scored.error);
    }
    var k := SelectCount(|sents|);
    var chosen := TopK(scored.value, k);
    var text := Join(Texts(sents, chosen));
    r := Success(Summary(text, WordCount(raw), NonSpaceCount(retokenize(text))));
  }

  /**
   * The summarizer fails exactly when some sentence has no token whose
   * lower-cased text is that of a counted token of the document.
   */
  lemma FailsExactlyOnUnscoredSentence(raw: string, sents: seq<Sentence>, base: set<string>,
                                        retokenize: string -> seq<Token>)
    ensures SummarySpec(raw, sents, base, retokenize).Failure? <==>
      exists i :: 0 <= i < |sents| && !HasCountedWord(sents[i].tokens, Flatten(sents), Stopwords(base))
  {
    var doc, stop := Flatten(sents), Stopwords(base);
    var freq := Frequencies(doc, stop);
    forall i | 0 <= i < |sents|
      ensures HasScoredWord(sents[i].tokens, freq) <==> HasCountedWord(sents[i].tokens, doc, stop)
    {
      ScoredIffCounted(sents[i].tokens, doc, stop);
    }
  }

  /** A sentence has a word in the document's table exactly when it shares a text with a counted token. */
  lemma ScoredIffCounted(toks: seq<Token>, doc: seq<Token>, stop: set<string>)
    ensures HasScoredWord(toks, Frequencies(doc, stop)) <==> HasCountedWord(toks, doc, stop)
  {
    var freq := Frequencies(doc, stop);
    FrequenciesInUnitInterval(doc, stop);
    CountTableKeys(doc, stop);
    if HasScoredWord(toks, freq) {
      var j :| 0 <= j < |toks| && toks[j].lower in freq;
      assert toks[j].lower in CountTable(doc, stop);
    }
    if HasCountedWord(toks, doc, stop) {
      var j, m :| 0 <= j < |toks| && 0 <= m < |doc| && Counted(doc[m], stop) && doc[m].lower == toks[j].lower;
      assert toks[j].lower in freq;
    }
  }

  /** Some token of `toks` shares its lower-cased text with a counted token of `doc`. */
  predicate HasCountedWord(toks: seq<Token>, doc: seq<Token>, stop: set<string>)
  {
    exists j, m :: 0 <= j < |toks| && 0 <= m < |doc| && Counted(doc[m], stop) && doc[m].lower == toks[j].lower
  }

  /** With the document's own table, no sentence scores below its positional bonus. */
  lemma ScoreAtLeastBonus(sents: seq<Sentence>, base: set<string>)
    ensures
      var scores := Scores(sents, Frequencies(Flatten(sents), Stopwords(base)));
      forall i :: 0 <= i < |sents| ==> scores[i] >= Bonus(i, |sents|)
  {
    var freq := Frequencies(Flatten(sents), Stopwords(base));
    FrequenciesInUnitInterval(Flatten(sents), Stopwords(base));
    forall i | 0 <= i < |sents| ensures Content(sents[i].tokens, freq) >= 0.0 {
      ContentNonNegative(sents[i].tokens, freq);
    }
  }

  /** A document without sentences summarizes to the empty text without failing. */
  lemma NoSentencesGiveEmptySummary(raw: string, base: set<string>, retokenize: string -> seq<Token>)
    ensures SummarySpec(raw, [], base, retokenize) ==
      Success(Summary("", WordCount(raw), NonSpaceCount(retokenize(""))))
  {
    assert TopK([], SelectCount(0)) == [];
  }

  /** A single scored sentence is its own summary, verbatim. */
  lemma SingleSentenceIsItsOwnSummary(raw: string, s: Sentence, base: set<string>,
                                      retokenize: string -> seq<Token>)
    requires HasScoredWord(s.tokens, Frequencies(Flatten([s]), Stopwords(base)))
    ensures SummarySpec(raw, [s], base, retokenize).Success?
    ensures SummarySpec(raw, [s], base, retokenize).value.text == s.text
  {
    var freq := Frequencies(Flatten([s]), Stopwords(base));
    TopKSingle(Scores([s], freq));
  }

  /**
   * On success the summary is the texts of `min(SelectCount(N), N)` distinct
   * sentences, in non-increasing score order with earlier sentences first on
   * ties, and no sentence left out outranks a chosen one.
   */
  lemma SummaryIsTopSentences(raw: string, sents: seq<Sentence>, base: set<string>,
                              retokenize: string -> seq<Token>)
    requires SummarySpec(raw, sents, base, retokenize).Success?
    ensures
      var freq := Frequencies(Flatten(sents), Stopwords(base));
      var scores := Scores(sents, freq);
      var chosen := TopK(scores, SelectCount(|sents|));
      && |chosen| == (if |sents| == 0 then 0 else SelectCount(|sents|))
      && SummarySpec(raw, sents, base, retokenize).value.text == Join(Texts(sents, chosen))
      && (forall p, q :: 0 <= p < q < |chosen| ==> chosen[p] != chosen[q] && scores[chosen[p]] >= scores[chosen[q]])
      && (forall x, y :: x in chosen && 0 <= y < |sents| && y !in chosen ==> scores[x] >= scores[y])
  {
    var freq := Frequencies(Flatten(sents), Stopwords(base));
    var scores := Scores(sents, freq);
    var chosen := TopK(scores, SelectCount(|sents|));
    RankedDistinct(scores, chosen);
    forall x, y | x in chosen && 0 <= y < |sents| && y !in chosen
      ensures scores[x] >= scores[y]
    {
      TopKBeatsRest(scores, SelectCount(|sents|), x, y);
    }
  }
}
