/**
 * The word-frequency table: counting qualifying tokens by lower-cased text,
 * then dividing every count by the largest one.
 */
module Frequency {
  import opened Document

  /** The domain-specific words the summarizer adds to the language's stopword list. */
  const CustomStopwords: set<string> := {"your", "specific", "domain", "words"}

  /** The stopword collection actually consulted: the base list plus the custom words. */
  function Stopwords(base: set<string>): set<string>
  {
    base + CustomStopwords
  }

  /** No stopword, base or custom, ever becomes a key of the count table. */
  lemma StopwordsNeverCounted(doc: seq<Token>, base: set<string>)
    ensures forall w :: w in Stopwords(base) ==> w !in CountTable(doc, Stopwords(base))
    ensures forall w :: w in CustomStopwords ==> w !in CountTable(doc, Stopwords(base))
  {
    CountTableKeys(doc, Stopwords(base));
  }

  /** A token is counted when its text is no stopword and it is neither punctuation nor space. */
  predicate Counted(t: Token, stop: set<string>)
  {
    t.lower !in stop && !t.isPunct && !t.isSpace
  }

  /** Reference definition: how many counted tokens of `doc` have lower-cased text `w`. */
  function Count(doc: seq<Token>, stop: set<string>, w: string): nat
  {
    if |doc| == 0 then 0
    else (if Counted(doc[0], stop) && doc[0].lower == w then 1 else 0) + Count(doc[1..], stop, w)
  }

  /** One step of the counting loop: the table after seeing token `t`. */
  function Tally(m: map<string, nat>, t: Token, stop: set<string>): map<string, nat>
  {
    if Counted(t, stop) then m[t.lower := (if t.lower in m then m[t.lower] else 0) + 1] else m
  }

  /** The table the counting loop holds after visiting every token of `doc` in order. */
  function CountTable(doc: seq<Token>, stop: set<string>): map<string, nat>
  {
    if |doc| == 0 then map[] else Tally(CountTable(doc[..|doc| - 1], stop), doc[|doc| - 1], stop)
  }

  /** Counts every qualifying token into a dictionary keyed by lower-cased text. */
  method CountWords(doc: seq<Token>, stop: set<string>) returns (counts: map<string, nat>)
    ensures counts == CountTable(doc, stop)
  {
    counts := map[];
    var i := 0;
    while i < |doc|
      invariant 0 <= i <= |doc|
      invariant counts == CountTable(doc[..i], stop)
    {
      var t := doc[i];
      if Counted(t, stop) {
        counts := counts[t.lower := (if t.lower in counts then counts[t.lower] else 0) + 1];
      }
      assert doc[..i + 1][..i] == doc[..i];
      i := i + 1;
    }
    assert doc[..|doc|] == doc;
  }

  /** A token adds one to the count of its own text exactly when it is counted, and nothing else. */
  lemma {:induction false} CountAppend(doc: seq<Token>, t: Token, stop: set<string>, w: string)
    ensures Count(doc + [t], stop, w) == Count(doc, stop, w) + (if Counted(t, stop) && t.lower == w then 1 else 0)
  {
    if |doc| > 0 {
      assert (doc + [t])[1..] == doc[1..] + [t];
      CountAppend(doc[1..], t, stop, w);
    }
  }

  /** The table built by the loop holds exactly the words with a positive count, each with that count. */
  lemma {:induction false} CountTableCounts(doc: seq<Token>, stop: set<string>)
    ensures forall w :: w in CountTable(doc, stop) <==> Count(doc, stop, w) > 0
    ensures forall w :: w in CountTable(doc, stop) ==> CountTable(doc, stop)[w] == Count(doc, stop, w)
  {
    if |doc| > 0 {
      var init, t := doc[..|doc| - 1], doc[|doc| - 1];
      assert doc == init + [t];
      CountTableCounts(init, stop);
      forall w
        ensures Count(doc, stop, w) == Count(init, stop, w) + (if Counted(t, stop) && t.lower == w then 1 else 0)
      {
        CountAppend(init, t, stop, w);
      }
    }
  }

  /** The table's keys are exactly the texts of counted tokens, and every count is at least one. */
  lemma CountTableKeys(doc: seq<Token>, stop: set<string>)
    ensures forall w :: w in CountTable(doc, stop) <==> exists i :: 0 <= i < |doc| && Counted(doc[i], stop) && doc[i].lower == w
    ensures forall w :: w in CountTable(doc, stop) ==> CountTable(doc, stop)[w] >= 1
  {
    CountTableCounts(doc, stop);
    forall w ensures Count(doc, stop, w) > 0 <==> exists i :: 0 <= i < |doc| && Counted(doc[i], stop) && doc[i].lower == w {
      CountPositive(doc, stop, w);
    }
  }

  lemma {:induction false} CountPositive(doc: seq<Token>, stop: set<string>, w: string)
    ensures Count(doc, stop, w) > 0 <==> exists i :: 0 <= i < |doc| && Counted(doc[i], stop) && doc[i].lower == w
  {
    if |doc| > 0 {
      CountPositive(doc[1..], stop, w);
      if Count(doc[1..], stop, w) > 0 {
        var i :| 0 <= i < |doc[1..]| && Counted(doc[1..][i], stop) && doc[1..][i].lower == w;
        assert Counted(doc[i + 1], stop) && doc[i + 1].lower == w;
      }
      if exists i :: 0 <= i < |doc| && Counted(doc[i], stop) && doc[i].lower == w {
        var i :| 0 <= i < |doc| && Counted(doc[i], stop) && doc[i].lower == w;
        if i > 0 {
          assert Counted(doc[1..][i - 1], stop) && doc[1..][i - 1].lower == w;
        }
      }
    }
  }

  /** `max(counts.values(), default=1)`: the largest count, or 1 for an empty table. */
  ghost function MaxCount(m: map<string, nat>): (r: nat)
    ensures m == map[] ==> r == 1
    ensures m != map[] ==> r in m.Values && forall w :: w in m ==> m[w] <= r
    decreases |m|
  {
    if m == map[] then 1
    else
      var w :| w in m;
      var rest := m - {w};
      assert |rest| < |m| by { assert rest.Keys == m.Keys - {w}; }
      if rest == map[] then m[w]
      else
        var sub := MaxCount(rest);
        assert forall k :: k in m && k != w ==> k in rest && m[k] == rest[k];
        if m[w] >= sub then m[w] else sub
  }

  /** Computes the largest count by scanning the table's keys. */
  method MaxOfCounts(counts: map<string, nat>) returns (maxc: nat)
    ensures maxc == MaxCount(counts)
  {
    if counts == map[] {
      return 1;
    }
    var todo := counts.Keys;
    var w0 :| w0 in todo;
    maxc := counts[w0];
    todo := todo - {w0};
    while todo != {}
      invariant todo <= counts.Keys
      invariant maxc in counts.Values
      invariant forall w :: w in counts && w !in todo ==> counts[w] <= maxc
      decreases |todo|
    {
      var w :| w in todo;
      if counts[w] > maxc {
        maxc := counts[w];
      }
      todo := todo - {w};
    }
    var spec := MaxCount(counts);
    assert maxc <= spec && spec <= maxc;
  }

  /** The table with every count divided by `maxc`; the keys are unchanged. */
  function Normalised(counts: map<string, nat>, maxc: nat): map<string, real>
    requires maxc > 0
  {
    map w | w in counts :: counts[w] as real / maxc as real
  }

  /** Rewrites every value of the table in place as its count divided by `maxc`. */
  method Normalise(counts: map<string, nat>, maxc: nat) returns (freq: map<string, real>)
    requires maxc > 0
    ensures freq.Keys == counts.Keys
    ensures forall w :: w in freq ==> freq[w] == counts[w] as real / maxc as real
    ensures freq == Normalised(counts, maxc)
  {
    freq := map w | w in counts :: counts[w] as real;
    var todo := counts.Keys;
    while todo != {}
      invariant todo <= counts.Keys
      invariant freq.Keys == counts.Keys
      invariant forall w :: w in todo ==> freq[w] == counts[w] as real
      invariant forall w :: w in freq && w !in todo ==> freq[w] == counts[w] as real / maxc as real
      decreases |todo|
    {
      var w :| w in todo;
      freq := freq[w := freq[w] / maxc as real];
      todo := todo - {w};
    }
  }

  /** The normalised frequency table of a document, as the summarizer builds it. */
  ghost function Frequencies(doc: seq<Token>, stop: set<string>): map<string, real>
  {
    var counts := CountTable(doc, stop);
    CountTableKeys(doc, stop);
    Normalised(counts, MaxCount(counts))
  }

  /**
   * Every normalised value lies in (0, 1]; it is exactly 1 for the words whose
   * count is the maximum; the table is empty exactly when no token was counted,
   * and otherwise some word has frequency exactly 1.
   */
  lemma FrequenciesInUnitInterval(doc: seq<Token>, stop: set<string>)
    ensures Frequencies(doc, stop).Keys == CountTable(doc, stop).Keys
    ensures forall w :: w in Frequencies(doc, stop) ==> 0.0 < Frequencies(doc, stop)[w] <= 1.0
    ensures forall w :: w in Frequencies(doc, stop) ==>
      (Frequencies(doc, stop)[w] == 1.0 <==> CountTable(doc, stop)[w] == MaxCount(CountTable(doc, stop)))
    ensures Frequencies(doc, stop) == map[] <==> forall i :: 0 <= i < |doc| ==> !Counted(doc[i], stop)
    ensures Frequencies(doc, stop) != map[] ==> exists w :: w in Frequencies(doc, stop) && Frequencies(doc, stop)[w] == 1.0
  {
    var counts := CountTable(doc, stop);
    var maxc := MaxCount(counts);
    var freq := Frequencies(doc, stop);
    CountTableKeys(doc, stop);
    forall w | w in freq
      ensures 0.0 < freq[w] <= 1.0
      ensures freq[w] == 1.0 <==> counts[w] == maxc
    {
      DivideByMax(counts[w], maxc);
    }
    if freq == map[] {
      assert counts.Keys == {};
      forall i | 0 <= i < |doc| ensures !Counted(doc[i], stop) {
        assert doc[i].lower !in counts;
      }
    } else {
      var w :| w in counts && counts[w] == maxc;
      DivideByMax(counts[w], maxc);
    }
  }

  lemma DivideByMax(c: nat, maxc: nat)
    requires 1 <= c <= maxc
    ensures 0.0 < c as real / maxc as real <= 1.0
    ensures c as real / maxc as real == 1.0 <==> c == maxc
  {
  }
}
