/**
 * The two string operations of the summarizer: joining the selected sentence
 * texts with single spaces, and counting the words of the raw input as
 * Python's argument-less `str.split()` separates them.
 */
module Text {

  /** The characters Python's `str.isspace()` accepts, which `str.split()` splits on. */
  predicate IsSpace(c: char)
  {
    || c == ' ' || c == '\t' || c == '\n' || c == '\r' || c == '\U{000B}' || c == '\U{000C}'
    || ('\U{001C}' <= c <= '\U{001F}')
    || c == '\U{0085}' || c == '\U{00A0}' || c == '\U{1680}'
    || ('\U{2000}' <= c <= '\U{200A}')
    || c == '\U{2028}' || c == '\U{2029}' || c == '\U{202F}' || c == '\U{205F}' || c == '\U{3000}'
  }

  /**
   * `' '.join(ts)`: the texts in order with exactly one space between
   * neighbours, so its length is the texts' plus one per separator.
   */
  function Join(ts: seq<string>): (r: string)
    ensures |ts| > 0 ==> |r| == TotalLength(ts) + |ts| - 1
  {
    if |ts| == 0 then ""
    else if |ts| == 1 then ts[0]
    else ts[0] + " " + Join(ts[1..])
  }

  /** The combined length of the texts. */
  function TotalLength(ts: seq<string>): nat
  {
    if |ts| == 0 then 0 else |ts[0]| + TotalLength(ts[1..])
  }

  /** Appending a text adds one space and the text to the end of the joined string. */
  lemma {:induction false} JoinAppend(ts: seq<string>, t: string)
    requires |ts| > 0
    ensures Join(ts + [t]) == Join(ts) + " " + t
  {
    if |ts| > 1 {
      assert (ts + [t])[1..] == ts[1..] + [t];
      JoinAppend(ts[1..], t);
    } else {
      assert (ts + [t])[1..] == [t];
    }
  }

  /** The joined string starts with the first text, and a single text is returned verbatim. */
  lemma JoinStartsWithFirst(ts: seq<string>)
    requires |ts| > 0
    ensures Join(ts)[..|ts[0]|] == ts[0]
    ensures |ts| == 1 ==> Join(ts) == ts[0]
  {
  }

  /** The length of the leading run of non-space characters. */
  function RunLength(s: string): (n: nat)
    ensures n <= |s|
    ensures forall j :: 0 <= j < n ==> !IsSpace(s[j])
    ensures n == |s| || IsSpace(s[n])
  {
    if |s| == 0 || IsSpace(s[0]) then 0 else 1 + RunLength(s[1..])
  }

  /** `s.split()`: the maximal runs of non-space characters, in order; none is empty or holds a space. */
  function Words(s: string): (ws: seq<string>)
    ensures forall w :: w in ws ==> |w| > 0 && forall j :: 0 <= j < |w| ==> !IsSpace(w[j])
    decreases |s|
  {
    if |s| == 0 then []
    else if IsSpace(s[0]) then Words(s[1..])
    else
      var n := RunLength(s);
      [s[..n]] + Words(s[n..])
  }

  /**
   * The number of words of the raw text, `len(s.split())`: the number of
   * maximal non-whitespace runs, so none for an empty or all-space text.
   */
  function WordCount(s: string): (n: nat)
    ensures n == RunStarts(s, true)
    ensures (forall j :: 0 <= j < |s| ==> IsSpace(s[j])) ==> n == 0
  {
    WordsCountRuns(s);
    NoRunInSpaces(s, true);
    |Words(s)|
  }

  /**
   * Reference count: the positions that start a run, that is, a non-space
   * character at the start or right after a space (`prevSpace` says whether
   * the character before `s` was a space, or `s` starts the text).
   */
  function RunStarts(s: string, prevSpace: bool): nat
  {
    if |s| == 0 then 0
    else (if prevSpace && !IsSpace(s[0]) then 1 else 0) + RunStarts(s[1..], IsSpace(s[0]))
  }

  /** Inside a run, the rest of the run starts no new word. */
  lemma {:induction false} RunStartsInsideRun(s: string, j: nat)
    requires 1 <= j <= RunLength(s)
    ensures RunStarts(s[j..], false) == RunStarts(s[RunLength(s)..], true)
    decreases RunLength(s) - j
  {
    var n := RunLength(s);
    if j < n {
      assert s[j..][1..] == s[j + 1..];
      RunStartsInsideRun(s, j + 1);
    } else if n < |s| {
      assert s[n..][1..] == s[n + 1..];
    }
  }

  /** The split yields one word per position that starts a run. */
  lemma {:induction false} WordsCountRuns(s: string)
    ensures |Words(s)| == RunStarts(s, true)
    decreases |s|
  {
    if |s| > 0 {
      if IsSpace(s[0]) {
        WordsCountRuns(s[1..]);
      } else {
        WordsCountRuns(s[RunLength(s)..]);
        RunStartsInsideRun(s, 1);
      }
    }
  }

  /** A text made only of spaces starts no run. */
  lemma {:induction false} NoRunInSpaces(s: string, prevSpace: bool)
    ensures (forall j :: 0 <= j < |s| ==> IsSpace(s[j])) ==> RunStarts(s, prevSpace) == 0
  {
    if |s| > 0 {
      NoRunInSpaces(s[1..], IsSpace(s[0]));
    }
  }
}
