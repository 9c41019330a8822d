# Extractive text summarizer — Dafny model

This project models `summarizer` in `text_summarizer.py`. That function turns a
body of text into an extractive summary:

1. It counts every token that is not a stopword, not punctuation and not
   whitespace into a dictionary keyed by the token's lower-cased text.
2. It divides every count by the largest count. With an empty table the
   divisor is 1.
3. It gives each sentence a score. The score is the sum of the table values of
   its tokens, plus the positional bonus `(N - i) / N`.
4. It selects `max(1, int(N * 0.3))` sentences with the highest scores, in
   descending score order.
5. It joins their texts with single spaces.

It returns the summary text, the number of whitespace-separated words of the
raw input, and the number of non-space tokens of the re-tokenised summary.

The language model's output is the input of this model. The document is a
sequence of `Sentence(text, tokens)`. Each token is a
`Token(lower, isPunct, isSpace)`. The whole document's token stream is the
concatenation of the sentences' tokens (`Document.Flatten`), because sentences
partition the document.

Modules, one per stage of the pipeline:

- `Document`: tokens, sentences and the document's token stream.
- `Frequency`: the stopword set, the counting loop (`CountWords`), the maximum
  (`MaxOfCounts`) and the normalising loop (`Normalise`). These are methods
  proved against the specification functions `CountTable`, `MaxCount` and
  `Normalised`, with lemmas about those functions.
- `Scoring`: the nested scoring loop (`ScoreSentences`), including its key-error
  path, and the positional bonus.
- `Selection`: the select count and the top-k selection. The selection is a
  stable descending insertion sort (`Rank`) followed by a prefix (`TopK`).
- `Text`: `' '.join` (`Join`) and `len(s.split())` (`Words`, `WordCount`).
- `Summarizer`: the whole pipeline as a method (`Summarize`) and as one
  definition (`SummarySpec`), with lemmas about the results.

Three behaviours of the code are easy to misread; the model follows the code:

- A sentence with no table word gets no score entry, and line 36 then fails
  with a key error. The model returns `Failure(MissingScore(i))` for the first
  such sentence `i`. It does not give such a sentence a bonus-only score.
- A document without sentences yields an empty summary, not an error.
- Ties between equal scores go to the earlier sentence. This is what
  `heapq.nlargest` does, because it is documented as equivalent to a stable
  `sorted(..., reverse=True)[:n]`.

## Model

| member | source | states |
|---|---|---|
| `Frequency.StopwordsNeverCounted` | text_summarizer.py:12-20 | No stopword, from the base list or the four custom words, ever becomes a key of the count table |
| `Frequency.CountWords` | text_summarizer.py:18-21 | The counting loop leaves the dictionary equal to `CountTable` of the whole token stream |
| `Frequency.CountAppend` | text_summarizer.py:19-21 | A token adds exactly 1 to the count of its own lower-cased text when it is counted (not a stopword, not punctuation, not space), and changes no other count |
| `Frequency.CountTableCounts` | text_summarizer.py:18-21 | The table's keys are exactly the words with a positive count, and each value is the number of counted tokens with that text |
| `Frequency.CountTableKeys` | text_summarizer.py:19-21 | A word is a key exactly when some counted token has that text; every stored count is at least 1 |
| `Frequency.MaxCount` | text_summarizer.py:24 | `max(values, default=1)`: 1 for an empty table, otherwise a stored count that no count exceeds |
| `Frequency.MaxOfCounts` | text_summarizer.py:24 | The scan over the keys returns `MaxCount` of the table |
| `Frequency.Normalise` | text_summarizer.py:25-26 | The keys are unchanged, and every value becomes count / max |
| `Frequency.FrequenciesInUnitInterval` | text_summarizer.py:24-26 | Normalised values lie in (0, 1]; a value is 1 exactly for maximal counts; the table is empty exactly when no token is counted, and otherwise some word has value 1 |
| `Scoring.ScoreSentences` | text_summarizer.py:29-36 | Scoring succeeds exactly when every sentence has a token in the table, and then sentence i scores its table sum plus `(N - i) / N`; otherwise it fails at the first sentence without one |
| `Scoring.BonusRange` | text_summarizer.py:36 | The bonus lies in (0, 1], is 1 for the first sentence, and strictly decreases with position |
| `Scoring.BonusMonotone` | text_summarizer.py:36 | A later sentence gets a strictly smaller bonus |
| `Scoring.EarlierWinsOnEqualContent` | text_summarizer.py:31-36 | Of two sentences with equal content score, the earlier one scores strictly higher |
| `Scoring.ContentNonNegative` | text_summarizer.py:32-34 | With non-negative table values, the content score is non-negative |
| `Summarizer.ScoreAtLeastBonus` | text_summarizer.py:24-36 | With the document's own normalised table, no sentence's score is below its positional bonus |
| `Selection.SelectCount` | text_summarizer.py:39 | The select count is at least 1, at most N when N is at least 1, `floor(0.3 N)` when that is at least 1, and 1 below four sentences |
| `Selection.Insert` | text_summarizer.py:40 | Inserting a position into a ranked list keeps it ranked (score descending, earlier first on ties) and adds exactly that position |
| `Selection.Rank` | text_summarizer.py:40 | The stable descending sort holds every position below n exactly once, in rank order |
| `Selection.TopK` | text_summarizer.py:40 | `nlargest(k)` returns min(k, N) positions in non-increasing score order, earlier first on ties |
| `Selection.RankedDistinct` | text_summarizer.py:40 | No sentence is selected twice |
| `Selection.TopKBeatsRest` | text_summarizer.py:40 | Every selected sentence outranks every sentence left out: a higher score, or an equal score and an earlier position |
| `Selection.TopKSingle` | text_summarizer.py:39-40 | A single sentence is selected on its own |
| `Text.JoinAppend` | text_summarizer.py:44 | Joining one more text appends exactly one space and that text |
| `Text.Join` | text_summarizer.py:44 | `' '.join`: the joined string's length is the texts' total length plus exactly one separator between each pair |
| `Text.JoinStartsWithFirst` | text_summarizer.py:43-44 | The joined string starts with the first text; a single text is returned verbatim |
| `Text.RunLength` | text_summarizer.py:48 | The leading run is a prefix of non-space characters ended by a space or the end of the text |
| `Text.Words` | text_summarizer.py:48 | `raw.split()`: every word is non-empty and holds no whitespace |
| `Text.WordsCountRuns` | text_summarizer.py:48 | The split yields exactly one word per position that starts a maximal non-whitespace run |
| `Text.WordCount` | text_summarizer.py:48 | `len(raw.split())` equals the number of maximal non-whitespace runs, and is 0 for an empty or all-whitespace text |
| `Text.NoRunInSpaces` | text_summarizer.py:48 | A text made only of whitespace starts no run |
| `Summarizer.NonSpaceCount` | text_summarizer.py:47-48 | The summary token count never exceeds the number of tokens, and equals it when no token is whitespace |
| `Summarizer.FirstUnscored` | text_summarizer.py:31-36 | The key error names the first sentence without a table word |
| `Summarizer.Summarize` | text_summarizer.py:10-48 | The pipeline of loops returns exactly what `SummarySpec` defines |
| `Summarizer.FailsExactlyOnUnscoredSentence` | text_summarizer.py:18-36 | Summarizing fails exactly when some sentence has no token sharing its text with a counted token of the document |
| `Summarizer.ScoredIffCounted` | text_summarizer.py:20-33 | A sentence has a token in the normalised table exactly when one of its tokens shares its text with a counted token of the document |
| `Summarizer.NoSentencesGiveEmptySummary` | text_summarizer.py:29-44 | With no sentences the summary text is empty and nothing fails |
| `Summarizer.SingleSentenceIsItsOwnSummary` | text_summarizer.py:39-44 | A single scored sentence is returned verbatim as the summary |
| `Summarizer.SummaryIsTopSentences` | text_summarizer.py:39-44 | On success the summary text is the join of the chosen sentences' texts in the chosen order, min(select count, N) distinct sentences, in non-increasing score order, and no sentence left out scores above a chosen one |

## Left out

- The web application: Flask routes, HTML templates and the catch-all exception handler (text_summarizer.py:1-7, 50-197). They are presentation glue.
- Loading the language model, tokenisation and sentence segmentation (text_summarizer.py:14-15, 29). These are a foreign library. Their output is the model's input (`Sentence`, `Token`).
- The contents of the language's stopword list. It is the parameter `base`; only the four custom words are fixed.
- `Summarizer.Summarize`: the third returned value depends on re-tokenising the summary with the language model. The model takes that tokeniser as the parameter `retokenize` and only counts its non-space tokens, so nothing is stated about how those tokens relate to the selected sentences' tokens.
- Floating-point arithmetic. Frequencies and scores are exact `real` values, so ties between nearly-equal floating-point scores are not reproduced bit for bit.
- `Selection.SelectCount`: `int(N * 0.3)` is taken as `(3 * N) / 10`. The floating-point product truncates to the same integer for any realistic N, because the representation error of 0.3 is below half an ulp of the product.
- `Summarizer.Summarize`: the key error names the failing sentence by its position, not by the sentence object Python puts in the message.
- Dictionary identity and order: the dictionaries are local values that the loops reassign (`map` variables); Python's insertion order matters only for score ties, and there it equals document order.
- `Frequency.Normalise`: Python rewrites the counts dictionary in place; the model builds the normalised map in a new variable from the counts, with the same keys and values.
