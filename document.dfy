/**
 * The document as the language model hands it to the summarizer: an ordered
 * sequence of sentences, each an ordered sequence of tokens. Tokenisation and
 * sentence segmentation themselves are not part of this model; their output is
 * the input here.
 */
module Document {

  /** One token: its lower-cased surface text and the two flags the summarizer reads. */
  datatype Token = Token(lower: string, isPunct: bool, isSpace: bool)

  /** One sentence: its original surface text and its tokens, in document order. */
  datatype Sentence = Sentence(text: string, tokens: seq<Token>)

  /**
   * The token stream of the whole document. Sentences partition the document's
   * tokens, so iterating over the document visits the sentences' tokens in order.
   */
  function Flatten(sents: seq<Sentence>): seq<Token>
  {
    if |sents| == 0 then [] else Flatten(sents[..|sents| - 1]) + sents[|sents| - 1].tokens
  }
}
