/**
  The vocabulary catalogue: an immutable list of word records, loaded once.
  Each record is keyed by its `word` string.
 */
module Vocabulary {
  import opened Wrappers

  datatype Word = Word(word: string, translation: string, mnemonic: string, image: Option<string>)

  /** The set of keys the catalogue uses. */
  function WordsOf(vocab: seq<Word>): set<string>
  {
    set i | 0 <= i < |vocab| :: vocab[i].word
  }

  lemma WordsOfCons(vocab: seq<Word>)
    requires vocab != []
    ensures WordsOf(vocab) == {vocab[0].word} + WordsOf(vocab[1..])
  {
  }
}
