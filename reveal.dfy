/**
  The reveal stages of the current card: word only (0), translation shown
  (1), mnemonic shown (2), image shown (3).
 */
module Reveal {

  const WordOnly := 0
  const TranslationShown := 1
  const MnemonicShown := 2
  const ImageShown := 3

  predicate StageOk(s: int)
  {
    WordOnly <= s <= ImageShown
  }

  /** The stage after one reveal trigger: below the image stage it advances
      exactly one stage; at the image stage it changes nothing. */
  function NextStage(s: int): (r: int)
    ensures StageOk(s) ==> StageOk(r)
    ensures StageOk(s) && s < ImageShown ==> r == s + 1
    ensures s == ImageShown ==> r == s
  {
    if s == WordOnly then TranslationShown
    else if s == TranslationShown then MnemonicShown
    else if s == MnemonicShown then ImageShown
    else s
  }

  /** The stage after n triggers. */
  function RevealTimes(s: int, n: nat): int
    decreases n
  {
    if n == 0 then s else RevealTimes(NextStage(s), n - 1)
  }

  /** n triggers advance n stages, stopping at the image stage. */
  lemma {:induction false} RevealTimesSaturates(s: int, n: nat)
    requires StageOk(s)
    ensures RevealTimes(s, n) == if s + n <= ImageShown then s + n else ImageShown
    decreases n
  {
    if n > 0 {
      RevealTimesSaturates(NextStage(s), n - 1);
    }
  }

  /** Three triggers from a fresh card show the image; a fourth changes nothing. */
  lemma ThreeRevealsShowImage()
    ensures RevealTimes(WordOnly, 3) == ImageShown
    ensures RevealTimes(WordOnly, 4) == ImageShown
  {
  }
}
