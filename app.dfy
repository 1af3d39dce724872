/**
  The session state of the trainer: the catalogue, the progress map, the
  word on screen and how much of it is revealed. Every operation changes
  these fields in place, as the application object does.
 */
module App {
  import opened Wrappers
  import opened Vocabulary
  import opened Progress
  import opened Scheduler
  import opened Reveal

  class MnemonicApp {
    var vocab: seq<Word>
    var progress: map<string, Entry>
    var current: Option<Word>
    var stage: int

    /** Every catalogue word has an entry, the word on screen comes from the
        catalogue, and the stage is one of the four reveal stages. */
    ghost predicate Valid()
      reads this
    {
      && Covers(vocab, progress)
      && (current.Some? ==> current.value in vocab)
      && StageOk(stage)
    }

    /** Start-up with an already loaded catalogue and progress map: no word
        on screen, reconcile the progress map, then load the first word. */
    constructor (loadedVocab: seq<Word>, loadedProgress: map<string, Entry>, today: int, jitter: seq<real>)
      requires |jitter| == |loadedVocab|
      ensures Valid()
      ensures vocab == loadedVocab
      ensures progress == Reconciled(loadedVocab, loadedProgress)
      ensures current == Select(vocab, progress, today, jitter)
      ensures stage == WordOnly
    {
      vocab := loadedVocab;
      progress := loadedProgress;
      current := None;
      stage := WordOnly;
      new;
      ReconcileProgress();
      LoadNextWord(today, jitter);
    }

    /** Give every catalogue word without an entry the default entry. */
    method ReconcileProgress()
      modifies this`progress
      ensures progress == Reconciled(vocab, old(progress))
      ensures Covers(vocab, progress)
    {
      var i := 0;
      while i < |vocab|
        invariant 0 <= i <= |vocab|
        invariant Reconciled(vocab[i..], progress) == Reconciled(vocab, old(progress))
      {
        var word := vocab[i].word;
        assert vocab[i..][1..] == vocab[i + 1..];
        if word !in progress {
          progress := progress[word := DefaultEntry()];
        }
        i := i + 1;
      }
      assert vocab[i..] == [];
      ReconcileSpec(vocab, old(progress));
    }

    /** The word to show next: None for an empty catalogue, otherwise the
        head of the priorities sorted descending (stably). */
    method NextWord(today: int, jitter: seq<real>) returns (w: Option<Word>)
      requires Covers(vocab, progress)
      requires |jitter| == |vocab|
      ensures w == Select(vocab, progress, today, jitter)
    {
      if |vocab| == 0 {
        return None;
      }
      ghost var all := Priorities(vocab, progress, today, jitter);
      var priorities: seq<real> := [];
      var i := 0;
      while i < |vocab|
        invariant 0 <= i <= |vocab|
        invariant priorities == all[..i]
      {
        var e := progress[vocab[i].word];
        priorities := priorities + [Priority(e, today, jitter[i])];
        i := i + 1;
      }
      assert priorities == all;
      // A stable descending sort puts first the earliest of the maximal
      // priorities; only that element is used, so scan for it directly.
      var best := 0;
      var k := 1;
      while k < |priorities|
        invariant 1 <= k <= |priorities|
        invariant best == FirstMaxIndex(priorities[..k])
      {
        assert priorities[..k + 1][..k] == priorities[..k];
        if priorities[k] > priorities[best] {
          best := k;
        }
        k := k + 1;
      }
      assert priorities[..k] == priorities;
      w := Some(vocab[best]);
    }

    /** Show the next word; the stage goes back to the word alone only when
        a word was loaded. */
    method LoadNextWord(today: int, jitter: seq<real>)
      requires Covers(vocab, progress)
      requires StageOk(stage)
      requires |jitter| == |vocab|
      modifies this`current, this`stage
      ensures current == Select(vocab, progress, today, jitter)
      ensures stage == if current.Some? then WordOnly else old(stage)
      ensures Valid()
    {
      current := NextWord(today, jitter);
      if current.None? {
        return;
      }
      stage := WordOnly;
    }

    /** Reveal one more piece of the card on screen. */
    method RevealNext()
      requires Valid()
      modifies this`stage
      ensures stage == if current.None? then old(stage) else NextStage(old(stage))
      ensures Valid()
    {
      if current.None? {
        return;
      }
      if stage == WordOnly {
        stage := TranslationShown;
      } else if stage == TranslationShown {
        stage := MnemonicShown;
      } else if stage == MnemonicShown {
        stage := ImageShown;
      }
    }

    /** Apply the answer to the entry of the word on screen, reviewed on
        `today`; nothing happens when no word is on screen. */
    method UpdateProgress(correct: bool, today: int)
      requires Valid()
      modifies this`progress
      ensures current.None? ==> progress == old(progress)
      ensures current.Some? ==>
        var w := current.value.word;
        progress == old(progress)[w := Review(old(progress)[w], correct, today)]
      ensures progress.Keys == old(progress).Keys
      ensures AllEntriesOk(old(progress)) ==> AllEntriesOk(progress)
      ensures Valid()
    {
      if current.None? {
        return;
      }
      var word := current.value.word;
      var entry := progress[word];
      var updated: Entry;
      if correct {
        var interval := if entry.intervalDays == DefaultInterval then GraduationInterval
                        else TruncTenths(entry.intervalDays * entry.ease10);
        updated := entry.(timesCorrect := entry.timesCorrect + 1,
                          intervalDays := interval,
                          ease10 := Min(entry.ease10 + EaseStepUp, MaxEase10));
      } else {
        updated := entry.(timesWrong := entry.timesWrong + 1,
                          intervalDays := DefaultInterval,
                          ease10 := Max(entry.ease10 - EaseStepDown, MinEase10));
      }
      updated := updated.(lastReviewed := today);
      progress := progress[word := updated];
    }

    /** The "correct" button: record the answer, then load the next word. */
    method CorrectAnswer(today: int, jitter: seq<real>)
      requires Valid()
      requires |jitter| == |vocab|
      modifies this`progress, this`current, this`stage
      ensures progress == (if old(current).None? then old(progress)
                           else old(progress)[old(current).value.word :=
                                  Review(old(progress)[old(current).value.word], true, today)])
      ensures current == Select(vocab, progress, today, jitter)
      ensures stage == if current.Some? then WordOnly else old(stage)
      ensures Valid()
    {
      UpdateProgress(true, today);
      LoadNextWord(today, jitter);
    }

    /** The "wrong" button: record the answer, then load the next word. */
    method WrongAnswer(today: int, jitter: seq<real>)
      requires Valid()
      requires |jitter| == |vocab|
      modifies this`progress, this`current, this`stage
      ensures progress == (if old(current).None? then old(progress)
                           else old(progress)[old(current).value.word :=
                                  Review(old(progress)[old(current).value.word], false, today)])
      ensures current == Select(vocab, progress, today, jitter)
      ensures stage == if current.Some? then WordOnly else old(stage)
      ensures Valid()
    {
      UpdateProgress(false, today);
      LoadNextWord(today, jitter);
    }
  }
}
