/**
  Per-word review statistics and the two operations on them: the
  interval/ease update applied after an answer, and the reconciliation that
  gives every catalogue word a default entry.

  Dates are day numbers counted from 1970-01-01 (day 0). The ease factor is
  held in exact tenths: 25 stands for 2.5.
 */
module Progress {
  import opened Vocabulary

  datatype Entry = Entry(
    intervalDays: int,
    lastReviewed: int,
    difficultyLevel: int,
    timesCorrect: int,
    timesWrong: int,
    ease10: int)

  /** "1970-01-01" as a day number. */
  const Epoch := 0
  const DefaultInterval := 1
  const GraduationInterval := 6
  const DefaultEase10 := 25
  const MinEase10 := 13
  const MaxEase10 := 30
  /** +0.1 after a correct answer, -0.2 after a wrong one. */
  const EaseStepUp := 1
  const EaseStepDown := 2

  /** The entry created for a word seen for the first time. */
  function DefaultEntry(): (e: Entry)
    ensures EntryOk(e)
  {
    Entry(DefaultInterval, Epoch, 1, 0, 0, DefaultEase10)
  }

  /** The bounds an entry is meant to keep: interval at least one day, ease in [1.3, 3.0]. */
  predicate EntryOk(e: Entry)
  {
    && e.intervalDays >= 1
    && MinEase10 <= e.ease10 <= MaxEase10
    && e.timesCorrect >= 0
    && e.timesWrong >= 0
  }

  predicate AllEntriesOk(progress: map<string, Entry>)
  {
    forall k :: k in progress ==> EntryOk(progress[k])
  }

  /** Every catalogue word has an entry. */
  predicate Covers(vocab: seq<Word>, progress: map<string, Entry>)
  {
    forall i :: 0 <= i < |vocab| ==> vocab[i].word in progress
  }

  // ---------------------------------------------------------------------
  // The update rule

  function Min(a: int, b: int): int { if a <= b then a else b }
  function Max(a: int, b: int): int { if a >= b then a else b }

  /** Truncation toward zero of x / 10, as `int(...)` does on interval * ease. */
  function TruncTenths(x: int): int
  {
    if x >= 0 then x / 10 else -((-x) / 10)
  }

  /** The entry after one answer given on day `today`. Either answer keeps
      an entry within its bounds. */
  function Review(e: Entry, correct: bool, today: int): (r: Entry)
    ensures EntryOk(e) ==> EntryOk(r)
  {
    if correct then
      e.(timesCorrect := e.timesCorrect + 1,
         intervalDays := if e.intervalDays == DefaultInterval then GraduationInterval
                         else TruncTenths(e.intervalDays * e.ease10),
         ease10 := Min(e.ease10 + EaseStepUp, MaxEase10),
         lastReviewed := today)
    else
      e.(timesWrong := e.timesWrong + 1,
         intervalDays := DefaultInterval,
         ease10 := Max(e.ease10 - EaseStepDown, MinEase10),
         lastReviewed := today)
  }

  /** A correct answer: one more success, failures untouched, the interval
      graduates from 1 to 6 days or is multiplied by the ease and rounded
      down, and the ease rises by a tenth up to 3.0. */
  lemma ReviewCorrect(e: Entry, today: int)
    requires e.intervalDays >= 0 && e.ease10 >= 0
    ensures var r := Review(e, true, today);
      && r.timesCorrect == e.timesCorrect + 1
      && r.timesWrong == e.timesWrong
      && r.difficultyLevel == e.difficultyLevel
      && r.lastReviewed == today
      && (e.intervalDays == DefaultInterval ==> r.intervalDays == GraduationInterval)
      && (e.intervalDays != DefaultInterval ==>
            10 * r.intervalDays <= e.intervalDays * e.ease10 < 10 * (r.intervalDays + 1))
      && r.ease10 <= e.ease10 + EaseStepUp && r.ease10 <= MaxEase10
      && (r.ease10 == e.ease10 + EaseStepUp || r.ease10 == MaxEase10)
  {
  }

  /** A wrong answer: one more failure, the interval back to one day and the
      ease lowered by two tenths down to 1.3. */
  lemma ReviewWrong(e: Entry, today: int)
    ensures var r := Review(e, false, today);
      && r.timesWrong == e.timesWrong + 1
      && r.timesCorrect == e.timesCorrect
      && r.difficultyLevel == e.difficultyLevel
      && r.lastReviewed == today
      && r.intervalDays == DefaultInterval
      && r.ease10 >= e.ease10 - EaseStepDown && r.ease10 >= MinEase10
      && (r.ease10 == e.ease10 - EaseStepDown || r.ease10 == MinEase10)
  {
  }

  /** A correct answer never shortens the interval; from one day it grows. */
  lemma CorrectNeverShrinksInterval(e: Entry, today: int)
    requires EntryOk(e)
    ensures Review(e, true, today).intervalDays >= e.intervalDays
    ensures e.intervalDays == 1 ==> Review(e, true, today).intervalDays > e.intervalDays
  {
  }

  /** Two correct answers on a new word: interval 1 -> 6 -> 15 (6 * 2.6 rounded
      down) and ease 2.5 -> 2.6 -> 2.7. */
  lemma TwoCorrectFromNew(day1: int, day2: int)
    ensures var once := Review(DefaultEntry(), true, day1);
      && once.intervalDays == 6 && once.ease10 == 26
      && Review(once, true, day2).intervalDays == 15
      && Review(once, true, day2).ease10 == 27
  {
  }

  /** One recorded answer: whether it was right and the day it was given. */
  datatype Answer = Answer(correct: bool, day: int)

  /** The entry after a series of answers, oldest first. */
  function ReviewAll(e: Entry, answers: seq<Answer>): Entry
    decreases |answers|
  {
    if answers == [] then e
    else ReviewAll(Review(e, answers[0].correct, answers[0].day), answers[1..])
  }

  /** No series of answers takes an entry out of its bounds. */
  lemma {:induction false} ReviewAllKeepsBounds(e: Entry, answers: seq<Answer>)
    requires EntryOk(e)
    ensures EntryOk(ReviewAll(e, answers))
    decreases |answers|
  {
    if answers != [] {
      ReviewAllKeepsBounds(Review(e, answers[0].correct, answers[0].day), answers[1..]);
    }
  }

  predicate AllCorrect(answers: seq<Answer>)
  {
    forall i :: 0 <= i < |answers| ==> answers[i].correct
  }

  predicate AllWrong(answers: seq<Answer>)
  {
    forall i :: 0 <= i < |answers| ==> !answers[i].correct
  }

  /** n correct answers in a row raise the ease by n tenths, capped at 3.0. */
  lemma {:induction false} RepeatedCorrectEase(e: Entry, answers: seq<Answer>)
    requires e.ease10 <= MaxEase10
    requires AllCorrect(answers)
    ensures ReviewAll(e, answers).ease10 == Min(e.ease10 + |answers|, MaxEase10)
    ensures ReviewAll(e, answers).timesCorrect == e.timesCorrect + |answers|
    ensures ReviewAll(e, answers).timesWrong == e.timesWrong
    decreases |answers|
  {
    if answers != [] {
      var next := Review(e, true, answers[0].day);
      assert AllCorrect(answers[1..]) by {
        forall i | 0 <= i < |answers[1..]| ensures answers[1..][i].correct {
          assert answers[1..][i] == answers[i + 1];
        }
      }
      RepeatedCorrectEase(next, answers[1..]);
    }
  }

  /** n wrong answers in a row lower the ease by 2n tenths, floored at 1.3. */
  lemma {:induction false} RepeatedWrongEase(e: Entry, answers: seq<Answer>)
    requires e.ease10 >= MinEase10
    requires AllWrong(answers)
    ensures ReviewAll(e, answers).ease10 == Max(e.ease10 - 2 * |answers|, MinEase10)
    ensures ReviewAll(e, answers).timesWrong == e.timesWrong + |answers|
    ensures ReviewAll(e, answers).timesCorrect == e.timesCorrect
    ensures answers != [] ==> ReviewAll(e, answers).intervalDays == 1
    decreases |answers|
  {
    if answers != [] {
      var next := Review(e, false, answers[0].day);
      assert AllWrong(answers[1..]) by {
        forall i | 0 <= i < |answers[1..]| ensures !answers[1..][i].correct {
          assert answers[1..][i] == answers[i + 1];
        }
      }
      RepeatedWrongEase(next, answers[1..]);
    }
  }

  // ---------------------------------------------------------------------
  // Reconciliation

  /** The progress map after the start-up pass over the catalogue, in
      catalogue order: a word without an entry gets the default one. */
  function Reconciled(vocab: seq<Word>, progress: map<string, Entry>): (r: map<string, Entry>)
    ensures Covers(vocab, r)
    ensures forall k :: k in progress ==> k in r && r[k] == progress[k]
    decreases |vocab|
  {
    if vocab == [] then progress
    else
      var w := vocab[0].word;
      Reconciled(vocab[1..], if w in progress then progress else progress[w := DefaultEntry()])
  }

  /** Reference definition: existing entries, plus a default entry for each
      catalogue word that had none. */
  function WithDefaults(vocab: seq<Word>, progress: map<string, Entry>): map<string, Entry>
  {
    map k | k in progress.Keys + WordsOf(vocab) :: if k in progress then progress[k] else DefaultEntry()
  }

  lemma {:induction false} ReconciledIsWithDefaults(vocab: seq<Word>, progress: map<string, Entry>)
    ensures Reconciled(vocab, progress) == WithDefaults(vocab, progress)
    decreases |vocab|
  {
    if vocab != [] {
      var w := vocab[0].word;
      var next := if w in progress then progress else progress[w := DefaultEntry()];
      ReconciledIsWithDefaults(vocab[1..], next);
      WordsOfCons(vocab);
      assert WithDefaults(vocab[1..], next) == WithDefaults(vocab, progress);
    }
  }

  /** After reconciliation every catalogue word has an entry; entries that
      existed are untouched (including those of words not in the catalogue);
      the only keys added are catalogue words, with the default entry. */
  lemma ReconcileSpec(vocab: seq<Word>, progress: map<string, Entry>)
    ensures var r := Reconciled(vocab, progress);
      && Covers(vocab, r)
      && (forall k :: k in progress ==> k in r && r[k] == progress[k])
      && (forall k :: k in r && k !in progress ==> k in WordsOf(vocab) && r[k] == DefaultEntry())
  {
  }

  /** Running reconciliation a second time changes nothing. */
  lemma ReconcileIdempotent(vocab: seq<Word>, progress: map<string, Entry>)
    ensures Reconciled(vocab, Reconciled(vocab, progress)) == Reconciled(vocab, progress)
  {
    var once := Reconciled(vocab, progress);
    ReconciledIsWithDefaults(vocab, progress);
    ReconciledIsWithDefaults(vocab, once);
    assert WithDefaults(vocab, once) == once;
  }

  /** Reconciliation keeps every entry within bounds when they all were. */
  lemma ReconcileKeepsBounds(vocab: seq<Word>, progress: map<string, Entry>)
    requires AllEntriesOk(progress)
    ensures AllEntriesOk(Reconciled(vocab, progress))
  {
  }

  /** The default entry is overdue on any day after 1970-01-02. */
  lemma DefaultIsOverdue(today: int)
    requires today > Epoch + DefaultInterval
    ensures today - (DefaultEntry().lastReviewed + DefaultEntry().intervalDays) > 0
  {
  }
}
