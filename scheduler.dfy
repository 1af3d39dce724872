/**
  Next-word selection. Each word's priority is ten points per day overdue
  (negative when not yet due) plus five points per wrong answer plus a jitter
  term; the word the application shows next is the one a stable descending
  sort of the priorities puts first.
 */
module Scheduler {
  import opened Wrappers
  import opened Vocabulary
  import opened Progress

  /** Days past the scheduled review day; negative when not yet due. */
  function DaysOverdue(e: Entry, today: int): int
  {
    today - (e.lastReviewed + e.intervalDays)
  }

  /** The deterministic part of the priority. */
  function BaseScore(e: Entry, today: int): (r: int)
    ensures r % 5 == 0
  {
    10 * DaysOverdue(e, today) + 5 * e.timesWrong
  }

  /** The range of the jitter term. */
  predicate JitterOk(jitter: real)
  {
    -2.0 <= jitter <= 2.0
  }

  function Priority(e: Entry, today: int, jitter: real): (r: real)
    ensures JitterOk(jitter) ==>
      (BaseScore(e, today) - 2) as real <= r <= (BaseScore(e, today) + 2) as real
  {
    BaseScore(e, today) as real + jitter
  }

  /** The priority of each catalogue word, in catalogue order. */
  function Priorities(vocab: seq<Word>, progress: map<string, Entry>, today: int, jitter: seq<real>): seq<real>
    requires Covers(vocab, progress)
    requires |jitter| == |vocab|
  {
    seq(|vocab|, i requires 0 <= i < |vocab| => Priority(progress[vocab[i].word], today, jitter[i]))
  }

  /** Index k is what a stable descending sort puts first: its priority is
      the largest, and every earlier index has a strictly smaller one. */
  predicate IsStableHead(p: seq<real>, k: int)
  {
    && 0 <= k < |p|
    && (forall j :: 0 <= j < |p| ==> p[j] <= p[k])
    && (forall j :: 0 <= j < k ==> p[j] < p[k])
  }

  /** The earliest index of a maximal priority, scanning left to right:
      the element a stable descending sort puts first. */
  function FirstMaxIndex(p: seq<real>): (k: nat)
    requires p != []
    ensures IsStableHead(p, k)
    decreases |p|
  {
    if |p| == 1 then 0
    else
      var init := p[..|p| - 1];
      var k := FirstMaxIndex(init);
      assert forall j :: 0 <= j < |init| ==> init[j] == p[j];
      if p[|p| - 1] > p[k] then |p| - 1 else k
  }

  /** Only one index can be put first, so the scan is the sort's choice. */
  lemma StableHeadUnique(p: seq<real>, k: int)
    requires IsStableHead(p, k)
    ensures k == FirstMaxIndex(p)
  {
  }

  /** The word shown next, or None when the catalogue is empty. */
  function Select(vocab: seq<Word>, progress: map<string, Entry>, today: int, jitter: seq<real>): (r: Option<Word>)
    requires Covers(vocab, progress)
    requires |jitter| == |vocab|
    ensures r.None? <==> vocab == []
    ensures r.Some? ==> r.value in vocab
  {
    if vocab == [] then None
    else Some(vocab[FirstMaxIndex(Priorities(vocab, progress, today, jitter))])
  }

  /** On a non-empty catalogue the selected word sits at an index whose
      priority is at least every other word's and strictly above every word
      before it in the catalogue. */
  lemma SelectIsStableHead(vocab: seq<Word>, progress: map<string, Entry>, today: int, jitter: seq<real>)
    requires Covers(vocab, progress)
    requires |jitter| == |vocab|
    requires vocab != []
    ensures exists k :: IsStableHead(Priorities(vocab, progress, today, jitter), k)
                        && Select(vocab, progress, today, jitter) == Some(vocab[k])
  {
    var p := Priorities(vocab, progress, today, jitter);
    var k := FirstMaxIndex(p);
    assert IsStableHead(p, k) && Select(vocab, progress, today, jitter) == Some(vocab[k]);
  }

  /** Jitter in [-2, 2] only decides between equal base scores: base scores
      differ by multiples of five, so a higher base score always wins. */
  lemma JitterOnlyBreaksTies(a: Entry, b: Entry, today: int, ja: real, jb: real)
    requires JitterOk(ja) && JitterOk(jb)
    requires BaseScore(a, today) > BaseScore(b, today)
    ensures Priority(a, today, ja) > Priority(b, today, jb)
  {
    var d := BaseScore(a, today) - BaseScore(b, today);
    var q := 2 * (DaysOverdue(a, today) - DaysOverdue(b, today)) + (a.timesWrong - b.timesWrong);
    assert d == 5 * q;
  }

  /** A word ten days overdue with no mistakes outranks a word due today with
      three mistakes, whatever the jitter (100 against 15). */
  lemma OverdueBeatsErrorProne(a: Entry, b: Entry, today: int, ja: real, jb: real)
    requires JitterOk(ja) && JitterOk(jb)
    requires DaysOverdue(a, today) == 10 && a.timesWrong == 0
    requires DaysOverdue(b, today) == 0 && b.timesWrong == 3
    ensures Priority(a, today, ja) > Priority(b, today, jb)
  {
  }
}
