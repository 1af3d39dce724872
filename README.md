# Mnemonic trainer: spaced-repetition core

A Dafny model of the scheduling core of the `MnemonicApp` flashcard trainer (`main.py`). The trainer shows a vocabulary word and reveals its translation, its mnemonic and its image one click at a time. It then records whether the user knew the word and picks the next word to review.

The model covers four parts:

- **Progress reconciliation** at start-up. Every catalogue word that has no progress entry gets the default one: interval 1 day, last reviewed 1970-01-01, difficulty 1, no correct or wrong answers, ease 2.5.
- **Next-word selection.** Each word gets a priority of `10 * days_overdue + 5 * times_wrong + jitter`. The word shown next is the one a stable descending sort of the priorities puts first.
- **The interval/ease update** applied to the entry of the word on screen after a correct or a wrong answer.
- **The reveal-stage state machine**: word only, translation, mnemonic, image.

Modules:

- `Wrappers` (`wrappers.dfy`): `Option`.
- `Vocabulary` (`vocabulary.dfy`): the word record and the set of catalogue keys.
- `Progress` (`progress.dfy`): the progress entry, the update rule `Review`, and reconciliation.
  - `Reconciled` is a fold in catalogue order, the way the start-up loop runs.
  - `WithDefaults` is an independent reference definition that builds the same map in one step.
- `Scheduler` (`scheduler.dfy`): priorities and the selection function `Select`.
- `Reveal` (`reveal.dfy`): the stage function and its iterates.
- `App` (`app.dfy`): the class `MnemonicApp`. Its fields `vocab`, `progress`, `current` and `stage` are updated in place by methods that mirror the application's handlers. Each method's contract ties the new state to the functions above.

Representation choices:

- Dates are day numbers, with 1970-01-01 as day 0.
- The ease factor is an integer number of tenths, so 25 stands for 2.5.
- `int(interval_days * ease_factor)` is `interval * ease10 / 10`, truncated toward zero as Python's `int` truncates.
- The current date and the jitter values are parameters: one jitter value per catalogue word, in catalogue order.

## Model

| member | source | states |
|---|---|---|
| `App.MnemonicApp.constructor` | main.py:16-30 | Start-up with no word on screen and stage 0. The progress map is reconciled against the catalogue, then the first word is selected. The session invariant holds afterwards. |
| `App.MnemonicApp.ReconcileProgress` | main.py:59-70 | The start-up loop inserts default entries in catalogue order. The resulting map is the reconciliation of the old map, and every catalogue word has an entry. |
| `App.MnemonicApp.NextWord` | main.py:254-279 | Builds the list of priorities, then takes the head of its stable descending sort. Returns exactly the selection function's word: None for an empty catalogue. |
| `App.MnemonicApp.LoadNextWord` | main.py:281-288 | The word on screen becomes the selected word. The stage goes back to 0 only when a word was loaded; with an empty catalogue it is left as it was. |
| `App.MnemonicApp.RevealNext` | main.py:214-232 | With no word on screen nothing changes. Otherwise the stage takes one step of the reveal machine. The stage stays within 0..3. |
| `App.MnemonicApp.UpdateProgress` | main.py:304-326 | With no word on screen the map is unchanged. Otherwise only the current word's entry changes, to the reviewed entry, and the key set stays the same. Entry bounds are preserved. |
| `App.MnemonicApp.CorrectAnswer` | main.py:336-339 | Applies the correct-answer update to the word on screen, then loads the next word, selected from the updated map. |
| `App.MnemonicApp.WrongAnswer` | main.py:341-344 | Applies the wrong-answer update to the word on screen, then loads the next word, selected from the updated map. |
| `Progress.ReviewCorrect` | main.py:313-319 | After a correct answer: `times_correct` goes up by one and `times_wrong` is unchanged. An interval of 1 becomes 6; any other interval becomes the floor of interval × ease. The ease rises by 0.1 but never above 3.0. `last_reviewed` becomes today. |
| `Progress.ReviewWrong` | main.py:320-325 | After a wrong answer: `times_wrong` goes up by one and `times_correct` is unchanged. The interval becomes 1. The ease falls by 0.2 but never below 1.3. `last_reviewed` becomes today. |
| `Progress.DefaultEntry` | main.py:63-70 | The entry a new word gets: interval 1, last reviewed 1970-01-01, difficulty 1, no answers, ease 2.5. It is within the entry bounds. |
| `Progress.Review` | main.py:313-325 | The entry after one answer on a given day. Either answer keeps interval ≥ 1, ease in [1.3, 3.0] and both counters non-negative. |
| `Progress.CorrectNeverShrinksInterval` | main.py:315-318 | On a well-formed entry a correct answer never shortens the interval, and it strictly lengthens an interval of 1. |
| `Progress.TwoCorrectFromNew` | main.py:313-319 | A new word answered correctly twice goes to interval 6 and ease 2.6, then to interval 15 and ease 2.7. |
| `Progress.ReviewAllKeepsBounds` | main.py:304-326 | No sequence of answers takes an entry out of its bounds. |
| `Progress.RepeatedCorrectEase` | main.py:314-319 | n correct answers in a row give ease = min(ease + 0.1·n, 3.0) and n more correct answers. |
| `Progress.RepeatedWrongEase` | main.py:321-323 | n wrong answers in a row give ease = max(ease − 0.2·n, 1.3), n more wrong answers, and an interval of 1. |
| `Progress.Reconciled` | main.py:60-70 | The start-up pass over the catalogue, in catalogue order. Afterwards every catalogue word has an entry, and every entry that existed is kept with its value. |
| `Progress.ReconciledIsWithDefaults` | main.py:59-70 | The catalogue-order fold equals the reference map. That map keeps every existing entry and adds a default entry for each catalogue word that had none. |
| `Progress.ReconcileSpec` | main.py:59-70 | After reconciliation every catalogue word has an entry. Existing entries are unchanged, including those of words not in the catalogue. Every added key is a catalogue word, mapped to the default entry. |
| `Progress.ReconcileIdempotent` | main.py:62-70 | Reconciling a second time changes nothing. |
| `Progress.ReconcileKeepsBounds` | main.py:63-70 | The default entry is within bounds, so reconciliation keeps a well-formed map well-formed. |
| `Progress.DefaultIsOverdue` | main.py:63-70 | A default entry is overdue on every day after 1970-01-02. |
| `Scheduler.BaseScore` | main.py:266-272 | Ten points per day past the scheduled review day (negative when not yet due) plus five per wrong answer. It is always a multiple of five. |
| `Scheduler.Priority` | main.py:270-274 | The base score plus the jitter term. With jitter in [-2, 2] it lies within 2 of the base score. |
| `Scheduler.Select` | main.py:256-279 | Returns None exactly when the catalogue is empty; otherwise it returns a word of the catalogue. |
| `Scheduler.FirstMaxIndex` | main.py:278-279 | The left-to-right scan finds an index whose priority is ≥ every priority and strictly greater than every earlier one. That index is the element a stable descending sort puts first. |
| `Scheduler.StableHeadUnique` | main.py:278-279 | Only one index has that property, so the scan and the stable sort pick the same word. |
| `Scheduler.SelectIsStableHead` | main.py:266-279 | Properties of the selected word: its priority is at least every other word's priority. On ties, the word earliest in catalogue order wins. |
| `Scheduler.JitterOnlyBreaksTies` | main.py:270-274 | Base scores are multiples of five apart, so with jitter in [-2, 2] a word with a higher base score always has the higher priority. |
| `Scheduler.OverdueBeatsErrorProne` | main.py:266-274 | A word 10 days overdue with no mistakes outranks a word due today with 3 mistakes, whatever the jitter. |
| `Reveal.NextStage` | main.py:219-232 | One reveal advances the stage by exactly one while it is below 3, and leaves it at 3 once there. |
| `Reveal.RevealTimesSaturates` | main.py:214-232 | n reveals from stage s reach min(s + n, 3). |
| `Reveal.ThreeRevealsShowImage` | main.py:219-232 | Three reveals on a fresh card reach the image stage; a fourth changes nothing. |

Two behaviours of the program that the model keeps:

- With an empty catalogue `get_next_word` returns None (main.py:256-257) and `load_next_word` loads no word; no error is raised.
- Ties go to the earliest catalogue word, because `list.sort` with `reverse=True` is stable (main.py:278).

## Left out

- The Tk window, labels, buttons, key bindings and scrolling; these are presentation only. `reveal_next` and `load_next_word` are modelled through their effect on the stage and the current word, not on labels.
- Image loading and thumbnailing: this needs PIL and the filesystem.
- Reading `vocabulary.json` and `progress.json`, including the fallback to an empty map on any load error, and `save_progress` after each update. These are file I/O. The constructor takes the already loaded catalogue and progress map.
- If the catalogue fails to load, start-up stops early. This branch is I/O failure handling and is not modelled.
- `datetime.now()` and the ISO date parsing are replaced by day numbers passed in by the caller.
- Scheduler.Select: days are unbounded integers. The program's dates end at 9999-12-31, which is day 2932896. `last_reviewed + timedelta(days=interval_days)` (main.py:267) raises `OverflowError` once that sum passes 9999-12-31, and the model does not capture this.
  - Ordinary use reaches that point. From a new word, 14 correct answers in a row give an interval of 6377292 days, beyond the calendar from any present-day review date.
  - After the 14th such answer the program saves the entry (main.py:326), then `get_next_word` raises, leaving the current word and stage as they were.
  - Every later start-up raises the same way, through `load_next_word` (main.py:30).
  - In this state the model still returns a word.
- App.MnemonicApp.NextWord: computes `Scheduler.Select`, so it inherits the same gap. It returns a word where the program raises `OverflowError` past 9999-12-31.
- `random.uniform(-2, 2)` is replaced by caller-supplied jitter values. `JitterOk` states their range, and only the jitter lemmas assume it.
- Floating point: the ease is exact tenths and the priority is an exact real. Python floats drift: 2.5 − 0.2 − 0.2 is 2.0999999999999996, so `int(10 * ease)` gives 20 where the model has 21. Float rounding in the priority sum can also split or merge ties. In these edge cases the model is not bit-exact with the program.
- The full sorted list of priorities: only its first element is ever used. The model computes that element with a scan and proves it is the head of a stable descending sort; it does not sort the list.
- A catalogue record without a `word` field, and a catalogue word without a progress entry, raise `KeyError` in the program. They are not modelled as errors:
  - Records always have a `word`.
  - `Valid` requires every catalogue word to have an entry, which reconciliation establishes at start-up.
- App.MnemonicApp.RevealNext: at stage 0 or 1, `reveal_next` raises `KeyError` on a record without `translation` or `mnemonic` (main.py:220, 225). It raises before the stage is assigned, so the stage does not advance. The model's `Word` always carries both fields, so `RevealNext` always advances.
- Duplicate words in the catalogue have no special handling in the program, and none in the model.
- The program updates the entry dictionary in place. The model replaces the map entry with the updated value; nothing else holds a reference to that entry, so no aliasing is lost.
- `Progress.ReviewCorrect`: the floor characterisation of the new interval is stated only for a non-negative interval and ease. For negative products, `Review` itself truncates toward zero as `int` does.
