# N-up/N-down staircase and trigger log, modelled in Dafny

This project models the two stateful components of a psychophysics
experiment harness that presents sounds and adapts the stimulus difference
(SOA, loudness or frequency difference) trial by trial.

- **The N-up/N-down staircase** (`NUpNDown`). It holds the current stimulus value
  and two run counters, one for consecutive correct answers and one for
  consecutive incorrect answers. It also holds the last jump direction, a reversal
  counter, a "reversal in the last trial" flag, and a protocol flag. The flag
  forces `set_corr` to be called between two `__next__` calls.
  - `staircase.dfy` (module `Staircase`) states the state transitions as pure
    functions and proves what they mean.
  - `adaptives.dfy` (module `Adaptives`) is the class itself. Its fields are
    updated in place, step by step as in the source, and each method is proved
    to compute the matching function.
- **The trigger log** (`TriggerHandler` in dummy mode). It keeps a list of
  trigger records (column name to value), a trigger counter that wraps from 60
  back to 1, and a marker. The marker counts the triggers sent since the current
  trial started. Info can be merged into the last records afterwards, and the
  list can be printed as comma-separated lines.
  - `trigger_log.dfy` (module `TriggerLog`) holds the pure specification and its
    lemmas.
  - `helpers.dfy` (module `Helpers`) is the class, with the in-place update loop
    and the nested string-building loops.
  - `text_format.dfy` (module `TextFormat`) holds the string operations:
    `','.join`, `str.split`, and `str(n)` for a natural number. Round-trip lemmas
    are proved for them.
- `wrappers.dfy` holds `Option`, `Result` and `Outcome`. Raised exceptions are
  modelled as values of these types.

Where the code and its own documentation disagree, the model follows the code.
- **Direction of the value change.** The docstring of `NUpNDown.__init__` says the
  value is increased after `n_up` correct answers. The code subtracts `step_up`
  (`Adaptives/NUpNDown.py:83`) and calls that jump direction 1. After `n_down`
  incorrect answers it adds `step_down` and records direction -1.
- **End of the sequence is not absorbing.** `__next__` clears the protocol flag
  before its termination test. So after it has signalled StopIteration once,
  another `__next__` raises the protocol error instead of signalling the end
  again (`Staircase.StopIsNotRepeated`).
- **Reversal bound.** `set_corr` itself is never guarded, so nothing in the class
  bounds the reversal count. The bound `revs_count <= max_revs` holds for the
  experiment loop the scripts run (`Staircase.SessionFacts`), not for arbitrary
  call sequences.
- **Value of the first trial.** The start value is not checked, so the first
  value presented may be negative. Only values after the first `set_corr` are
  clamped to be non-negative.

## Model

| member | source | states |
|---|---|---|
| Staircase.Next | Adaptives/NUpNDown.py:45-56 | raises exactly when `set_corr` was not called since the last value; otherwise yields `curr_val` exactly when `revs_count < max_revs` and signals StopIteration otherwise; the protocol flag ends cleared in every non-raising case, including StopIteration; nothing else changes |
| Staircase.SetCorr | Adaptives/NUpNDown.py:58-105 | after `set_corr` the protocol flag is re-armed, `curr_val >= 0`, `revs_count` grows by 0 or 1, the switch flag is set iff it grew, and a nonzero direction never returns to 0 |
| Staircase.AtMostOneThreshold | Adaptives/NUpNDown.py:74-88 | with valid parameters the `n_up` check fires only on a correct answer, the `n_down` check only on an incorrect one, never both |
| Staircase.SetCorrKeepsInv | Adaptives/NUpNDown.py:74-101 | the run counters stay mutually exclusive, below `n_up` and `n_down` respectively, and the direction stays in {-1, 0, 1} |
| Staircase.SetCorrValue | Adaptives/NUpNDown.py:82-88 | `n_up` corrects in a row lower the value by `step_up` (then clamp) and reset both counters; `n_down` incorrects in a row raise it by `step_down`; with no jump only the clamp applies and the answer's counter grows by one while the other is 0 |
| Staircase.BothThresholdsFire | Adaptives/NUpNDown.py:82-88 | the two checks are independent: if both fire both steps apply and the direction is -1 |
| Staircase.SetCorrReversal | Adaptives/NUpNDown.py:90-101 | the first jump only records its direction; a jump against the recorded direction adds exactly one reversal, flips the direction and sets the switch flag; a same-direction jump or no jump changes neither |
| Staircase.StatusReportsReversal | Adaptives/NUpNDown.py:107-108 | the switch flag reported by `get_jump_status` is true iff the last `set_corr` reversed the staircase, and the reported count grew by exactly that |
| Staircase.FirstNextSucceeds | Adaptives/NUpNDown.py:39-56 | the first `__next__` of a fresh staircase yields the start value |
| Staircase.SecondNextRaises | Adaptives/NUpNDown.py:47-49 | two `__next__` calls without `set_corr` in between: the second raises |
| Staircase.SetCorrRearms | Adaptives/NUpNDown.py:69 | after `set_corr` the next `__next__` never raises |
| Staircase.StopIsNotRepeated | Adaptives/NUpNDown.py:47-56 | after StopIteration a further `__next__` raises the protocol error |
| Staircase.SessionFacts | main.py:223-239 | in the experiment loop the protocol is never violated, the reversal count never passes `max_revs` and grows at most one per trial, the loop ends by StopIteration iff exactly `max_revs` reversals were reached before the answers ran out, and every value after the first is non-negative |
| Staircase.SessionNonNegative | Adaptives/NUpNDown.py:103-105 | from a non-negative start value no presented value is negative |
| Staircase.ScenarioTwoReversals | Adaptives/NUpNDown.py:74-101 | 1-up/1-down from 5 with `max_revs` 2: answers T,T,F,F,T present 5,4,3,4,5, make two reversals, and the sixth `__next__` ends |
| Staircase.ScenarioClampAtZero | Adaptives/NUpNDown.py:103-105 | from 0 with `step_up` 1 a jump down to -1 leaves the value at 0, without an error |
| Adaptives.NUpNDown.constructor | Adaptives/NUpNDown.py:27-40 | stores the parameters and starts with zero counters, direction 0, flag armed, no switch |
| Adaptives.NUpNDown.Create | Adaptives/NUpNDown.py:6-40 | fails iff one of `n_up`, `n_down`, `max_revs`, `step_up` is not positive (`step_down`, `start_val` unchecked); source defaults 3, 1, 8, 10, 1, 1 |
| Adaptives.NUpNDown.Next | Adaptives/NUpNDown.py:45-56 | the in-place `__next__` computes `Staircase.Next` and keeps the object invariant |
| Adaptives.NUpNDown.SetCorr | Adaptives/NUpNDown.py:58-105 | the step-by-step in-place `set_corr` computes `Staircase.SetCorr` and keeps the object invariant |
| Adaptives.NUpNDown.GetJumpStatus | Adaptives/NUpNDown.py:107-108 | returns direction, switch flag and reversal count without changing state; the direction is in {-1, 0, 1} |
| Adaptives.RunExperiment | main.py:223-239 | the script loop driving the object yields exactly the values, final state and ending of `Staircase.RunSession` |
| TextFormat.NatToDecimal | misc/helpers.py:110 | the trigger number's text is a non-empty string of decimal digits with no leading zero (together with `DecimalRoundTrip` this pins down exactly the text `str(n)` prints) |
| TextFormat.DecimalRoundTrip | misc/helpers.py:110 | reading the trigger number's text back gives the number |
| TextFormat.DecimalHasNoComma | misc/helpers.py:172 | the printed trigger number never contains the field separator |
| TextFormat.TerminatedIsJoin | misc/helpers.py:170-174 | appending each value followed by a comma and dropping the last character gives the comma-join |
| TextFormat.SplitJoin | misc/helpers.py:168-175 | splitting a comma-join at commas gives the values back when none contains a comma |
| TriggerLog.ParamsFor | misc/helpers.py:58-64 | the columns are `trigger_no`, `trigger_type`, then the extra columns in order |
| TriggerLog.InitValid | misc/helpers.py:58-70 | a new handler is valid, has the given types and the columns of `ParamsFor`, no records, counter 1 and no trial started |
| TriggerLog.NextCounterCycles | misc/helpers.py:118-120 | the counter after a trigger is `c mod 60 + 1`, so it stays in [1, 60] |
| TriggerLog.NewRecord | misc/helpers.py:110-117 | a record holds the counter's decimal text and the type, then the info, whose keys win; unregistered info keys are kept |
| TriggerLog.SendTrigger | misc/helpers.py:99-123 | fails with the unknown-type error iff the type is not registered; otherwise exactly one record is appended after the unchanged old ones, numbered with the counter before the call; the counter advances with wrap; the marker grows iff it was >= 0 |
| TriggerLog.SendKeepsValid | misc/helpers.py:118-123 | sending keeps the counter in [1, 60] and the marker within the number of records |
| TriggerLog.SetCurrTrialStart | misc/helpers.py:130-131 | the marker becomes 0 and nothing else changes |
| TriggerLog.AddInfoToLastTrigger | misc/helpers.py:143-164 | with `how_many = -1` and no trial it raises and changes nothing; with `how_many = -1` the marker is reset even if the length check then raises; on success the info is merged into exactly the last `how_many` records (info keys win, other keys kept) and earlier records and the length are unchanged |
| TriggerLog.AddInfoOutcome | misc/helpers.py:143-152 | for a valid log `how_many = -1` fails iff no trial was started; another `how_many` fails iff there are fewer records than it; validity is kept |
| TriggerLog.PrintableFormParses | misc/helpers.py:166-176 | the printable form has one line more than there are records; the header splits back into the columns and line `i + 1` into record `i`'s values in column order with UNKNOWN for missing ones, when nothing contains a comma |
| TriggerLog.SentRecordCommaFree | misc/helpers.py:110-117 | a record built by `send_trigger` prints comma-free fields when the columns, the type and the info values are comma-free, so `PrintableFormParses` applies to it |
| TriggerLog.UnregisteredNeverPrinted | misc/helpers.py:171-172 | keys that are not columns never affect the printable form |
| TriggerLog.ApplyAllKeepsValid | misc/helpers.py:86-164 | any sequence of calls keeps the counter in [1, 60] and the marker bounded, never removes a record and adds at most one per call |
| TriggerLog.SendAllFacts | misc/helpers.py:121-123 | sending n registered triggers appends n records after the unchanged old ones and moves a running marker n places |
| TriggerLog.TrialInfoReachesTrialTriggers | main.py:276-388 | on the class of misc/helpers.py (see "## Left out"): start a trial, send its triggers, add info with `how_many = -1`: the info lands in exactly the trial's records, earlier records are untouched and the marker is reset |
| Helpers.TriggerHandler.constructor | misc/helpers.py:47-70 | a new handler is the specification's initial log |
| Helpers.TriggerHandler.SendTrigger | misc/helpers.py:86-123 | the in-place `send_trigger` computes `TriggerLog.SendTrigger`; on failure nothing changes |
| Helpers.TriggerHandler.SetCurrTrialStart | misc/helpers.py:130-131 | the in-place update computes `TriggerLog.SetCurrTrialStart` |
| Helpers.TriggerHandler.AddInfoToLastTrigger | misc/helpers.py:133-164 | the in-place loop over the last records computes `TriggerLog.AddInfoToLastTrigger` |
| Helpers.TriggerHandler.PreparePrintableForm | misc/helpers.py:166-176 | the string-accumulating loops return exactly `TriggerLog.PrintableForm` of the columns and records |

## Left out

- Numbers: the stimulus value and its steps are exact reals. Python's floating-point rounding of `curr_val -= step_up` is not modelled. The counts are integers; a non-integer `n_up` or `n_down` (accepted by the source's check, never reached by `==`) is not modelled.
- Adaptives.NUpNDown.SetCorr: the assertion that the answer is a `bool` (`Adaptives/NUpNDown.py:67`) is not modelled. The parameter's Dafny type `bool` makes any other value unrepresentable.
- The `UserWarning` emitted on clamping and the console and log warnings of the trigger handler are not modelled. Only their effects on state are kept: the clamp, and the storing of unregistered keys.
- The unused `jumps` field of `NUpNDown` is not modelled.
- `NUpNDownMinIters` and `AbstractAdaptive` are not part of this model; their source is not available.
- TriggerHandler outside dummy mode is not modelled: parallel-port writes, `connect_to_eeg`, `send_clear`, the `time.sleep` delays behind `with_delay` and `trigger_time`, the timestamped `_logger`, `print_trigger_list` and `save_to_file`. These are hardware, clock and file I/O.
- Helpers.TriggerHandler.SendTrigger: `info=None` is modelled as an empty info map, which has the same effect on the records.
- Record values are strings. The source stores `trigger_no` as an integer and prints it with an f-string, so the model stores its decimal text. Other info values are modelled as the text the f-string prints for them: a caller passing a non-string (main.py:388 passes `corr` as a `bool`, printed `True`/`False`) is modelled as passing `str` of that value already.
- TriggerLog.TrialInfoReachesTrialTriggers: the experiment scripts import `TriggerHandler` from `procedures_misc.triggers`, which is not part of this model; the lemma models their call pattern (main.py:276-388) on the class of misc/helpers.py and assumes the two classes behave the same.
- The experiment scripts (dialogs, windows, keyboard, sound, CSV results, the answer-scoring table), waveform synthesis (`get_sine_wave`, `get_white_noise`), `show_info`, `present_learning_sample` and `Dict2Obj` are not modelled. They are UI, audio and I/O code. The script loop appears only as `Staircase.RunSession` and `Adaptives.RunExperiment`; there, the participant's answers are a given sequence and the trial limit is its length.
