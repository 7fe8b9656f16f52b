/**
 * The N-up/N-down adaptive staircase of Adaptives/NUpNDown.py, as pure
 * functions over its state: `Next` is `__next__`, `SetCorr` is `set_corr`,
 * `Status` is `get_jump_status`. The class in adaptives.dfy is proved to
 * compute exactly these functions; the lemmas here say what they mean.
 */
module Staircase {

  /** The construction parameters. Counts are integers; the stimulus value
      and its steps are numbers, modelled as exact reals. */
  datatype Params = Params(nUp: int, nDown: int, maxRevs: int, stepUp: real, stepDown: real)

  /** The constructor's check: n_up, n_down, max_revs and step_up must be
      positive; step_down and the start value are not checked. */
  predicate ValidParams(p: Params) {
    p.nUp > 0 && p.nDown > 0 && p.maxRevs > 0 && p.stepUp > 0.0
  }

  /** The mutable part of the object. `lastJumpDir` is 1 after a jump that
      lowered the value, -1 after one that raised it, 0 before any jump. */
  datatype State = State(
    currVal: real,
    corrInARow: nat,
    incorrInARow: nat,
    lastJumpDir: int,
    revsCount: nat,
    setCorrFlag: bool,
    switchFlag: bool)

  /** A fresh staircase: the protocol flag starts armed. */
  function Init(startVal: real): State {
    State(startVal, 0, 0, 0, 0, true, false)
  }

  /** What the object keeps between calls: the run counters exclude each
      other and stay below their thresholds, and the direction is one of
      the three possible. */
  predicate Inv(p: Params, s: State) {
    && (s.corrInARow == 0 || s.incorrInARow == 0)
    && s.corrInARow < p.nUp
    && s.incorrInARow < p.nDown
    && -1 <= s.lastJumpDir <= 1
  }

  /** What `__next__` does: return the value, signal the end of the
      sequence, or raise because `set_corr` was not called since the last
      value. */
  datatype NextResult = Value(v: real) | StopIteration | ProtocolError

  function Next(p: Params, s: State): (r: (State, NextResult))
    ensures r.1.ProtocolError? <==> !s.setCorrFlag
    ensures r.1.Value? <==> s.setCorrFlag && s.revsCount < p.maxRevs
    ensures r.1.Value? ==> r.1.v == s.currVal
    // the flag is cleared before the termination test, so also on StopIteration
    ensures !r.0.setCorrFlag
    // nothing but the flag changes
    ensures r.0.(setCorrFlag := s.setCorrFlag) == s
  {
    if !s.setCorrFlag then (s, ProtocolError)
    else
      var s' := s.(setCorrFlag := false);
      if s.revsCount < p.maxRevs then (s', Value(s.currVal)) else (s', StopIteration)
  }

  /** The run counters right after one answer, before any jump resets them. */
  function Runs(s: State, corr: bool): (nat, nat) {
    if corr then (s.corrInARow + 1, 0) else (0, s.incorrInARow + 1)
  }

  /** Whether the correct run reaches n_up. */
  predicate UpFires(p: Params, s: State, corr: bool) {
    p.nUp == Runs(s, corr).0
  }

  /** Whether the incorrect run reaches n_down. */
  predicate DownFires(p: Params, s: State, corr: bool) {
    p.nDown == Runs(s, corr).1
  }

  /** The direction of the jump one answer causes. The two checks are
      independent and the second one decides when both fire. */
  function Jump(p: Params, s: State, corr: bool): int {
    if DownFires(p, s, corr) then -1 else if UpFires(p, s, corr) then 1 else 0
  }

  /** The value after the two threshold checks, before the clamp: reaching
      n_up subtracts step_up, reaching n_down adds step_down. */
  function Shifted(p: Params, s: State, corr: bool): real {
    var v := if UpFires(p, s, corr) then s.currVal - p.stepUp else s.currVal;
    if DownFires(p, s, corr) then v + p.stepDown else v
  }

  /** Negative values are replaced by 0 (with a warning in the source). */
  function Clamp(v: real): real {
    if v < 0.0 then 0.0 else v
  }

  /** Whether an answer reverses the direction of the staircase: it causes a
      jump, there was an earlier jump, and the two differ. */
  predicate Reverses(p: Params, s: State, corr: bool) {
    Jump(p, s, corr) != 0 && s.lastJumpDir != 0 && Jump(p, s, corr) != s.lastJumpDir
  }

  /** What `set_corr` does to the state. */
  function SetCorr(p: Params, s: State, corr: bool): (t: State)
    ensures t.setCorrFlag
    ensures t.currVal >= 0.0
    ensures s.revsCount <= t.revsCount <= s.revsCount + 1
    ensures t.switchFlag <==> t.revsCount == s.revsCount + 1
    ensures s.lastJumpDir != 0 ==> t.lastJumpDir != 0
  {
    var jump := Jump(p, s, corr);
    var reversal := Reverses(p, s, corr);
    State(
      currVal := Clamp(Shifted(p, s, corr)),
      corrInARow := if jump != 0 then 0 else Runs(s, corr).0,
      incorrInARow := if jump != 0 then 0 else Runs(s, corr).1,
      lastJumpDir := if jump != 0 then jump else s.lastJumpDir,
      revsCount := if reversal then s.revsCount + 1 else s.revsCount,
      setCorrFlag := true,
      switchFlag := reversal)
  }

  /** What `get_jump_status` returns. */
  function Status(s: State): (int, bool, nat) {
    (s.lastJumpDir, s.switchFlag, s.revsCount)
  }

  // ---------------------------------------------------------------------
  // Properties of one call

  /** With valid parameters at most one threshold fires per answer. */
  lemma AtMostOneThreshold(p: Params, s: State, corr: bool)
    requires ValidParams(p)
    ensures !(UpFires(p, s, corr) && DownFires(p, s, corr))
    ensures UpFires(p, s, corr) ==> corr
    ensures DownFires(p, s, corr) ==> !corr
  {
  }

  /** Every `set_corr` keeps the run counters exclusive and below their
      thresholds, because reaching a threshold jumps and resets both. */
  lemma SetCorrKeepsInv(p: Params, s: State, corr: bool)
    requires ValidParams(p) && Inv(p, s)
    ensures Inv(p, SetCorr(p, s, corr))
  {
  }

  /** How the value changes: n_up corrects in a row lower it by step_up,
      n_down incorrects in a row raise it by step_down, and otherwise only
      the clamp touches it. */
  lemma SetCorrValue(p: Params, s: State, corr: bool)
    requires ValidParams(p) && Inv(p, s)
    ensures corr && s.corrInARow + 1 == p.nUp ==>
      var t := SetCorr(p, s, corr);
      t.currVal == Clamp(s.currVal - p.stepUp) && Jump(p, s, corr) == 1
      && t.corrInARow == 0 && t.incorrInARow == 0
    ensures !corr && s.incorrInARow + 1 == p.nDown ==>
      var t := SetCorr(p, s, corr);
      t.currVal == Clamp(s.currVal + p.stepDown) && Jump(p, s, corr) == -1
      && t.corrInARow == 0 && t.incorrInARow == 0
    ensures Jump(p, s, corr) == 0 ==>
      var t := SetCorr(p, s, corr);
      t.currVal == Clamp(s.currVal)
      && (corr ==> t.corrInARow == s.corrInARow + 1 && t.incorrInARow == 0)
      && (!corr ==> t.incorrInARow == s.incorrInARow + 1 && t.corrInARow == 0)
  {
  }

  /** The two checks are independent: when both fire (possible only with
      parameters the constructor refuses) both steps apply and the second
      check sets the direction to -1. */
  lemma BothThresholdsFire(p: Params, s: State, corr: bool)
    requires UpFires(p, s, corr) && DownFires(p, s, corr)
    ensures SetCorr(p, s, corr).currVal == Clamp(s.currVal - p.stepUp + p.stepDown)
    ensures Jump(p, s, corr) == -1
  {
  }

  /** Reversals: the first jump only records its direction; a later jump
      against the recorded direction counts one reversal, flips the
      direction and raises the switch flag; a jump in the same direction,
      or no jump, changes neither. */
  lemma SetCorrReversal(p: Params, s: State, corr: bool)
    ensures var t := SetCorr(p, s, corr); var j := Jump(p, s, corr);
      && (j == 0 ==> t.lastJumpDir == s.lastJumpDir && t.revsCount == s.revsCount && !t.switchFlag)
      && (j != 0 && s.lastJumpDir == 0 ==> t.lastJumpDir == j && t.revsCount == s.revsCount && !t.switchFlag)
      && (j != 0 && s.lastJumpDir != 0 && j != s.lastJumpDir ==>
            t.lastJumpDir == j && t.revsCount == s.revsCount + 1 && t.switchFlag)
      && (j != 0 && j == s.lastJumpDir ==> t.lastJumpDir == s.lastJumpDir && t.revsCount == s.revsCount && !t.switchFlag)
  {
  }

  /** `get_jump_status` reports whether the last `set_corr` reversed the
      staircase. */
  lemma StatusReportsReversal(p: Params, s: State, corr: bool)
    ensures Status(SetCorr(p, s, corr)).1 <==> Reverses(p, s, corr)
    ensures Status(SetCorr(p, s, corr)).2 == s.revsCount + (if Reverses(p, s, corr) then 1 else 0)
  {
  }

  // ---------------------------------------------------------------------
  // The protocol between `__next__` and `set_corr`

  /** The first `__next__` of a fresh staircase never raises. */
  lemma FirstNextSucceeds(p: Params, startVal: real)
    requires ValidParams(p)
    ensures Next(p, Init(startVal)).1 == Value(startVal)
  {
  }

  /** Two `__next__` calls without a `set_corr` in between: the second
      raises, whatever the first returned. */
  lemma SecondNextRaises(p: Params, s: State)
    ensures Next(p, Next(p, s).0).1 == ProtocolError
  {
  }

  /** `set_corr` re-arms the protocol flag, so the following `__next__`
      never raises. */
  lemma SetCorrRearms(p: Params, s: State, corr: bool)
    ensures !Next(p, SetCorr(p, s, corr)).1.ProtocolError?
  {
  }

  /** Once `__next__` has signalled the end, asking again raises the
      protocol error rather than signalling the end a second time. */
  lemma StopIsNotRepeated(p: Params, s: State)
    requires Next(p, s).1 == StopIteration
    ensures Next(p, Next(p, s).0).1 == ProtocolError
  {
  }

  // ---------------------------------------------------------------------
  // Whole experiments

  /** How an experiment loop ended: `__next__` signalled the end, the caller
      ran out of answers (its own trial limit), or `__next__` raised. */
  datatype End = Stopped | AnswersUsed | Raised

  /** The trace of an experiment loop: the final state, the values that were
      presented, and how the loop ended. */
  datatype Session = Session(final: State, presented: seq<real>, end: End)

  /** The loop every experiment script runs: take a value from `__next__`,
      present it, feed the participant's answer to `set_corr`, and stop on
      StopIteration or when the answers are used up. */
  function RunSession(p: Params, s: State, answers: seq<bool>): Session
    decreases |answers|
  {
    if answers == [] then Session(s, [], AnswersUsed)
    else
      var (s1, r) := Next(p, s);
      match r
      case Value(v) =>
        var rest := RunSession(p, SetCorr(p, s1, answers[0]), answers[1..]);
        rest.(presented := [v] + rest.presented)
      case StopIteration => Session(s1, [], Stopped)
      case ProtocolError => Session(s1, [], Raised)
  }

  /** What holds between two trials of an experiment loop. */
  predicate Between(p: Params, s: State) {
    ValidParams(p) && Inv(p, s) && s.setCorrFlag && s.revsCount <= p.maxRevs
  }

  /** In an experiment loop the protocol is never violated, the reversal
      count never passes max_revs and grows by at most one per trial, the
      loop ends by StopIteration only with exactly max_revs reversals, and
      every value presented after the first is non-negative. */
  lemma {:induction false} SessionFacts(p: Params, s: State, answers: seq<bool>)
    requires Between(p, s)
    ensures var e := RunSession(p, s, answers);
      && e.end != Raised
      && Inv(p, e.final)
      && s.revsCount <= e.final.revsCount <= p.maxRevs
      && e.final.revsCount - s.revsCount <= |e.presented| <= |answers|
      && (e.end == Stopped <==> e.final.revsCount == p.maxRevs && |e.presented| < |answers|)
      && (e.end == AnswersUsed ==> |e.presented| == |answers|)
      && (forall k :: 1 <= k < |e.presented| ==> e.presented[k] >= 0.0)
      && (|e.presented| > 0 ==> e.presented[0] == s.currVal)
    decreases |answers|
  {
    if answers != [] {
      var (s1, r) := Next(p, s);
      if r.Value? {
        var s2 := SetCorr(p, s1, answers[0]);
        SetCorrKeepsInv(p, s1, answers[0]);
        SessionFacts(p, s2, answers[1..]);
        var rest := RunSession(p, s2, answers[1..]);
        assert RunSession(p, s, answers).presented == [s.currVal] + rest.presented;
        assert rest.presented == [] || rest.presented[0] == s2.currVal;
      }
    }
  }

  /** Starting from a non-negative value, no value presented in an
      experiment loop is negative. */
  lemma SessionNonNegative(p: Params, startVal: real, answers: seq<bool>)
    requires ValidParams(p) && startVal >= 0.0
    ensures forall v :: v in RunSession(p, Init(startVal), answers).presented ==> v >= 0.0
  {
    SessionFacts(p, Init(startVal), answers);
  }

  /** A 1-up/1-down staircase from 5 with max_revs 2: the answers
      correct, correct, incorrect, incorrect, correct present 5, 4, 3, 4, 5,
      make two reversals, and the sixth `__next__` ends the sequence. */
  lemma ScenarioTwoReversals()
    ensures
      var p := Params(1, 1, 2, 1.0, 1.0);
      var e := RunSession(p, Init(5.0), [true, true, false, false, true, true]);
      && e.presented == [5.0, 4.0, 3.0, 4.0, 5.0]
      && e.end == Stopped
      && e.final == State(4.0, 0, 0, 1, 2, false, true)
  {
    var p := Params(1, 1, 2, 1.0, 1.0);
    var s1 := SetCorr(p, Init(5.0).(setCorrFlag := false), true);
    assert s1 == State(4.0, 0, 0, 1, 0, true, false);
    var s2 := SetCorr(p, s1.(setCorrFlag := false), true);
    assert s2 == State(3.0, 0, 0, 1, 0, true, false);
    var s3 := SetCorr(p, s2.(setCorrFlag := false), false);
    assert s3 == State(4.0, 0, 0, -1, 1, true, true);
    var s4 := SetCorr(p, s3.(setCorrFlag := false), false);
    assert s4 == State(5.0, 0, 0, -1, 1, true, false);
    var s5 := SetCorr(p, s4.(setCorrFlag := false), true);
    assert s5 == State(4.0, 0, 0, 1, 2, true, true);
    assert RunSession(p, s5, [true]) == Session(s5.(setCorrFlag := false), [], Stopped);
  }

  /** From 0 with step_up 1, a correct answer that reaches n_up = 1 would
      take the value to -1; it is clamped to 0 instead. */
  lemma ScenarioClampAtZero()
    ensures SetCorr(Params(1, 1, 8, 1.0, 1.0), Init(0.0), true).currVal == 0.0
  {
  }
}
