/**
 * The class NUpNDown of Adaptives/NUpNDown.py: an object whose methods
 * update its fields in place, each method proved to compute the function
 * of the same name in module Staircase.
 */
module Adaptives {
  import opened Wrappers
  import S = Staircase

  /** The constructor's assertion failure ('Illegal init value'). */
  datatype InitError = IllegalInitValue

  class NUpNDown {
    const nUp: int
    const nDown: int
    const maxRevs: int
    const stepUp: real
    const stepDown: real

    var currVal: real
    var noCorrInARow: nat
    var noIncorrInARow: nat
    var lastJumpDir: int
    var revsCount: nat
    var setCorrFlag: bool
    var switchInLastTrialFlag: bool

    function Params(): S.Params {
      S.Params(nUp, nDown, maxRevs, stepUp, stepDown)
    }

    function State(): S.State
      reads this
    {
      S.State(currVal, noCorrInARow, noIncorrInARow, lastJumpDir, revsCount,
              setCorrFlag, switchInLastTrialFlag)
    }

    ghost predicate Valid()
      reads this
    {
      S.ValidParams(Params()) && S.Inv(Params(), State())
    }

    constructor (nUp: int, nDown: int, maxRevs: int, startVal: real, stepUp: real, stepDown: real)
      requires S.ValidParams(S.Params(nUp, nDown, maxRevs, stepUp, stepDown))
      ensures Valid()
      ensures Params() == S.Params(nUp, nDown, maxRevs, stepUp, stepDown)
      ensures State() == S.Init(startVal)
    {
      this.nUp := nUp;
      this.nDown := nDown;
      this.maxRevs := maxRevs;
      this.stepUp := stepUp;
      this.stepDown := stepDown;
      currVal := startVal;
      noCorrInARow := 0;
      noIncorrInARow := 0;
      lastJumpDir := 0;
      revsCount := 0;
      setCorrFlag := true;
      switchInLastTrialFlag := false;
    }

    /** `NUpNDown(...)` with the source's default arguments: fails unless
        n_up, n_down, max_revs and step_up are all positive. */
    static method Create(nUp: int := 3, nDown: int := 1, maxRevs: int := 8,
                         startVal: real := 10.0, stepUp: real := 1.0, stepDown: real := 1.0)
      returns (r: Result<NUpNDown, InitError>)
      ensures r.Failure? <==> !(nUp > 0 && nDown > 0 && maxRevs > 0 && stepUp > 0.0)
      ensures r.Success? ==>
        && fresh(r.value) && r.value.Valid()
        && r.value.Params() == S.Params(nUp, nDown, maxRevs, stepUp, stepDown)
        && r.value.State() == S.Init(startVal)
    {
      if !(nUp > 0 && nDown > 0 && maxRevs > 0 && stepUp > 0.0) {
        return Failure(IllegalInitValue);
      }
      var st := new NUpNDown(nUp, nDown, maxRevs, startVal, stepUp, stepDown);
      r := Success(st);
    }

    /** `__next__`: refuses to run twice without `set_corr` in between,
        clears the protocol flag, then yields the value or ends. */
    method Next() returns (r: S.NextResult)
      requires Valid()
      modifies this
      ensures Valid()
      ensures (State(), r) == S.Next(Params(), old(State()))
    {
      if !setCorrFlag {
        return S.ProtocolError;
      }
      setCorrFlag := false;
      if revsCount < maxRevs {
        r := S.Value(currVal);
      } else {
        r := S.StopIteration;
      }
    }

    /** `set_corr`: records one answer, step by step as the source does. */
    method SetCorr(corr: bool)
      requires Valid()
      modifies this
      ensures Valid()
      ensures State() == S.SetCorr(Params(), old(State()), corr)
    {
      S.SetCorrKeepsInv(Params(), State(), corr);
      setCorrFlag := true;
      switchInLastTrialFlag := false;
      var jump := 0;

      if corr {
        noCorrInARow := noCorrInARow + 1;
        noIncorrInARow := 0;
      } else {
        noCorrInARow := 0;
        noIncorrInARow := noIncorrInARow + 1;
      }

      if nUp == noCorrInARow {
        currVal := currVal - stepUp;
        jump := 1;
      }
      if nDown == noIncorrInARow {
        currVal := currVal + stepDown;
        jump := -1;
      }

      if jump != 0 {
        if lastJumpDir == 0 {
          lastJumpDir := jump;
        } else if jump != lastJumpDir {
          revsCount := revsCount + 1;
          lastJumpDir := jump;
          switchInLastTrialFlag := true;
        }
        noIncorrInARow := 0;
        noCorrInARow := 0;
      }

      if currVal < 0.0 {
        currVal := 0.0;
      }
    }

    /** `get_jump_status`: the last jump direction, whether the last
        `set_corr` was a reversal, and the number of reversals. */
    function GetJumpStatus(): (r: (int, bool, nat))
      reads this
      requires Valid()
      ensures r == S.Status(State())
      ensures -1 <= r.0 <= 1
    {
      (lastJumpDir, switchInLastTrialFlag, revsCount)
    }
  }

  /** The experiment loop of the scripts (`for soa in experiment: ...;
      experiment.set_corr(corr); ... get_jump_status()`) driven by a given
      sequence of answers; it ends on StopIteration or when the answers run
      out. It returns the values presented and whether the staircase ended
      the loop. */
  method RunExperiment(st: NUpNDown, answers: seq<bool>)
    returns (presented: seq<real>, stopped: bool)
    requires st.Valid() && st.setCorrFlag && st.revsCount <= st.maxRevs
    modifies st
    ensures st.Valid()
    ensures var e := S.RunSession(st.Params(), old(st.State()), answers);
      presented == e.presented && stopped == (e.end == S.Stopped) && st.State() == e.final
  {
    presented := [];
    stopped := false;
    var i := 0;
    while i < |answers|
      invariant 0 <= i <= |answers|
      invariant st.Valid() && S.Between(st.Params(), st.State())
      invariant var e := S.RunSession(st.Params(), old(st.State()), answers);
        var rest := S.RunSession(st.Params(), st.State(), answers[i..]);
        e == rest.(presented := presented + rest.presented)
      decreases |answers| - i
    {
      ghost var before := st.State();
      var r := st.Next();
      if !r.Value? {
        assert r == S.StopIteration;
        stopped := true;
        return;
      }
      st.SetCorr(answers[i]);
      S.SetCorrKeepsInv(st.Params(), before.(setCorrFlag := false), answers[i]);
      assert answers[i..][1..] == answers[i + 1..];
      presented := presented + [r.v];
      i := i + 1;
    }
  }
}
