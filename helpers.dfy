/**
 * The class TriggerHandler of misc/helpers.py in dummy mode: a list of
 * trigger records, a wrapping trigger counter and a trial-position marker,
 * updated in place. Each method is proved to compute the function of the
 * same name in module TriggerLog.
 */
module Helpers {
  import opened Wrappers
  import opened TextFormat
  import L = TriggerLog

  class TriggerHandler {
    const triggerTypes: seq<string>
    const triggerParams: seq<string>
    const triggerLimit: nat
    var triggers: seq<L.Record>
    var triggerCounter: nat
    var posMarker: int

    function Log(): L.Log
      reads this
    {
      L.Log(triggerTypes, triggerParams, triggers, triggerCounter, posMarker)
    }

    ghost predicate Valid()
      reads this
    {
      L.Valid(Log()) && triggerLimit == L.TriggerLimit
    }

    /** `TriggerHandler(trigger_types, trigger_params=...)`: the columns are
        trigger_no and trigger_type, then the extra ones; no record yet,
        counter 1, no trial started. */
    constructor (triggerTypes: seq<string>, triggerParams: Option<seq<string>> := None)
      ensures Valid()
      ensures Log() == L.Init(triggerTypes, triggerParams)
    {
      this.triggerTypes := triggerTypes;
      var params := L.BaseParams;
      if triggerParams.Some? {
        params := params + triggerParams.value;
      }
      this.triggerParams := params;
      triggers := [];
      triggerCounter := 1;
      posMarker := -1;
      triggerLimit := L.TriggerLimit;
    }

    /** `send_trigger`; an info of None behaves as an empty one. */
    method SendTrigger(triggerType: string, info: L.Record := map[]) returns (r: Outcome<L.Error>)
      requires Valid()
      modifies this
      ensures Valid()
      ensures match L.SendTrigger(old(Log()), triggerType, info)
        case Success(log) => r == Pass && Log() == log
        case Failure(e) => r == Fail(e) && Log() == old(Log())
    {
      if triggerType !in triggerTypes {
        return Fail(L.UnknownTriggerType);
      }
      L.SendKeepsValid(Log(), triggerType, info);
      var currTrigger := map["trigger_no" := NatToDecimal(triggerCounter), "trigger_type" := triggerType];
      currTrigger := currTrigger + info;
      triggerCounter := triggerCounter + 1;
      if triggerCounter > triggerLimit {
        triggerCounter := 1;
      }
      triggers := triggers + [currTrigger];
      if posMarker >= 0 {
        posMarker := posMarker + 1;
      }
      r := Pass;
    }

    /** `set_curr_trial_start`. */
    method SetCurrTrialStart()
      requires Valid()
      modifies this
      ensures Valid()
      ensures Log() == L.SetCurrTrialStart(old(Log()))
    {
      posMarker := 0;
    }

    /** `add_info_to_last_trigger`: overwrites the last how_many records in
        place, newest first. */
    method AddInfoToLastTrigger(info: L.Record, howMany: int := 1) returns (r: Outcome<L.Error>)
      requires Valid()
      modifies this
      ensures Valid()
      ensures (Log(), r) == L.AddInfoToLastTrigger(old(Log()), info, howMany)
    {
      L.AddInfoOutcome(Log(), info, howMany);
      var k := howMany;
      if k == -1 && posMarker == -1 {
        return Fail(L.NoMarkerSet);
      }
      if k == -1 {
        k := posMarker;
        posMarker := -1;
      }
      if |triggers| < k {
        return Fail(L.NoPreviousTrigger);
      }
      ghost var before := Log();
      var n := |triggers|;
      var x := 0;
      while x < k
        invariant 0 <= x && (x <= k || x == 0)
        invariant triggers == L.MergeLast(before.triggers, info, x)
        invariant Log() == before.(triggers := triggers)
      {
        ghost var next := L.MergeLast(before.triggers, info, x + 1);
        triggers := triggers[n - 1 - x := triggers[n - 1 - x] + info];
        assert forall i :: 0 <= i < n ==> triggers[i] == next[i];
        x := x + 1;
      }
      assert k <= 0 ==> L.MergeLast(before.triggers, info, k) == L.MergeLast(before.triggers, info, 0);
      r := Pass;
    }

    /** `_prepare_printable_form`: builds every line by appending each
        column's value and a comma, then drops the last comma. */
    method PreparePrintableForm() returns (res: seq<string>)
      ensures res == L.PrintableForm(triggerParams, triggers)
    {
      res := [Join(triggerParams, ',')];
      for t := 0 to |triggers|
        invariant res == L.PrintableForm(triggerParams, triggers[..t])
      {
        var trig := triggers[t];
        var line := "";
        for j := 0 to |triggerParams|
          invariant line == Terminated(L.FieldsOf(triggerParams, trig)[..j], ',')
        {
          TerminatedSnoc(L.FieldsOf(triggerParams, trig)[..j], L.Get(trig, triggerParams[j]), ',');
          assert L.FieldsOf(triggerParams, trig)[..j + 1]
              == L.FieldsOf(triggerParams, trig)[..j] + [L.Get(trig, triggerParams[j])];
          line := line + L.Get(trig, triggerParams[j]) + [','];
        }
        assert L.FieldsOf(triggerParams, trig)[..|triggerParams|] == L.FieldsOf(triggerParams, trig);
        if |triggerParams| > 0 {
          TerminatedIsJoin(L.FieldsOf(triggerParams, trig), ',');
          line := line[..|line| - 1];
        }
        assert triggers[..t + 1] == triggers[..t] + [trig];
        res := res + [line];
      }
      assert triggers[..|triggers|] == triggers;
    }
  }
}
