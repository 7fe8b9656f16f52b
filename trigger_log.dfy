/**
 * The bookkeeping of TriggerHandler in misc/helpers.py in dummy mode, as
 * pure functions over its state: the list of trigger records, the trigger
 * counter that wraps at 60, the position marker that counts the triggers
 * sent since the current trial started, and the printable (CSV-like) form
 * of the list. The class in helpers.dfy is proved to compute these.
 */
module TriggerLog {
  import opened Wrappers
  import opened TextFormat

  /** One trigger record: column name to value. */
  type Record = map<string, string>

  /** The counter runs 1, 2, ..., TriggerLimit, 1, 2, ... */
  const TriggerLimit: nat := 60

  /** Printed for a column a record has no value for. */
  const Unknown: string := "UNKNOWN"

  /** The columns every log records first. */
  const BaseParams: seq<string> := ["trigger_no", "trigger_type"]

  /** The AttributeErrors the handler raises. */
  datatype Error = UnknownTriggerType | NoMarkerSet | NoPreviousTrigger

  datatype Log = Log(
    triggerTypes: seq<string>,
    triggerParams: seq<string>,
    triggers: seq<Record>,
    counter: nat,
    posMarker: int)

  /** The recorded columns: the two base columns, then the extra ones in
      the order given. */
  function ParamsFor(extra: Option<seq<string>>): (ps: seq<string>)
    ensures |ps| >= 2 && ps[..2] == BaseParams
    ensures ps[2..] == (if extra.Some? then extra.value else [])
  {
    if extra.None? then BaseParams else BaseParams + extra.value
  }

  /** The state right after construction. */
  function Init(triggerTypes: seq<string>, extra: Option<seq<string>>): Log {
    Log(triggerTypes, ParamsFor(extra), [], 1, -1)
  }

  /** What every operation keeps: the counter is in [1, TriggerLimit], the
      marker is -1 (no trial started) or at most the number of records,
      and the columns start with the base columns. */
  predicate Valid(log: Log) {
    && 1 <= log.counter <= TriggerLimit
    && -1 <= log.posMarker <= |log.triggers|
    && |log.triggerParams| >= 2 && log.triggerParams[..2] == BaseParams
  }

  lemma InitValid(triggerTypes: seq<string>, extra: Option<seq<string>>)
    ensures Valid(Init(triggerTypes, extra))
    ensures Init(triggerTypes, extra).triggers == []
    ensures Init(triggerTypes, extra).counter == 1
    ensures Init(triggerTypes, extra).posMarker == -1
    ensures Init(triggerTypes, extra).triggerTypes == triggerTypes
    ensures Init(triggerTypes, extra).triggerParams == ParamsFor(extra)
  {
  }

  /** The counter after one trigger. */
  function NextCounter(c: nat): nat {
    if c + 1 > TriggerLimit then 1 else c + 1
  }

  /** The counter counts modulo TriggerLimit, from 1. */
  lemma NextCounterCycles(c: nat)
    requires 1 <= c <= TriggerLimit
    ensures NextCounter(c) == c % TriggerLimit + 1
    ensures 1 <= NextCounter(c) <= TriggerLimit
  {
  }

  /** The record of a trigger: its number and type, then the info, whose
      keys win. Keys that are not columns are kept too. */
  function NewRecord(counter: nat, triggerType: string, info: Record): (r: Record)
    ensures r.Keys == info.Keys + {"trigger_no", "trigger_type"}
    ensures forall k :: k in info ==> r[k] == info[k]
    ensures "trigger_no" !in info ==> r["trigger_no"] == NatToDecimal(counter)
    ensures "trigger_type" !in info ==> r["trigger_type"] == triggerType
  {
    map["trigger_no" := NatToDecimal(counter), "trigger_type" := triggerType] + info
  }

  /** `send_trigger`: refuses an unregistered type; otherwise appends one
      record numbered with the counter, advances the counter and, if a
      trial is running, the marker. */
  function SendTrigger(log: Log, triggerType: string, info: Record): (r: Result<Log, Error>)
    ensures r.Failure? <==> triggerType !in log.triggerTypes
    ensures r.Failure? ==> r.error == UnknownTriggerType
    ensures r.Success? ==>
      && |r.value.triggers| == |log.triggers| + 1
      && r.value.triggers[..|log.triggers|] == log.triggers
      && r.value.triggers[|log.triggers|] == NewRecord(log.counter, triggerType, info)
      && r.value.counter == NextCounter(log.counter)
      && r.value.posMarker == (if log.posMarker >= 0 then log.posMarker + 1 else log.posMarker)
      && r.value.triggerTypes == log.triggerTypes
      && r.value.triggerParams == log.triggerParams
  {
    if triggerType !in log.triggerTypes then Failure(UnknownTriggerType)
    else
      var rec := NewRecord(log.counter, triggerType, info);
      var marker := if log.posMarker >= 0 then log.posMarker + 1 else log.posMarker;
      Success(log.(triggers := log.triggers + [rec], counter := NextCounter(log.counter), posMarker := marker))
  }

  lemma SendKeepsValid(log: Log, triggerType: string, info: Record)
    requires Valid(log)
    ensures SendTrigger(log, triggerType, info).Success? ==> Valid(SendTrigger(log, triggerType, info).value)
  {
  }

  /** `set_curr_trial_start`. */
  function SetCurrTrialStart(log: Log): (r: Log)
    ensures r.posMarker == 0
    ensures r.(posMarker := log.posMarker) == log
  {
    log.(posMarker := 0)
  }

  /** The records with `info` merged into the last `k` of them. */
  function MergeLast(rs: seq<Record>, info: Record, k: int): seq<Record>
    requires k <= |rs|
  {
    seq(|rs|, i requires 0 <= i < |rs| => if i >= |rs| - k then rs[i] + info else rs[i])
  }

  /** `rs'` is `rs` with `info` merged into exactly the last `k` records
      (into none when `k` is not positive); info keys win. */
  ghost predicate MergedInto(rs: seq<Record>, rs': seq<Record>, info: Record, k: int) {
    && |rs'| == |rs|
    && (forall i :: 0 <= i < |rs| && i < |rs| - k ==> rs'[i] == rs[i])
    && (forall i :: 0 <= i < |rs| && i >= |rs| - k ==>
          rs'[i].Keys == rs[i].Keys + info.Keys
          && (forall key :: key in info ==> rs'[i][key] == info[key])
          && (forall key :: key in rs[i] && key !in info ==> rs'[i][key] == rs[i][key]))
  }

  /** `add_info_to_last_trigger`. With how_many = -1 it uses the marker as
      the count and resets the marker first, so the reset stays even when
      the length check then raises. */
  function AddInfoToLastTrigger(log: Log, info: Record, howMany: int): (r: (Log, Outcome<Error>))
    ensures howMany == -1 && log.posMarker == -1 <==> r.1 == Fail(NoMarkerSet)
    ensures r.1 == Fail(NoMarkerSet) ==> r.0 == log
    ensures howMany == -1 && log.posMarker != -1 ==> r.0.posMarker == -1
    ensures howMany != -1 ==> r.0.posMarker == log.posMarker
    ensures r.0.(triggers := log.triggers, posMarker := log.posMarker) == log
    ensures r.1.Pass? ==>
      var k := if howMany == -1 then log.posMarker else howMany;
      k <= |log.triggers| && MergedInto(log.triggers, r.0.triggers, info, k)
    ensures r.1.Fail? ==> r.0.triggers == log.triggers
  {
    if howMany == -1 && log.posMarker == -1 then (log, Fail(NoMarkerSet))
    else
      var k := if howMany == -1 then log.posMarker else howMany;
      var log1 := if howMany == -1 then log.(posMarker := -1) else log;
      if |log1.triggers| < k then (log1, Fail(NoPreviousTrigger))
      else (log1.(triggers := MergeLast(log1.triggers, info, k)), Pass)
  }

  /** The error cases of `add_info_to_last_trigger`, for a valid log: with
      how_many = -1 it fails only when no trial was started (the marker
      never exceeds the number of records); otherwise it fails exactly
      when there are fewer records than how_many. Validity is kept. */
  lemma AddInfoOutcome(log: Log, info: Record, howMany: int)
    requires Valid(log)
    ensures var r := AddInfoToLastTrigger(log, info, howMany);
      && (howMany == -1 ==> (r.1.Pass? <==> log.posMarker != -1))
      && (howMany != -1 ==> (r.1 == Fail(NoPreviousTrigger) <==> |log.triggers| < howMany))
      && (howMany != -1 ==> (r.1.Pass? <==> howMany <= |log.triggers|))
      && Valid(r.0)
  {
  }

  // ---------------------------------------------------------------------
  // The printable form

  /** The value printed for column `key`. */
  function Get(rec: Record, key: string): string {
    if key in rec then rec[key] else Unknown
  }

  /** A record's values in column order. */
  function FieldsOf(params: seq<string>, rec: Record): (fs: seq<string>)
    ensures |fs| == |params|
  {
    seq(|params|, j requires 0 <= j < |params| => Get(rec, params[j]))
  }

  /** A record's line: its values in column order, comma-separated. */
  function RecordLine(params: seq<string>, rec: Record): string {
    Join(FieldsOf(params, rec), ',')
  }

  /** `_prepare_printable_form`: the header, then one line per record. */
  function PrintableForm(params: seq<string>, rs: seq<Record>): seq<string> {
    [Join(params, ',')] + seq(|rs|, i requires 0 <= i < |rs| => RecordLine(params, rs[i]))
  }

  /** Whether no column name and no value printed for `rs` contains a
      comma. */
  predicate CommaFree(params: seq<string>, rs: seq<Record>) {
    && Avoids(params, ',')
    && forall i :: 0 <= i < |rs| ==> Avoids(FieldsOf(params, rs[i]), ',')
  }

  /** A record built by `send_trigger` prints without a stray comma when
      the columns, the type and the info values have none: its number is
      decimal digits and a missing column prints as UNKNOWN. */
  lemma SentRecordCommaFree(params: seq<string>, counter: nat, triggerType: string, info: Record)
    requires Avoids(params, ',') && ',' !in triggerType
    requires forall k :: k in info ==> ',' !in info[k]
    ensures CommaFree(params, [NewRecord(counter, triggerType, info)])
  {
    DecimalHasNoComma(counter);
    var rec := NewRecord(counter, triggerType, info);
    forall j | 0 <= j < |params|
      ensures ',' !in FieldsOf(params, rec)[j]
    {
      assert ',' !in Unknown;
    }
  }

  /** The printable form reads back: it has one line more than there are
      records, splitting the header at commas gives the columns, and
      splitting line i + 1 gives record i's values in column order, with
      UNKNOWN for a missing column — provided nothing contains a comma. */
  lemma PrintableFormParses(params: seq<string>, rs: seq<Record>)
    requires params != [] && CommaFree(params, rs)
    ensures var lines := PrintableForm(params, rs);
      && |lines| == 1 + |rs|
      && Split(lines[0], ',') == params
      && forall i :: 0 <= i < |rs| ==> Split(lines[i + 1], ',') == FieldsOf(params, rs[i])
  {
    SplitJoin(params, ',');
    forall i | 0 <= i < |rs|
      ensures Split(PrintableForm(params, rs)[i + 1], ',') == FieldsOf(params, rs[i])
    {
      SplitJoin(FieldsOf(params, rs[i]), ',');
    }
  }

  /** The part of a record that lies in the given columns. */
  function Registered(rec: Record, params: seq<string>): (r: Record)
    ensures r.Keys <= rec.Keys
    ensures forall k :: k in r ==> k in params
  {
    map k | k in rec && k in params :: rec[k]
  }

  /** Keys that are not columns are stored but never printed: dropping them
      from every record leaves the printable form unchanged. */
  lemma UnregisteredNeverPrinted(params: seq<string>, rs: seq<Record>)
    ensures PrintableForm(params, rs)
         == PrintableForm(params, seq(|rs|, i requires 0 <= i < |rs| => Registered(rs[i], params)))
  {
    var rs' := seq(|rs|, i requires 0 <= i < |rs| => Registered(rs[i], params));
    forall i | 0 <= i < |rs|
      ensures FieldsOf(params, rs[i]) == FieldsOf(params, rs'[i])
    {
      assert forall j :: 0 <= j < |params| ==> Get(rs[i], params[j]) == Get(rs'[i], params[j]);
    }
  }

  // ---------------------------------------------------------------------
  // Sequences of operations

  /** One call on the handler. */
  datatype Op = Send(triggerType: string, info: Record) | TrialStart | AddInfo(info: Record, howMany: int)

  /** The state after one call; a call that raises in `send_trigger`
      leaves the state as it was. */
  function Apply(log: Log, op: Op): Log {
    match op
    case Send(t, info) =>
      var r := SendTrigger(log, t, info);
      if r.Success? then r.value else log
    case TrialStart => SetCurrTrialStart(log)
    case AddInfo(info, howMany) => AddInfoToLastTrigger(log, info, howMany).0
  }

  function ApplyAll(log: Log, ops: seq<Op>): Log
    decreases |ops|
  {
    if ops == [] then log else ApplyAll(Apply(log, ops[0]), ops[1..])
  }

  /** Any sequence of calls keeps the log valid (so the counter stays in
      [1, 60]), never removes a record and adds at most one per call. */
  lemma {:induction false} ApplyAllKeepsValid(log: Log, ops: seq<Op>)
    requires Valid(log)
    ensures Valid(ApplyAll(log, ops))
    ensures |log.triggers| <= |ApplyAll(log, ops).triggers| <= |log.triggers| + |ops|
    ensures ApplyAll(log, ops).triggerParams == log.triggerParams
    decreases |ops|
  {
    if ops != [] {
      match ops[0] {
        case Send(t, info) => SendKeepsValid(log, t, info);
        case TrialStart =>
        case AddInfo(info, howMany) => AddInfoOutcome(log, info, howMany);
      }
      ApplyAllKeepsValid(Apply(log, ops[0]), ops[1..]);
    }
  }

  /** Whether every type in `types` is registered. */
  predicate AllRegistered(log: Log, types: seq<string>) {
    forall k :: 0 <= k < |types| ==> types[k] in log.triggerTypes
  }

  /** Sending triggers of the given registered types, without info. */
  function SendAll(log: Log, types: seq<string>): Log
    requires AllRegistered(log, types)
    decreases |types|
  {
    if types == [] then log
    else SendAll(SendTrigger(log, types[0], map[]).value, types[1..])
  }

  /** Sending n registered triggers appends n records after the old ones
      and, in a running trial, moves the marker n places. */
  lemma {:induction false} SendAllFacts(log: Log, types: seq<string>)
    requires Valid(log) && AllRegistered(log, types)
    ensures var r := SendAll(log, types);
      && Valid(r)
      && |r.triggers| == |log.triggers| + |types|
      && r.triggers[..|log.triggers|] == log.triggers
      && (log.posMarker >= 0 ==> r.posMarker == log.posMarker + |types|)
      && r.triggerTypes == log.triggerTypes && r.triggerParams == log.triggerParams
    decreases |types|
  {
    if types != [] {
      var l1 := SendTrigger(log, types[0], map[]).value;
      SendKeepsValid(log, types[0], map[]);
      SendAllFacts(l1, types[1..]);
      var r := SendAll(l1, types[1..]);
      assert r.triggers[..|log.triggers|] == r.triggers[..|l1.triggers|][..|log.triggers|];
    }
  }

  /** The use the experiment scripts make of the marker: start a trial,
      send its triggers, then add the answer with how_many = -1. The info
      lands in exactly the records sent during the trial, the earlier ones
      are untouched, and the marker is reset. */
  lemma TrialInfoReachesTrialTriggers(log: Log, types: seq<string>, info: Record)
    requires Valid(log) && AllRegistered(log, types)
    ensures
      var l2 := SendAll(SetCurrTrialStart(log), types);
      var r := AddInfoToLastTrigger(l2, info, -1);
      && r.1 == Pass
      && r.0.posMarker == -1
      && |r.0.triggers| == |log.triggers| + |types|
      && MergedInto(l2.triggers, r.0.triggers, info, |types|)
      && r.0.triggers[..|log.triggers|] == log.triggers
  {
    var l1 := SetCurrTrialStart(log);
    SendAllFacts(l1, types);
    var l2 := SendAll(l1, types);
    var r := AddInfoToLastTrigger(l2, info, -1);
    assert l2.posMarker == |types|;
    assert forall i :: 0 <= i < |log.triggers| ==> r.0.triggers[i] == l2.triggers[i] == log.triggers[i];
  }
}
