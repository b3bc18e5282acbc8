/**
 The minimal tracer payload (tracers/contractTracer.js): an append-only list
 of `{"input": ...}` entries, one per `step` or `fault` call, handed back by
 `result` as it stands. `input` is what `log.contract.getInput()` returns.
 */
module ContractTracer {
  import opened Wrappers
  import opened Json

  datatype State = State(trace: seq<Json>)

  /** The tracer object as the payload declares it: an empty trace. */
  function Initial(): State {
    State([])
  }

  function InputRecord(input: Json): Json {
    JObj([("input", input)])
  }

  /** The input an entry records, if it has the shape `step` writes. */
  function RecordInput(entry: Json): Option<Json> {
    if entry.JObj? && |entry.fields| == 1 && entry.fields[0].0 == "input" then Some(entry.fields[0].1) else None
  }

  /** `step(log, db)`: one entry appended at the end, earlier entries untouched. */
  function Step(s: State, input: Json): (r: State)
    ensures |r.trace| == |s.trace| + 1
    ensures r.trace[..|s.trace|] == s.trace
    ensures RecordInput(r.trace[|s.trace|]) == Some(input)
  {
    State(s.trace + [InputRecord(input)])
  }

  /** `fault(log, db)` is `step(log, db)`. */
  function Fault(s: State, input: Json): State {
    Step(s, input)
  }

  /** `result(ctx, db)`: the trace as accumulated. */
  function ResultTrace(s: State): Json {
    JArr(s.trace)
  }

  datatype Event = StepEvent(input: Json) | FaultEvent(input: Json)

  function Run(s: State, events: seq<Event>): State
    decreases |events|
  {
    if |events| == 0 then s
    else
      var t := Run(s, events[..|events| - 1]);
      match events[|events| - 1]
      case StepEvent(input) => Step(t, input)
      case FaultEvent(input) => Fault(t, input)
  }

  /** The entries of a trace, read back as the inputs they record. */
  function Inputs(trace: seq<Json>): Option<seq<Json>> {
    if |trace| == 0 then Some([])
    else match (Inputs(trace[..|trace| - 1]), RecordInput(trace[|trace| - 1]))
      case (Some(init), Some(last)) => Some(init + [last])
      case _ => None
  }

  /** The inputs of a run, in call order, whichever of the two hooks recorded them. */
  function EventInputs(events: seq<Event>): seq<Json> {
    seq(|events|, i requires 0 <= i < |events| => events[i].input)
  }

  /** Appending one entry appends its input to the inputs read back. */
  lemma InputsSnoc(t: seq<Json>, input: Json, init: seq<Json>)
    requires Inputs(t) == Some(init)
    ensures Inputs(t + [InputRecord(input)]) == Some(init + [input])
  {
    var u := t + [InputRecord(input)];
    assert u[..|u| - 1] == t;
  }

  /** The inputs of a longer run are those of its prefix, then the last call's. */
  lemma EventInputsSnoc(events: seq<Event>)
    requires |events| > 0
    ensures EventInputs(events) == EventInputs(events[..|events| - 1]) + [events[|events| - 1].input]
  {
    var init := events[..|events| - 1];
    assert forall i :: 0 <= i < |init| ==> EventInputs(events)[i] == init[i].input == EventInputs(init)[i];
  }

  /**
   From the empty trace, `result` hands back exactly one entry per call, in
   call order, each recording that call's input.
   */
  lemma {:induction false} ResultRecordsInputs(events: seq<Event>)
    ensures |Run(Initial(), events).trace| == |events|
    ensures Inputs(ResultTrace(Run(Initial(), events)).items) == Some(EventInputs(events))
    decreases |events|
  {
    if |events| > 0 {
      var init := events[..|events| - 1];
      var last := events[|events| - 1].input;
      ResultRecordsInputs(init);
      var t := Run(Initial(), init).trace;
      assert Run(Initial(), events).trace == t + [InputRecord(last)];
      InputsSnoc(t, last, EventInputs(init));
      EventInputsSnoc(events);
      assert ResultTrace(Run(Initial(), events)).items == t + [InputRecord(last)];
    } else {
      assert EventInputs(events) == [];
    }
  }
}
