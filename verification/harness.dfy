/**
 How the parts meet: traces produced by the feature-exercising tracer going
 through the comparator's report, and the example of two one-instruction
 traces that disagree on the opcode.
 */
module Harness {
  import opened Wrappers
  import opened Json
  import opened Comparator
  import AllTracer

  /** The trace an allTracer run returns. */
  function AllTrace(s: AllTracer.State, ctx: AllTracer.CtxInfo, db: AllTracer.DbInfo): Json {
    AllTracer.ResultTrace(s, ctx, db)
  }

  /** An allTracer trace always has a `step` list to index. */
  lemma AllTraceReadable(s: AllTracer.State, ctx: AllTracer.CtxInfo, db: AllTracer.DbInfo)
    ensures StepReadable(AllTrace(s, ctx, db))
  {
  }

  /** Index `i` of an allTracer trace's `step` list is its i-th entry. */
  lemma AllTraceStepRecord(s: AllTracer.State, ctx: AllTracer.CtxInfo, db: AllTracer.DbInfo, i: nat)
    requires i < |s.steps|
    ensures StepRecordOf(AllTrace(s, ctx, db), IndexKey(i)) == Success(Some(AllTracer.StepToJson(s.steps[i])))
  {
    MemberArrayIndex(AllTracer.StepsToJson(s.steps), i);
  }

  /** A report on two allTracer traces runs to the end whenever the diff is an object. */
  lemma AllTracerReportComplete(tx: string,
                                s1: AllTracer.State, c1: AllTracer.CtxInfo, d1: AllTracer.DbInfo,
                                s2: AllTracer.State, c2: AllTracer.CtxInfo, d2: AllTracer.DbInfo,
                                diff: Json)
    requires diff.JObj?
    ensures !OutputDiff(tx, AllTrace(s1, c1, d1), AllTrace(s2, c2, d2), diff).aborted
  {
    AllTraceReadable(s1, c1, d1);
    AllTraceReadable(s2, c2, d2);
  }

  /**
   In a report on two allTracer traces, an index key of `diff.step` that
   names an existing instruction gets that instruction's entry from both sides.
   */
  lemma AllTracerReportLines(tx: string,
                             s1: AllTracer.State, c1: AllTracer.CtxInfo, d1: AllTracer.DbInfo,
                             s2: AllTracer.State, c2: AllTracer.CtxInfo, d2: AllTracer.DbInfo,
                             diff: Json, j: nat, i: nat)
    requires HasStepKey(diff)
    requires i < |s1.steps| && i < |s2.steps|
    requires j < |ForInKeys(Lookup(diff.fields, "step").value)|
    requires ForInKeys(Lookup(diff.fields, "step").value)[j] == IndexKey(i)
    ensures var lines := OutputDiff(tx, AllTrace(s1, c1, d1), AllTrace(s2, c2, d2), diff).lines;
      && 3 + 2 * j < |lines|
      && lines[2 + 2 * j] == StepLine(First, IndexKey(i), Some(AllTracer.StepToJson(s1.steps[i])))
      && lines[3 + 2 * j] == StepLine(Second, IndexKey(i), Some(AllTracer.StepToJson(s2.steps[i])))
  {
    var t1 := AllTrace(s1, c1, d1);
    var t2 := AllTrace(s2, c2, d2);
    AllTraceReadable(s1, c1, d1);
    AllTraceReadable(s2, c2, d2);
    AllTraceStepRecord(s1, c1, d1, i);
    AllTraceStepRecord(s2, c2, d2, i);
    ReportLinesAt(tx, t1, t2, diff, j);
  }

  /** The two report lines of the j-th key of `diff.step`, for any two indexable traces. */
  lemma ReportLinesAt(tx: string, t1: Json, t2: Json, diff: Json, j: nat)
    requires HasStepKey(diff) && StepReadable(t1) && StepReadable(t2)
    requires j < |ForInKeys(Lookup(diff.fields, "step").value)|
    ensures var k := ForInKeys(Lookup(diff.fields, "step").value)[j];
      var lines := OutputDiff(tx, t1, t2, diff).lines;
      && 3 + 2 * j < |lines|
      && lines[2 + 2 * j] == StepLine(First, k, StepRecordOf(t1, k).value)
      && lines[3 + 2 * j] == StepLine(Second, k, StepRecordOf(t2, k).value)
  {
  }

  // ---------------------------------------------------------------------------
  // A per-instruction disagreement.
  // ---------------------------------------------------------------------------

  function Instr(op: string): Json {
    JObj([("pc", JNum(0)), ("op", JStr(op))])
  }

  function OneStepTrace(op: string): Json {
    JObj([("step", JArr([Instr(op)]))])
  }

  /** The diff the structural diff gives for the two one-instruction traces. */
  function OpDiff(): Json {
    JObj([("step", JObj([("0", JObj([("op", JStr("PUSH2"))]))]))])
  }

  /** A one-instruction trace is readable, and its instruction sits under the key "0". */
  lemma OneStepRecord(op: string)
    ensures StepReadable(OneStepTrace(op))
    ensures StepRecordOf(OneStepTrace(op), "0") == Success(Some(Instr(op)))
  {
    MemberArrayIndex([Instr(op)], 0);
    assert IndexKey(0) == "0";
  }

  /** The two one-instruction traces differ. */
  lemma OneStepTracesDiffer()
    ensures OneStepTrace("PUSH1") != OneStepTrace("PUSH2")
  {
    assert Instr("PUSH1").fields[1].1 != Instr("PUSH2").fields[1].1;
    assert OneStepTrace("PUSH1").fields[0].1.items[0] != OneStepTrace("PUSH2").fields[0].1.items[0];
  }

  /** The report on the two traces with the opcode diff: index 0 for both sides, then both traces. */
  lemma OpcodeReportLines(tx: string)
    ensures OutputDiff(tx, OneStepTrace("PUSH1"), OneStepTrace("PUSH2"), OpDiff()).lines
         == [DiffLine(OpDiff()), StepHeader,
             StepLine(First, "0", Some(Instr("PUSH1"))),
             StepLine(Second, "0", Some(Instr("PUSH2"))),
             TraceLine(First, OneStepTrace("PUSH1")),
             TraceLine(Second, OneStepTrace("PUSH2"))]
    ensures !OutputDiff(tx, OneStepTrace("PUSH1"), OneStepTrace("PUSH2"), OpDiff()).aborted
  {
    var d := OpDiff();
    assert HasStepKey(d);
    assert ForInKeys(Lookup(d.fields, "step").value) == ["0"];
    OneStepRecord("PUSH1");
    OneStepRecord("PUSH2");
    var r := OutputDiff(tx, OneStepTrace("PUSH1"), OneStepTrace("PUSH2"), d);
    assert |r.lines| == 6;
  }

  /**
   Two nodes disagreeing only in the opcode of instruction 0: the pair
   reports a mismatch whose report lists index 0 with both full entries.
   */
  lemma OpcodeMismatchReport(tx: string, diff: (Json, Json) -> Json)
    requires diff(OneStepTrace("PUSH1"), OneStepTrace("PUSH2")) == OpDiff()
    ensures var r := CompareTraces(tx, Some(OneStepTrace("PUSH1")), Some(OneStepTrace("PUSH2")), diff);
      && r.Mismatch?
      && r.file.lines == [DiffLine(OpDiff()), StepHeader,
                          StepLine(First, "0", Some(Instr("PUSH1"))),
                          StepLine(Second, "0", Some(Instr("PUSH2"))),
                          TraceLine(First, OneStepTrace("PUSH1")),
                          TraceLine(Second, OneStepTrace("PUSH2"))]
      && !r.file.aborted
  {
    OneStepTracesDiffer();
    OpcodeReportLines(tx);
  }
}
