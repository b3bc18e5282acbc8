/**
 The feature-exercising tracer payload (tracers/allTracer.js) as a state
 machine. The host calls `setup`, then `step`/`fault`, `postStep`, `enter` and
 `exit` in execution order, and finally `result`.

 Everything the host reports (`log`, `db`, `callFrame`, `frameResult`, `ctx`)
 enters as an abstract value: the model fixes which host values go where, and
 which host reads are made, not what those values are.
 */
module AllTracer {
  import opened Wrappers
  import opened Json

  // ---------------------------------------------------------------------------
  // Host inputs.
  // ---------------------------------------------------------------------------

  /** A stack word as `log.stack.peek` returns it, with its `valueOf()` and `toString(16)` forms. */
  datatype StackWord = StackWord(word: Json, valueOf: Json, hex: Json)

  /** `log.op`: `isPush()`, `toString()`, `toNumber()`. */
  datatype OpInfo = OpInfo(isPush: Json, asString: Json, asNumber: Json)

  /** What `log.contract` and `db` report about the executing contract. */
  datatype ContractSnapshot = ContractSnapshot(
    caller: Json, address: Json, value: Json, input: Json,
    balance: Json, nonce: Json, code: Json, state: Json, stateString: Json,
    accountExists: Json, randomExists: Json)

  /**
   What the host reports at one instruction. `stack[0]` is the top of the
   stack; `memory` has the length `log.memory.length()` reports, and
   `memoryWord(o)` is what `log.memory.getUint(o)` returns.
   */
  datatype StepLog = StepLog(
    error: Option<Json>,
    op: OpInfo,
    stack: seq<StackWord>,
    memory: seq<Json>,
    memoryWord: nat -> Json,
    pc: Json, gas: Json, cost: Json, depth: Json, refund: Json,
    contract: ContractSnapshot)

  /** `callFrame` at `enter`. */
  datatype CallFrame = CallFrame(callType: Json, from: Json, to: Json, input: Json, gas: Json, value: Json)

  /** `frameResult` at `exit`. */
  datatype FrameResult = FrameResult(gasUsed: Json, output: Json, error: Json)

  /** `ctx` at `result`. */
  datatype CtxInfo = CtxInfo(
    txType: Json, from: Json, to: Json, input: Json, gas: Json, gasUsed: Json,
    gasPrice: Json, value: Json, block: Json, output: Json, error: Json)

  /** What `db` reports at `result` about the receiving account. */
  datatype DbInfo = DbInfo(balance: Json, nonce: Json, code: Json, state: Json, accountExists: Json, randomExists: Json)

  // ---------------------------------------------------------------------------
  // The trace.
  // ---------------------------------------------------------------------------

  datatype StackView = StackView(top: Json, topValueOf: Json, topToString: Json, bottom: Json, length: nat)

  datatype MemoryView = MemoryView(newSlice: seq<Json>, newMemoryItem: Json, length: nat)

  /** One entry of `trace.step`: an error entry, or a full instruction entry. */
  datatype StepRecord =
    | ErrorRecord(error: Json)
    | OpRecord(op: OpInfo, stack: StackView, memory: MemoryView,
               pc: Json, gas: Json, cost: Json, depth: Json, refund: Json)

  /** One entry of `trace.callStack`. */
  datatype CallRecord = EnterRecord(frame: CallFrame) | ExitRecord(result: FrameResult)

  /**
   The tracer object after `setup`: the trace fields, the one-off contract
   snapshot, and the counters `count`, `previousStackLength`, `previousMemoryLength`.
   */
  datatype State = State(
    config: Json,
    steps: seq<StepRecord>,
    callStack: seq<CallRecord>,
    contract: Option<ContractSnapshot>,
    count: nat,
    previousStackLength: nat,
    previousMemoryLength: nat)

  /** The number of full instruction entries. */
  function OpRecords(steps: seq<StepRecord>): nat {
    if |steps| == 0 then 0
    else OpRecords(steps[..|steps| - 1]) + (if steps[|steps| - 1].OpRecord? then 1 else 0)
  }

  /** The stack length of the latest instruction entry, 0 before there is one. */
  function LastStackLength(steps: seq<StepRecord>): nat {
    if |steps| == 0 then 0
    else if steps[|steps| - 1].OpRecord? then steps[|steps| - 1].stack.length
    else LastStackLength(steps[..|steps| - 1])
  }

  /** The memory length of the latest instruction entry, 0 before there is one. */
  function LastMemoryLength(steps: seq<StepRecord>): nat {
    if |steps| == 0 then 0
    else if steps[|steps| - 1].OpRecord? then steps[|steps| - 1].memory.length
    else LastMemoryLength(steps[..|steps| - 1])
  }

  /**
   How the counters relate to the trace: `count` is the number of full
   entries, the snapshot exists once there is one, and the previous lengths
   are those of the latest full entry.
   */
  ghost predicate Inv(s: State) {
    && s.count == OpRecords(s.steps)
    && (s.contract.Some? <==> s.count > 0)
    && s.previousStackLength == LastStackLength(s.steps)
    && s.previousMemoryLength == LastMemoryLength(s.steps)
  }

  // ---------------------------------------------------------------------------
  // Serialisation: the trace object as `result` hands it back.
  // ---------------------------------------------------------------------------

  function OpToJson(op: OpInfo): Json {
    JObj([("isPush", op.isPush), ("asString", op.asString), ("asNumber", op.asNumber)])
  }

  function StackFields(v: StackView): seq<(string, Json)> {
    [("top", v.top), ("topValueOf", v.topValueOf), ("topToString", v.topToString),
     ("bottom", v.bottom), ("length", JNum(v.length))]
  }

  function StackToJson(v: StackView): Json {
    JObj(StackFields(v))
  }

  function MemoryFields(v: MemoryView): seq<(string, Json)> {
    [("newSlice", JArr(v.newSlice)), ("newMemoryItem", v.newMemoryItem), ("length", JNum(v.length))]
  }

  function MemoryToJson(v: MemoryView): Json {
    JObj(MemoryFields(v))
  }

  /** The fields of a full entry, in the order `step` writes them. */
  function OpFields(r: StepRecord): seq<(string, Json)>
    requires r.OpRecord?
  {
    [("op", OpToJson(r.op)), ("stack", StackToJson(r.stack)), ("memory", MemoryToJson(r.memory)),
     ("pc", r.pc), ("gas", r.gas), ("cost", r.cost), ("depth", r.depth), ("refund", r.refund)]
  }

  function StepToJson(r: StepRecord): Json {
    match r
    case ErrorRecord(e) => JObj([("error", e)])
    case OpRecord(_, _, _, _, _, _, _, _) => JObj(OpFields(r))
  }

  function StepsToJson(steps: seq<StepRecord>): (r: seq<Json>)
    ensures |r| == |steps|
    ensures forall i :: 0 <= i < |steps| ==> r[i] == StepToJson(steps[i])
  {
    seq(|steps|, i requires 0 <= i < |steps| => StepToJson(steps[i]))
  }

  function EnterFields(f: CallFrame): seq<(string, Json)> {
    [("type", f.callType), ("from", f.from), ("to", f.to), ("input", f.input), ("gas", f.gas), ("value", f.value)]
  }

  function ExitFields(x: FrameResult): seq<(string, Json)> {
    [("gasUsed", x.gasUsed), ("output", x.output), ("error", x.error)]
  }

  function CallToJson(c: CallRecord): Json {
    match c
    case EnterRecord(f) => JObj([("enter", JObj(EnterFields(f)))])
    case ExitRecord(x) => JObj([("exit", JObj(ExitFields(x)))])
  }

  function CallsToJson(calls: seq<CallRecord>): (r: seq<Json>)
    ensures |r| == |calls|
    ensures forall i :: 0 <= i < |calls| ==> r[i] == CallToJson(calls[i])
  {
    seq(|calls|, i requires 0 <= i < |calls| => CallToJson(calls[i]))
  }

  function ContractToJson(c: ContractSnapshot): Json {
    JObj([("caller", c.caller), ("address", c.address), ("value", c.value), ("input", c.input),
          ("balance", c.balance), ("nonce", c.nonce), ("code", c.code), ("state", c.state),
          ("stateString", c.stateString), ("exists", c.accountExists), ("randomexists", c.randomExists)])
  }

  /** The fields of the trace object, in the order they were first assigned. */
  function TraceFields(s: State): (r: seq<(string, Json)>)
    ensures |r| == if s.contract.Some? then 4 else 3
    ensures r[0] == ("config", s.config)
    ensures r[1] == ("step", JArr(StepsToJson(s.steps)))
    ensures r[2] == ("callStack", JArr(CallsToJson(s.callStack)))
    ensures s.contract.Some? ==> r[3] == ("contract", ContractToJson(s.contract.value))
  {
    var base := [("config", s.config), ("step", JArr(StepsToJson(s.steps))), ("callStack", JArr(CallsToJson(s.callStack)))];
    if s.contract.Some? then base + [("contract", ContractToJson(s.contract.value))] else base
  }

  function TraceToJson(s: State): Json {
    JObj(TraceFields(s))
  }

  /** `lastStep["cost"] !== undefined`, the test `postStep` makes. */
  predicate HasCost(r: StepRecord) {
    Member(StepToJson(r), "cost").Some?
  }

  /** Only full instruction entries carry a `cost` field. */
  lemma HasCostIffOpRecord(r: StepRecord)
    ensures HasCost(r) <==> r.OpRecord?
  {
    if r.OpRecord? {
      var fs := StepToJson(r).fields;
      assert fs[5] == ("cost", r.cost);
      assert "cost" in Keys(fs) by {
        assert Keys(fs)[5] == "cost";
      }
    } else {
      assert Keys(StepToJson(r).fields) == ["error"];
    }
  }

  /**
   Reading a serialised stack view back, key by key, gives the view's values.
   */
  lemma StackReadsBack(v: StackView)
    ensures var e := StackToJson(v);
      && Member(e, "top") == Some(v.top)
      && Member(e, "topValueOf") == Some(v.topValueOf)
      && Member(e, "topToString") == Some(v.topToString)
      && Member(e, "bottom") == Some(v.bottom)
      && Member(e, "length") == Some(JNum(v.length))
  {
    StackFieldReadsBack(v, 0);
    StackFieldReadsBack(v, 1);
    StackFieldReadsBack(v, 2);
    StackFieldReadsBack(v, 3);
    StackFieldReadsBack(v, 4);
  }

  lemma StackFieldReadsBack(v: StackView, i: nat)
    requires i < 5
    ensures Member(StackToJson(v), StackFields(v)[i].0) == Some(StackFields(v)[i].1)
  {
    MemberAt(StackFields(v), i);
  }

  /** Reading a serialised memory view back, key by key, gives the view's values. */
  lemma MemoryReadsBack(v: MemoryView)
    ensures var e := MemoryToJson(v);
      && Member(e, "newSlice") == Some(JArr(v.newSlice))
      && Member(e, "newMemoryItem") == Some(v.newMemoryItem)
      && Member(e, "length") == Some(JNum(v.length))
  {
    MemoryFieldReadsBack(v, 0);
    MemoryFieldReadsBack(v, 1);
    MemoryFieldReadsBack(v, 2);
  }

  lemma MemoryFieldReadsBack(v: MemoryView, i: nat)
    requires i < 3
    ensures Member(MemoryToJson(v), MemoryFields(v)[i].0) == Some(MemoryFields(v)[i].1)
  {
    MemberAt(MemoryFields(v), i);
  }

  /**
   Reading the serialised entry of an error-free log back, key by key, gives
   the log's values: the opcode forms, the peeked stack words, the grown
   memory tail, the memory word, both lengths and the five counters.
   */
  lemma OpEntryReadsBack(s: State, log: StepLog)
    ensures var r := OpRecordOf(s, log);
      var e := StepToJson(r);
      && Member(e, "pc") == Some(log.pc)
      && Member(e, "gas") == Some(log.gas)
      && Member(e, "cost") == Some(log.cost)
      && Member(e, "depth") == Some(log.depth)
      && Member(e, "refund") == Some(log.refund)
      && Member(e, "op") == Some(OpToJson(log.op))
      && Member(e, "stack") == Some(StackToJson(StackViewOf(log.stack)))
      && Member(e, "memory") == Some(MemoryToJson(r.memory))
  {
    var r := OpRecordOf(s, log);
    OpFieldReadsBack(r, 0);
    OpFieldReadsBack(r, 1);
    OpFieldReadsBack(r, 2);
    OpFieldReadsBack(r, 3);
    OpFieldReadsBack(r, 4);
    OpFieldReadsBack(r, 5);
    OpFieldReadsBack(r, 6);
    OpFieldReadsBack(r, 7);
  }

  lemma OpFieldReadsBack(r: StepRecord, i: nat)
    requires r.OpRecord? && i < 8
    ensures Member(StepToJson(r), OpFields(r)[i].0) == Some(OpFields(r)[i].1)
  {
    MemberAt(OpFields(r), i);
  }

  /** The stack part of a clean entry, read back: the log's peeked words and its stack length. */
  lemma OpEntryStackReadsBack(s: State, log: StepLog)
    ensures var st := StackToJson(OpRecordOf(s, log).stack);
      && Member(st, "length") == Some(JNum(|log.stack|))
      && Member(st, "top") == Some(if |log.stack| > 0 then log.stack[0].word else JNum(0))
      && Member(st, "topValueOf") == Some(if |log.stack| > 0 then log.stack[0].valueOf else JNum(0))
      && Member(st, "topToString") == Some(if |log.stack| > 0 then log.stack[0].hex else JNum(0))
      && Member(st, "bottom") == Some(if |log.stack| > 0 then log.stack[|log.stack| - 1].word else JNum(0))
  {
    StackReadsBack(OpRecordOf(s, log).stack);
  }

  /**
   The memory part of a clean entry, read back: the grown tail (at most ten
   bytes), the word ending at the current length once memory reaches 32
   bytes, and the memory length.
   */
  lemma OpEntryMemoryReadsBack(s: State, log: StepLog, v: MemoryView)
    requires v == OpRecordOf(s, log).memory
    ensures Member(MemoryToJson(v), "length") == Some(JNum(|log.memory|))
    ensures Member(MemoryToJson(v), "newSlice")
         == Some(JArr(log.memory[|log.memory| - NewSliceLength(s.previousMemoryLength, |log.memory|)..]))
    ensures Member(MemoryToJson(v), "newMemoryItem")
         == Some(if |log.memory| > s.previousMemoryLength && |log.memory| >= 32
                 then log.memoryWord(|log.memory| - 32) else JNum(0))
  {
    MemoryViewReadsBack(v, s.previousMemoryLength, log.memory, log.memoryWord);
  }

  /** How many of the grown bytes `step` keeps: all of them, but at most ten. */
  function NewSliceLength(prev: nat, len: nat): (n: nat)
    ensures n <= len
  {
    var grown := if len > prev then len - prev else 0;
    if grown < 10 then grown else 10
  }

  /** A serialised memory view, read back in terms of the memory and the previous length it was taken against. */
  lemma MemoryViewReadsBack(v: MemoryView, prev: nat, memory: seq<Json>, memoryWord: nat -> Json)
    requires v == MemoryViewOf(prev, memory, memoryWord)
    ensures Member(MemoryToJson(v), "length") == Some(JNum(|memory|))
    ensures Member(MemoryToJson(v), "newSlice") == Some(JArr(memory[|memory| - NewSliceLength(prev, |memory|)..]))
    ensures Member(MemoryToJson(v), "newMemoryItem")
         == Some(if |memory| > prev && |memory| >= 32 then memoryWord(|memory| - 32) else JNum(0))
  {
    MemoryReadsBack(v);
    GrownTail(prev, memory, memoryWord);
  }

  /** The new slice is the tail of memory of length min(10, grown bytes). */
  lemma GrownTail(prev: nat, memory: seq<Json>, memoryWord: nat -> Json)
    ensures MemoryViewOf(prev, memory, memoryWord).newSlice == memory[|memory| - NewSliceLength(prev, |memory|)..]
  {
    var v := MemoryViewOf(prev, memory, memoryWord);
    if |v.newSlice| == 0 {
      assert memory[|memory|..] == [];
    }
  }

  /**
   Reading a serialised call entry back, key by key, gives the frame or frame
   result it was built from; each entry carries only one of `enter` and `exit`.
   */
  lemma CallEntryReadsBack(frame: CallFrame, res: FrameResult)
    ensures Member(CallToJson(EnterRecord(frame)), "exit") == None
    ensures Member(CallToJson(ExitRecord(res)), "enter") == None
    ensures Member(CallToJson(EnterRecord(frame)), "enter").Some?
    ensures var e := Member(CallToJson(EnterRecord(frame)), "enter").value;
      && Member(e, "type") == Some(frame.callType) && Member(e, "from") == Some(frame.from)
      && Member(e, "to") == Some(frame.to) && Member(e, "input") == Some(frame.input)
      && Member(e, "gas") == Some(frame.gas) && Member(e, "value") == Some(frame.value)
    ensures Member(CallToJson(ExitRecord(res)), "exit").Some?
    ensures var x := Member(CallToJson(ExitRecord(res)), "exit").value;
      && Member(x, "gasUsed") == Some(res.gasUsed) && Member(x, "output") == Some(res.output)
      && Member(x, "error") == Some(res.error)
  {
    assert Member(CallToJson(EnterRecord(frame)), "enter") == Some(JObj(EnterFields(frame)));
    assert Member(CallToJson(ExitRecord(res)), "exit") == Some(JObj(ExitFields(res)));
    EnterObjectReadsBack(frame);
    ExitObjectReadsBack(res);
  }

  lemma EnterObjectReadsBack(frame: CallFrame)
    ensures var e := JObj(EnterFields(frame));
      && Member(e, "type") == Some(frame.callType) && Member(e, "from") == Some(frame.from)
      && Member(e, "to") == Some(frame.to) && Member(e, "input") == Some(frame.input)
      && Member(e, "gas") == Some(frame.gas) && Member(e, "value") == Some(frame.value)
  {
    EnterFieldReadsBack(frame, 0);
    EnterFieldReadsBack(frame, 1);
    EnterFieldReadsBack(frame, 2);
    EnterFieldReadsBack(frame, 3);
    EnterFieldReadsBack(frame, 4);
    EnterFieldReadsBack(frame, 5);
  }

  lemma ExitObjectReadsBack(res: FrameResult)
    ensures var x := JObj(ExitFields(res));
      && Member(x, "gasUsed") == Some(res.gasUsed) && Member(x, "output") == Some(res.output)
      && Member(x, "error") == Some(res.error)
  {
    ExitFieldReadsBack(res, 0);
    ExitFieldReadsBack(res, 1);
    ExitFieldReadsBack(res, 2);
  }

  lemma EnterFieldReadsBack(frame: CallFrame, i: nat)
    requires i < 6
    ensures Member(JObj(EnterFields(frame)), EnterFields(frame)[i].0) == Some(EnterFields(frame)[i].1)
  {
    MemberAt(EnterFields(frame), i);
  }

  lemma ExitFieldReadsBack(res: FrameResult, i: nat)
    requires i < 3
    ensures Member(JObj(ExitFields(res)), ExitFields(res)[i].0) == Some(ExitFields(res)[i].1)
  {
    MemberAt(ExitFields(res), i);
  }

  // ---------------------------------------------------------------------------
  // The hooks.
  // ---------------------------------------------------------------------------

  /** `setup(config)`: an empty trace and zeroed counters. */
  function Setup(config: Json): (s: State)
    ensures Inv(s)
    ensures TraceToJson(s) == JObj([("config", config), ("step", JArr([])), ("callStack", JArr([]))])
  {
    var s := State(config, [], [], None, 0, 0, 0);
    assert StepsToJson([]) == [] && CallsToJson([]) == [];
    assert TraceFields(s) == [("config", config), ("step", JArr([])), ("callStack", JArr([]))];
    s
  }

  /**
   The stack positions `step` peeks at, in order (top word, its two other
   forms, bottom word): none for an empty stack, and every one in range.
   */
  function StackPeeks(len: nat): (r: seq<nat>)
    ensures |r| > 0 <==> len > 0
    ensures |r| > 0 ==> |r| == 4
    ensures forall i :: 0 <= i < |r| ==> r[i] < len
  {
    if len > 0 then [0, 0, 0, len - 1] else []
  }

  /**
   The stack part of an entry: the top word in its three forms and the bottom
   word, each 0 on an empty stack, and the stack length.
   */
  function StackViewOf(stack: seq<StackWord>): (v: StackView)
    ensures v.length == |stack|
    ensures |stack| > 0 ==>
      && v.top == stack[0].word && v.topValueOf == stack[0].valueOf
      && v.topToString == stack[0].hex && v.bottom == stack[|stack| - 1].word
    ensures |stack| == 0 ==>
      v.top == JNum(0) && v.topValueOf == JNum(0) && v.topToString == JNum(0) && v.bottom == JNum(0)
  {
    var p := StackPeeks(|stack|);
    if |p| == 0 then StackView(JNum(0), JNum(0), JNum(0), JNum(0), 0)
    else StackView(stack[p[0]].word, stack[p[1]].valueOf, stack[p[2]].hex, stack[p[3]].word, |stack|)
  }

  /** The memory reads `step` makes: a `slice(start, end)` and a `getUint(offset)`, each only when due. */
  datatype MemoryReads = MemoryReads(slice: Option<(nat, nat)>, wordOffset: Option<nat>)

  /**
   The reads for previous length `prev` and current length `cur`: the slice
   only when memory grew, covering at most the last ten bytes and only grown
   ones; the word only when memory grew to at least 32 bytes, ending at `cur`.
   */
  function MemoryReadsFor(prev: nat, cur: nat): (r: MemoryReads)
    ensures r.slice.Some? <==> cur > prev
    ensures r.slice.Some? ==>
      var (lo, hi) := r.slice.value;
      prev <= lo < hi == cur && hi - lo <= 10 && (hi - lo == 10 || lo == prev)
    ensures r.wordOffset.Some? <==> cur > prev && cur >= 32
    ensures r.wordOffset.Some? ==> r.wordOffset.value + 32 == cur
  {
    var grew := cur > prev;
    var lo := if prev >= cur - 10 then prev else cur - 10;
    MemoryReads(if grew then Some((lo, cur)) else None,
                if grew && cur >= 32 then Some(cur - 32) else None)
  }

  /**
   The memory part of an entry: the grown bytes, at most the last ten of them;
   the word ending at the current length once memory has grown to 32 bytes,
   0 otherwise; and the memory length.
   */
  function MemoryViewOf(prev: nat, memory: seq<Json>, memoryWord: nat -> Json): (v: MemoryView)
    ensures v.length == |memory|
    ensures |v.newSlice| > 0 <==> |memory| > prev
    ensures |v.newSlice| <= 10
    ensures |v.newSlice| > 0 ==>
      && prev <= |memory| - |v.newSlice|
      && v.newSlice == memory[|memory| - |v.newSlice|..]
      && (|v.newSlice| == 10 || |v.newSlice| == |memory| - prev)
    ensures |memory| > prev && |memory| >= 32 ==> v.newMemoryItem == memoryWord(|memory| - 32)
    ensures !(|memory| > prev && |memory| >= 32) ==> v.newMemoryItem == JNum(0)
  {
    var plan := MemoryReadsFor(prev, |memory|);
    var slice := if plan.slice.Some? then memory[plan.slice.value.0..plan.slice.value.1] else [];
    var item := if plan.wordOffset.Some? then memoryWord(plan.wordOffset.value) else JNum(0);
    MemoryView(slice, item, |memory|)
  }

  /** The instruction entry `step` records for an error-free log. */
  function OpRecordOf(s: State, log: StepLog): (r: StepRecord)
    ensures r.OpRecord?
    ensures r.op == log.op
    ensures r.pc == log.pc && r.gas == log.gas && r.cost == log.cost
    ensures r.depth == log.depth && r.refund == log.refund
    ensures r.stack == StackViewOf(log.stack)
    ensures r.memory == MemoryViewOf(s.previousMemoryLength, log.memory, log.memoryWord)
  {
    OpRecord(log.op, StackViewOf(log.stack), MemoryViewOf(s.previousMemoryLength, log.memory, log.memoryWord),
             log.pc, log.gas, log.cost, log.depth, log.refund)
  }

  /**
   `step(log, db)`: appends exactly one entry. An error entry leaves the
   counters alone; a full entry moves them, and the first full entry also
   takes the contract snapshot.
   */
  function Step(s: State, log: StepLog): (r: State)
    ensures |r.steps| == |s.steps| + 1 && r.steps[..|s.steps|] == s.steps
    ensures r.config == s.config && r.callStack == s.callStack
    ensures log.error.Some? ==>
      r == s.(steps := s.steps + [ErrorRecord(log.error.value)])
    ensures log.error.None? ==>
      && r.steps[|s.steps|] == OpRecordOf(s, log)
      && r.count == s.count + 1
      && r.previousStackLength == |log.stack|
      && r.previousMemoryLength == |log.memory|
      && r.contract == (if s.count == 0 then Some(log.contract) else s.contract)
    ensures log.error.None? ==>
      var m := r.steps[|s.steps|].memory;
      && |m.newSlice| <= 10
      && (|m.newSlice| > 0 <==> |log.memory| > s.previousMemoryLength)
      && (|m.newSlice| > 0 ==>
            && s.previousMemoryLength <= |log.memory| - |m.newSlice|
            && m.newSlice == log.memory[|log.memory| - |m.newSlice|..]
            && (|m.newSlice| == 10 || |m.newSlice| == |log.memory| - s.previousMemoryLength))
  {
    if log.error.None? then
      State(s.config, s.steps + [OpRecordOf(s, log)], s.callStack,
            if s.count == 0 then Some(log.contract) else s.contract,
            s.count + 1, |log.stack|, |log.memory|)
    else
      s.(steps := s.steps + [ErrorRecord(log.error.value)])
  }

  /** `fault(log, db)` is `step(log, db)`. */
  function Fault(s: State, log: StepLog): State {
    Step(s, log)
  }

  /**
   `postStep(log, db)`: patches `cost` and `refund` of the last entry when it
   has a `cost` field, and nothing else. With no entry yet, `at(-1)` is
   undefined and reading its `cost` throws.
   */
  function PostStep(s: State, log: StepLog): (r: Result<State>)
    ensures r.Failure? <==> |s.steps| == 0
    ensures r.Success? ==>
      var n := |s.steps|;
      var t := r.value;
      && |t.steps| == n
      && t.steps[..n - 1] == s.steps[..n - 1]
      && t.(steps := s.steps) == s
      && (s.steps[n - 1].ErrorRecord? ==> t.steps[n - 1] == s.steps[n - 1])
      && (s.steps[n - 1].OpRecord? ==>
            t.steps[n - 1] == s.steps[n - 1].(cost := log.cost, refund := log.refund))
  {
    if |s.steps| == 0 then Failure("TypeError: cannot read properties of undefined (reading 'cost')")
    else
      var last := s.steps[|s.steps| - 1];
      HasCostIffOpRecord(last);
      if HasCost(last) then
        Success(s.(steps := s.steps[..|s.steps| - 1] + [last.(cost := log.cost, refund := log.refund)]))
      else Success(s)
  }

  /** `enter(callFrame)`: appends one call entry, the instruction entries stay as they are. */
  function Enter(s: State, frame: CallFrame): (r: State)
    ensures |r.callStack| == |s.callStack| + 1 && r.callStack[..|s.callStack|] == s.callStack
    ensures r.callStack[|s.callStack|] == EnterRecord(frame)
    ensures r.(callStack := s.callStack) == s
  {
    s.(callStack := s.callStack + [EnterRecord(frame)])
  }

  /** `exit(frameResult)`: appends one call entry, the instruction entries stay as they are. */
  function Exit(s: State, res: FrameResult): (r: State)
    ensures |r.callStack| == |s.callStack| + 1 && r.callStack[..|s.callStack|] == s.callStack
    ensures r.callStack[|s.callStack|] == ExitRecord(res)
    ensures r.(callStack := s.callStack) == s
  {
    s.(callStack := s.callStack + [ExitRecord(res)])
  }

  function CtxFields(ctx: CtxInfo): seq<(string, Json)> {
    [("type", ctx.txType), ("from", ctx.from), ("to", ctx.to), ("input", ctx.input),
     ("gas", ctx.gas), ("gasUsed", ctx.gasUsed), ("gasPrice", ctx.gasPrice),
     ("value", ctx.value), ("block", ctx.block), ("output", ctx.output), ("error", ctx.error)]
  }

  function DbFields(db: DbInfo): seq<(string, Json)> {
    [("balance", db.balance), ("nonce", db.nonce), ("code", db.code), ("state", db.state),
     ("exists", db.accountExists), ("randomexists", db.randomExists)]
  }

  function ResultInfoToJson(ctx: CtxInfo, db: DbInfo): Json {
    JObj([("ctx", JObj(CtxFields(ctx))), ("db", JObj(DbFields(db)))])
  }

  /**
   Reading the `result` entry back, key by key, gives the transaction
   context and the account facts it was built from.
   */
  lemma ResultInfoReadsBack(ctx: CtxInfo, db: DbInfo)
    ensures Member(ResultInfoToJson(ctx, db), "ctx") == Some(JObj(CtxFields(ctx)))
    ensures Member(ResultInfoToJson(ctx, db), "db") == Some(JObj(DbFields(db)))
    ensures var c := JObj(CtxFields(ctx));
      && Member(c, "type") == Some(ctx.txType) && Member(c, "from") == Some(ctx.from)
      && Member(c, "to") == Some(ctx.to) && Member(c, "input") == Some(ctx.input)
      && Member(c, "gas") == Some(ctx.gas) && Member(c, "gasUsed") == Some(ctx.gasUsed)
      && Member(c, "gasPrice") == Some(ctx.gasPrice) && Member(c, "value") == Some(ctx.value)
      && Member(c, "block") == Some(ctx.block) && Member(c, "output") == Some(ctx.output)
      && Member(c, "error") == Some(ctx.error)
    ensures var d := JObj(DbFields(db));
      && Member(d, "balance") == Some(db.balance) && Member(d, "nonce") == Some(db.nonce)
      && Member(d, "code") == Some(db.code) && Member(d, "state") == Some(db.state)
      && Member(d, "exists") == Some(db.accountExists) && Member(d, "randomexists") == Some(db.randomExists)
  {
    LookupAt(ResultInfoToJson(ctx, db).fields, 1);
    CtxFieldReadsBack(ctx, 0);
    CtxFieldReadsBack(ctx, 1);
    CtxFieldReadsBack(ctx, 2);
    CtxFieldReadsBack(ctx, 3);
    CtxFieldReadsBack(ctx, 4);
    CtxFieldReadsBack(ctx, 5);
    CtxFieldReadsBack(ctx, 6);
    CtxFieldReadsBack(ctx, 7);
    CtxFieldReadsBack(ctx, 8);
    CtxFieldReadsBack(ctx, 9);
    CtxFieldReadsBack(ctx, 10);
    DbFieldReadsBack(db, 0);
    DbFieldReadsBack(db, 1);
    DbFieldReadsBack(db, 2);
    DbFieldReadsBack(db, 3);
    DbFieldReadsBack(db, 4);
    DbFieldReadsBack(db, 5);
  }

  lemma CtxFieldReadsBack(ctx: CtxInfo, i: nat)
    requires i < 11
    ensures Member(JObj(CtxFields(ctx)), CtxFields(ctx)[i].0) == Some(CtxFields(ctx)[i].1)
  {
    MemberAt(CtxFields(ctx), i);
  }

  lemma DbFieldReadsBack(db: DbInfo, i: nat)
    requires i < 6
    ensures Member(JObj(DbFields(db)), DbFields(db)[i].0) == Some(DbFields(db)[i].1)
  {
    MemberAt(DbFields(db), i);
  }

  /** `result(ctx, db)`: the accumulated trace with a `result` entry added last. */
  function ResultTrace(s: State, ctx: CtxInfo, db: DbInfo): (r: Json)
    ensures r.JObj?
    ensures Lookup(r.fields, "step") == Some(JArr(StepsToJson(s.steps)))
    ensures Lookup(r.fields, "callStack") == Some(JArr(CallsToJson(s.callStack)))
    ensures Keys(r.fields) == ["config", "step", "callStack"]
                              + (if s.contract.Some? then ["contract"] else []) + ["result"]
  {
    var fields := TraceFields(s) + [("result", ResultInfoToJson(ctx, db))];
    assert Keys(fields) == ["config", "step", "callStack"]
                         + (if s.contract.Some? then ["contract"] else []) + ["result"];
    LookupAt(fields, 1);
    LookupAt(fields, 2);
    JObj(fields)
  }

  /** The returned trace holds the configuration `setup` stored under `config`. */
  lemma ResultTraceConfig(s: State, ctx: CtxInfo, db: DbInfo)
    ensures Member(ResultTrace(s, ctx, db), "config") == Some(s.config)
  {
    var base := TraceFields(s);
    var last := [("result", ResultInfoToJson(ctx, db))];
    assert ResultTrace(s, ctx, db) == JObj(base + last);
    ConfigLookup(base, last, s.config);
  }

  /** The returned trace holds the first clean step's snapshot under `contract`, and no `contract` when none was taken. */
  lemma ResultTraceContract(s: State, ctx: CtxInfo, db: DbInfo)
    ensures s.contract.Some? ==> Member(ResultTrace(s, ctx, db), "contract") == Some(ContractToJson(s.contract.value))
    ensures s.contract.None? ==> Member(ResultTrace(s, ctx, db), "contract") == None
  {
    var base := TraceFields(s);
    var last := [("result", ResultInfoToJson(ctx, db))];
    assert ResultTrace(s, ctx, db) == JObj(base + last);
    if s.contract.Some? {
      ContractLookup(base, last);
    } else {
      NoContractLookup(base, last);
    }
  }

  /** The returned trace holds the data built from `ctx` and `db` under `result`. */
  lemma ResultTraceResult(s: State, ctx: CtxInfo, db: DbInfo)
    ensures Member(ResultTrace(s, ctx, db), "result") == Some(ResultInfoToJson(ctx, db))
  {
    var base := TraceFields(s);
    var last := [("result", ResultInfoToJson(ctx, db))];
    assert ResultTrace(s, ctx, db) == JObj(base + last);
    ResultLookup(base, last, s.contract.Some?);
  }

  lemma ConfigLookup(base: seq<(string, Json)>, last: seq<(string, Json)>, config: Json)
    requires |base| > 0 && base[0] == ("config", config)
    ensures Lookup(base + last, "config") == Some(config)
  {
    assert (base + last)[0] == base[0];
  }

  /** The keys of a trace without its `result` entry, position by position. */
  predicate TraceKeys(base: seq<(string, Json)>, withContract: bool) {
    && |base| == (if withContract then 4 else 3)
    && base[0].0 == "config" && base[1].0 == "step" && base[2].0 == "callStack"
    && (withContract ==> base[3].0 == "contract")
  }

  /** The five keys of a returned trace are pairwise distinct. */
  lemma TraceKeysDistinct()
    ensures "config" != "step" && "config" != "callStack" && "config" != "contract" && "config" != "result"
    ensures "step" != "callStack" && "step" != "contract" && "step" != "result"
    ensures "callStack" != "contract" && "callStack" != "result" && "contract" != "result"
  {
    assert "config"[0] != "result"[0];
    assert |"config"| != |"step"| && |"config"| != |"callStack"| && |"config"| != |"contract"|;
    assert |"step"| != |"callStack"| && |"step"| != |"contract"| && |"step"| != |"result"|;
    assert |"callStack"| != |"contract"| && |"callStack"| != |"result"| && |"contract"| != |"result"|;
  }

  lemma ResultLookup(base: seq<(string, Json)>, last: seq<(string, Json)>, withContract: bool)
    requires TraceKeys(base, withContract)
    requires |last| == 1 && last[0].0 == "result"
    ensures Lookup(base + last, "result") == Some(last[0].1)
  {
    TraceKeysDistinct();
    var f := base + last;
    assert forall j :: 0 <= j < |base| ==> f[j].0 == base[j].0;
    assert f[|base|] == last[0];
    LookupAt(f, |base|);
  }

  lemma ContractLookup(base: seq<(string, Json)>, last: seq<(string, Json)>)
    requires TraceKeys(base, true)
    requires |last| == 1 && last[0].0 == "result"
    ensures Lookup(base + last, "contract") == Some(base[3].1)
  {
    TraceKeysDistinct();
    var f := base + last;
    assert forall j :: 0 <= j < 4 ==> f[j] == base[j];
    LookupAt(f, 3);
  }

  lemma NoContractLookup(base: seq<(string, Json)>, last: seq<(string, Json)>)
    requires TraceKeys(base, false)
    requires |last| == 1 && last[0].0 == "result"
    ensures Lookup(base + last, "contract") == None
  {
    TraceKeysDistinct();
    LookupAppend(base, last, "contract");
  }

  // ---------------------------------------------------------------------------
  // What a returned trace determines.
  // ---------------------------------------------------------------------------

  lemma StepToJsonInjective(a: StepRecord, b: StepRecord)
    requires StepToJson(a) == StepToJson(b)
    ensures a == b
  {
    var fa := StepToJson(a).fields;
    var fb := StepToJson(b).fields;
    assert |fa| == |fb|;
    if a.OpRecord? && b.OpRecord? {
      assert fa[0] == fb[0] && fa[1] == fb[1] && fa[2] == fb[2];
      assert StackToJson(a.stack).fields[4] == StackToJson(b.stack).fields[4];
      assert MemoryToJson(a.memory).fields[0] == MemoryToJson(b.memory).fields[0];
      assert MemoryToJson(a.memory).fields[2] == MemoryToJson(b.memory).fields[2];
      assert fa[3] == fb[3] && fa[4] == fb[4] && fa[5] == fb[5] && fa[6] == fb[6] && fa[7] == fb[7];
    } else if a.ErrorRecord? && b.ErrorRecord? {
      assert fa[0] == fb[0];
    }
  }

  lemma CallToJsonInjective(a: CallRecord, b: CallRecord)
    requires CallToJson(a) == CallToJson(b)
    ensures a == b
  {
    var fa := CallToJson(a).fields;
    var fb := CallToJson(b).fields;
    assert fa[0] == fb[0];
  }

  /**
   Two returned traces are equal exactly when everything they were built
   from is: so a Match between two nodes says their tracer runs recorded the
   same entries, the same snapshot and the same result data.
   */
  lemma ResultTraceInjective(s1: State, c1: CtxInfo, d1: DbInfo, s2: State, c2: CtxInfo, d2: DbInfo)
    requires ResultTrace(s1, c1, d1) == ResultTrace(s2, c2, d2)
    ensures s1.config == s2.config && s1.steps == s2.steps && s1.callStack == s2.callStack
    ensures s1.contract == s2.contract
    ensures c1 == c2 && d1 == d2
  {
    var f1 := ResultTrace(s1, c1, d1).fields;
    var f2 := ResultTrace(s2, c2, d2).fields;
    assert f1 == TraceFields(s1) + [("result", ResultInfoToJson(c1, d1))];
    assert f2 == TraceFields(s2) + [("result", ResultInfoToJson(c2, d2))];
    assert f1[0] == f2[0] && f1[1] == f2[1] && f1[2] == f2[2];
    StepsInjective(s1.steps, s2.steps);
    CallsInjective(s1.callStack, s2.callStack);
    assert s1.contract.Some? <==> s2.contract.Some? by {
      assert |f1| == |f2|;
    }
    if s1.contract.Some? {
      assert f1[3] == f2[3];
      ContractInjective(s1.contract.value, s2.contract.value);
    }
    var n := |f1| - 1;
    assert f1[n] == f2[n];
    ResultInfoInjective(c1, d1, c2, d2);
  }

  lemma StepsInjective(a: seq<StepRecord>, b: seq<StepRecord>)
    requires StepsToJson(a) == StepsToJson(b)
    ensures a == b
  {
    forall i | 0 <= i < |a|
      ensures a[i] == b[i]
    {
      StepToJsonInjective(a[i], b[i]);
    }
  }

  lemma CallsInjective(a: seq<CallRecord>, b: seq<CallRecord>)
    requires CallsToJson(a) == CallsToJson(b)
    ensures a == b
  {
    forall i | 0 <= i < |a|
      ensures a[i] == b[i]
    {
      CallToJsonInjective(a[i], b[i]);
    }
  }

  lemma ContractInjective(a: ContractSnapshot, b: ContractSnapshot)
    requires ContractToJson(a) == ContractToJson(b)
    ensures a == b
  {
    var x := ContractToJson(a).fields;
    var y := ContractToJson(b).fields;
    assert x[0] == y[0] && x[1] == y[1] && x[2] == y[2] && x[3] == y[3] && x[4] == y[4] && x[5] == y[5];
    assert x[6] == y[6] && x[7] == y[7] && x[8] == y[8] && x[9] == y[9] && x[10] == y[10];
  }

  lemma ResultInfoInjective(c1: CtxInfo, d1: DbInfo, c2: CtxInfo, d2: DbInfo)
    requires ResultInfoToJson(c1, d1) == ResultInfoToJson(c2, d2)
    ensures c1 == c2 && d1 == d2
  {
    var x := ResultInfoToJson(c1, d1).fields;
    var y := ResultInfoToJson(c2, d2).fields;
    assert x[0] == y[0] && x[1] == y[1];
    var cx := CtxFields(c1);
    var cy := CtxFields(c2);
    assert cx == cy;
    assert cx[0] == cy[0] && cx[1] == cy[1] && cx[2] == cy[2] && cx[3] == cy[3] && cx[4] == cy[4] && cx[5] == cy[5];
    assert cx[6] == cy[6] && cx[7] == cy[7] && cx[8] == cy[8] && cx[9] == cy[9] && cx[10] == cy[10];
    var dx := DbFields(d1);
    var dy := DbFields(d2);
    assert dx == dy;
    assert dx[0] == dy[0] && dx[1] == dy[1] && dx[2] == dy[2] && dx[3] == dy[3] && dx[4] == dy[4] && dx[5] == dy[5];
  }

  // ---------------------------------------------------------------------------
  // Runs.
  // ---------------------------------------------------------------------------

  /** One host call after `setup`. */
  datatype Event =
    | StepEvent(log: StepLog)
    | FaultEvent(log: StepLog)
    | PostStepEvent(log: StepLog)
    | EnterEvent(frame: CallFrame)
    | ExitEvent(res: FrameResult)

  function Apply(s: State, e: Event): Result<State> {
    match e
    case StepEvent(log) => Success(Step(s, log))
    case FaultEvent(log) => Success(Fault(s, log))
    case PostStepEvent(log) => PostStep(s, log)
    case EnterEvent(frame) => Success(Enter(s, frame))
    case ExitEvent(res) => Success(Exit(s, res))
  }

  /** The calls of `events` in order; a thrown error ends the run. */
  function Run(s: State, events: seq<Event>): Result<State>
    decreases |events|
  {
    if |events| == 0 then Success(s)
    else match Run(s, events[..|events| - 1])
      case Failure(e) => Failure(e)
      case Success(t) => Apply(t, events[|events| - 1])
  }

  predicate IsStepCall(e: Event) {
    e.StepEvent? || e.FaultEvent?
  }

  /** The number of `step` and `fault` calls. */
  function StepCalls(events: seq<Event>): nat {
    if |events| == 0 then 0
    else StepCalls(events[..|events| - 1]) + (if IsStepCall(events[|events| - 1]) then 1 else 0)
  }

  /** The number of error-free `step` and `fault` calls. */
  function CleanStepCalls(events: seq<Event>): nat {
    if |events| == 0 then 0
    else
      var e := events[|events| - 1];
      CleanStepCalls(events[..|events| - 1]) + (if IsStepCall(e) && e.log.error.None? then 1 else 0)
  }

  /** The number of `enter` and `exit` calls. */
  function FrameCalls(events: seq<Event>): nat {
    if |events| == 0 then 0
    else
      var e := events[|events| - 1];
      FrameCalls(events[..|events| - 1]) + (if e.EnterEvent? || e.ExitEvent? then 1 else 0)
  }

  /** The log of the first error-free `step` or `fault` call. */
  function FirstCleanLog(events: seq<Event>): Option<StepLog> {
    if |events| == 0 then None
    else
      var e := events[|events| - 1];
      match FirstCleanLog(events[..|events| - 1])
      case Some(l) => Some(l)
      case None => if IsStepCall(e) && e.log.error.None? then Some(e.log) else None
  }

  lemma {:induction false} OpRecordsAppend(steps: seq<StepRecord>, r: StepRecord)
    ensures OpRecords(steps + [r]) == OpRecords(steps) + (if r.OpRecord? then 1 else 0)
    ensures LastStackLength(steps + [r]) == (if r.OpRecord? then r.stack.length else LastStackLength(steps))
    ensures LastMemoryLength(steps + [r]) == (if r.OpRecord? then r.memory.length else LastMemoryLength(steps))
  {
    assert (steps + [r])[..|steps|] == steps;
  }

  lemma StepKeepsInv(s: State, log: StepLog)
    requires Inv(s)
    ensures Inv(Step(s, log))
  {
    var t := Step(s, log);
    assert t.steps == s.steps + [t.steps[|s.steps|]];
    OpRecordsAppend(s.steps, t.steps[|s.steps|]);
  }

  lemma PostStepKeepsInv(s: State, log: StepLog)
    requires Inv(s) && |s.steps| > 0
    ensures Inv(PostStep(s, log).value)
  {
    var t := PostStep(s, log).value;
    var n := |s.steps|;
    var init := s.steps[..n - 1];
    assert s.steps == init + [s.steps[n - 1]];
    assert t.steps == init + [t.steps[n - 1]];
    OpRecordsAppend(init, s.steps[n - 1]);
    OpRecordsAppend(init, t.steps[n - 1]);
  }

  /**
   Over any run from `setup`: one entry per `step`/`fault` call, one call
   entry per `enter`/`exit` call, `count` is the number of error-free
   `step`/`fault` calls, and the snapshot is the one the first of those saw.
   */
  lemma {:induction false} RunCounts(config: Json, events: seq<Event>)
    requires Run(Setup(config), events).Success?
    ensures var t := Run(Setup(config), events).value;
      && Inv(t)
      && |t.steps| == StepCalls(events)
      && t.count == CleanStepCalls(events)
      && |t.callStack| == FrameCalls(events)
      && t.contract == (match FirstCleanLog(events) case Some(l) => Some(l.contract) case None => None)
    decreases |events|
  {
    if |events| > 0 {
      var init := events[..|events| - 1];
      var e := events[|events| - 1];
      RunCounts(config, init);
      assert Counted(Run(Setup(config), init).value, init);
      RunCountsStep(Setup(config), events);
    }
  }

  lemma RunCountsStep(s0: State, events: seq<Event>)
    requires |events| > 0 && Run(s0, events).Success?
    requires Run(s0, events[..|events| - 1]).Success?
    requires Counted(Run(s0, events[..|events| - 1]).value, events[..|events| - 1])
    ensures Counted(Run(s0, events).value, events)
  {
    var init := events[..|events| - 1];
    var e := events[|events| - 1];
    assert events == init + [e];
    ApplyCounts(Run(s0, init).value, init, e);
  }

  /** The state after `events` agrees with what `RunCounts` says of it. */
  ghost predicate Counted(t: State, events: seq<Event>) {
    && Inv(t)
    && |t.steps| == StepCalls(events)
    && t.count == CleanStepCalls(events)
    && |t.callStack| == FrameCalls(events)
    && t.contract == (match FirstCleanLog(events) case Some(l) => Some(l.contract) case None => None)
  }

  /** One more call keeps the counts in step with the calls made. */
  lemma ApplyCounts(s: State, init: seq<Event>, e: Event)
    requires Counted(s, init)
    requires Apply(s, e).Success?
    ensures Counted(Apply(s, e).value, init + [e])
  {
    assert (init + [e])[..|init|] == init;
    match e
    case StepEvent(log) => StepKeepsInv(s, log);
    case FaultEvent(log) => StepKeepsInv(s, log);
    case PostStepEvent(log) => PostStepKeepsInv(s, log);
    case EnterEvent(_) =>
    case ExitEvent(_) =>
  }

  /** The run with every `fault` call made as a `step` call. */
  function FaultsAsSteps(events: seq<Event>): (r: seq<Event>)
    ensures |r| == |events|
  {
    seq(|events|, i requires 0 <= i < |events| =>
      if events[i].FaultEvent? then StepEvent(events[i].log) else events[i])
  }

  /** `fault` and `step` are interchangeable in any run. */
  lemma {:induction false} FaultIsStep(s: State, events: seq<Event>)
    ensures Run(s, FaultsAsSteps(events)) == Run(s, events)
    decreases |events|
  {
    if |events| > 0 {
      var init := events[..|events| - 1];
      FaultIsStep(s, init);
      assert FaultsAsSteps(events)[..|events| - 1] == FaultsAsSteps(init);
    }
  }
}
