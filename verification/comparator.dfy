/**
 The differential comparator (jsTracerTest.js, `TraceComparator`): one pair
 of tracing clients per tracer payload, the three-way decision on the two
 traces, and the diff report written on a mismatch.

 The structural diff is the `deep-object-diff` library, which is not part of
 this model: it enters every operation as the parameter `diff`.
 */
module Comparator {
  import opened Wrappers
  import opened Json
  import opened TraceClient

  /** A node as configured: a label and a "host:port" string. */
  datatype NodeConfig = NodeConfig(name: string, url: string)

  /** One comparison unit: the same payload on the two nodes. */
  datatype Pair = Pair(first: Tracer, second: Tracer)

  datatype TraceComparator = TraceComparator(tracers: seq<Pair>)

  /** The constructor: one pair per payload, in payload order. */
  method NewComparator(n1: NodeConfig, n2: NodeConfig, payloads: seq<string>) returns (c: TraceComparator)
    ensures |c.tracers| == |payloads|
    ensures forall i :: 0 <= i < |payloads| ==>
      && c.tracers[i].first.tracerCode == payloads[i]
      && c.tracers[i].second.tracerCode == payloads[i]
    ensures forall i :: 0 <= i < |payloads| ==>
      && c.tracers[i].first == NewTracer(n1.url, payloads[i], n1.name)
      && c.tracers[i].second == NewTracer(n2.url, payloads[i], n2.name)
  {
    var pairs: seq<Pair> := [];
    var k := 0;
    while k < |payloads|
      invariant 0 <= k <= |payloads|
      invariant |pairs| == k
      invariant forall i :: 0 <= i < k ==>
        pairs[i] == Pair(NewTracer(n1.url, payloads[i], n1.name), NewTracer(n2.url, payloads[i], n2.name))
    {
      pairs := pairs + [Pair(NewTracer(n1.url, payloads[k], n1.name), NewTracer(n2.url, payloads[k], n2.name))];
      k := k + 1;
    }
    c := TraceComparator(pairs);
  }

  // ---------------------------------------------------------------------------
  // The diff report.
  // ---------------------------------------------------------------------------

  datatype Side = First | Second

  /** One line of the report; values stand for their `JSON.stringify` text (`None` prints as undefined). */
  datatype Line =
    | DiffLine(diff: Json)
    | StepHeader
    | StepLine(side: Side, index: string, record: Option<Json>)
    | TraceLine(side: Side, trace: Json)

  /** A written report: its file name, its lines, and whether a thrown error cut it short. */
  datatype DiffFile = DiffFile(name: string, lines: seq<Line>, aborted: bool)

  /** `tx.slice(2)`. */
  function DropTwo(tx: string): string {
    if |tx| >= 2 then tx[2..] else ""
  }

  function DiffFileName(tx: string): string {
    "./diffs/" + DropTwo(tx) + ".diff"
  }

  /** The file is named by the transaction hash without its "0x" prefix. */
  lemma DiffFileNameOfHash(hex: string)
    ensures DiffFileName("0x" + hex) == "./diffs/" + hex + ".diff"
  {
    assert ("0x" + hex)[2..] == hex;
  }

  /** Two "0x"-hashes share a report file only if they are the same hash. */
  lemma DiffFileNameInjective(h1: string, h2: string)
    requires DiffFileName("0x" + h1) == DiffFileName("0x" + h2)
    ensures h1 == h2
  {
    DiffFileNameOfHash(h1);
    DiffFileNameOfHash(h2);
    HashOfName(h1);
    HashOfName(h2);
  }

  /** The hash sits between the eight-character directory and the extension. */
  lemma HashOfName(hex: string)
    ensures |"./diffs/" + hex + ".diff"| == |hex| + 13
    ensures ("./diffs/" + hex + ".diff")[8..|hex| + 8] == hex
  {
  }

  /** `trace['step'][key]`: throws when the trace is null or has no readable `step`. */
  function StepRecordOf(trace: Json, key: string): Result<Option<Json>> {
    match Access(Some(trace), "step")
    case Failure(e) => Failure(e)
    case Success(steps) => Access(steps, key)
  }

  /** A trace whose `step` can be indexed without throwing. */
  predicate StepReadable(trace: Json) {
    Access(Some(trace), "step").Success? && !Nullish(Access(Some(trace), "step").value)
  }

  /**
   The per-instruction section: for each key of `diff.step`, the first side's
   record and then the second side's. Reading a record can throw, which ends
   the report; the flag says whether that happened.
   */
  function StepLines(t1: Json, t2: Json, keys: seq<string>): (r: (seq<Line>, bool))
    ensures r.1 <==> |keys| > 0 && !(StepReadable(t1) && StepReadable(t2))
    ensures !r.1 ==> |r.0| == 2 * |keys|
    ensures forall l :: l in r.0 ==> l.StepLine?
    ensures !r.1 ==> PairedLines(r.0, t1, t2, keys)
    ensures !r.1 ==> forall j :: 0 <= j < |keys| ==>
      && r.0[2 * j] == StepLine(First, keys[j], StepRecordOf(t1, keys[j]).value)
      && r.0[2 * j + 1] == StepLine(Second, keys[j], StepRecordOf(t2, keys[j]).value)
    decreases |keys|
  {
    if |keys| == 0 then ([], false)
    else
      var k := keys[0];
      match StepRecordOf(t1, k)
      case Failure(_) => ([], true)
      case Success(v1) =>
        match StepRecordOf(t2, k)
        case Failure(_) => ([StepLine(First, k, v1)], true)
        case Success(v2) =>
          var rest := StepLines(t1, t2, keys[1..]);
          if rest.1 then ([StepLine(First, k, v1), StepLine(Second, k, v2)] + rest.0, true)
          else
            PairedLinesCons(t1, t2, keys, rest.0, v1, v2);
            ([StepLine(First, k, v1), StepLine(Second, k, v2)] + rest.0, false)
  }

  /** Two lines per key, in key order: the first side's record, then the second's; neither read throws. */
  predicate PairedLines(lines: seq<Line>, t1: Json, t2: Json, keys: seq<string>) {
    && |lines| == 2 * |keys|
    && forall j :: 0 <= j < |keys| ==> PairedAt(lines, keys[j], j, StepRecordOf(t1, keys[j]), StepRecordOf(t2, keys[j]))
  }

  /** Lines `2 * j` and `2 * j + 1` hold the records read under `key`, both reads having succeeded. */
  predicate PairedAt(lines: seq<Line>, key: string, j: nat, read1: Result<Option<Json>>, read2: Result<Option<Json>>) {
    && 2 * j + 1 < |lines|
    && read1.Success? && read2.Success?
    && lines[2 * j] == StepLine(First, key, read1.value)
    && lines[2 * j + 1] == StepLine(Second, key, read2.value)
  }

  lemma PairedLinesCons(t1: Json, t2: Json, keys: seq<string>, rest: seq<Line>, v1: Option<Json>, v2: Option<Json>)
    requires |keys| > 0
    requires StepRecordOf(t1, keys[0]) == Success(v1) && StepRecordOf(t2, keys[0]) == Success(v2)
    requires PairedLines(rest, t1, t2, keys[1..])
    ensures PairedLines([StepLine(First, keys[0], v1), StepLine(Second, keys[0], v2)] + rest, t1, t2, keys)
  {
    var front := [StepLine(First, keys[0], v1), StepLine(Second, keys[0], v2)];
    forall j | 0 <= j < |keys|
      ensures PairedAt(front + rest, keys[j], j, StepRecordOf(t1, keys[j]), StepRecordOf(t2, keys[j]))
    {
      if j == 0 {
        PairedHead(front, rest, keys[0], StepRecordOf(t1, keys[0]), StepRecordOf(t2, keys[0]));
      } else {
        var k := keys[1..][j - 1];
        assert keys[j] == k;
        PairedTail(front, rest, k, j - 1, StepRecordOf(t1, k), StepRecordOf(t2, k));
      }
    }
  }

  lemma PairedHead(front: seq<Line>, rest: seq<Line>, key: string, read1: Result<Option<Json>>, read2: Result<Option<Json>>)
    requires read1.Success? && read2.Success?
    requires front == [StepLine(First, key, read1.value), StepLine(Second, key, read2.value)]
    ensures PairedAt(front + rest, key, 0, read1, read2)
  {
  }

  lemma PairedTail(front: seq<Line>, rest: seq<Line>, key: string, j: nat, read1: Result<Option<Json>>, read2: Result<Option<Json>>)
    requires |front| == 2
    requires PairedAt(rest, key, j, read1, read2)
    ensures PairedAt(front + rest, key, j + 1, read1, read2)
  {
    ShiftTwo(front, rest, j);
  }

  /** Two lines put in front move every line two places on. */
  lemma ShiftTwo(front: seq<Line>, rest: seq<Line>, j: nat)
    requires |front| == 2 && 2 * j + 1 < |rest|
    ensures (front + rest)[2 * j + 2] == rest[2 * j] && (front + rest)[2 * j + 3] == rest[2 * j + 1]
  {
  }

  /** True when `'step' in diff` holds. */
  predicate HasStepKey(diff: Json) {
    diff.JObj? && "step" in Keys(diff.fields)
  }

  /** A report with a step section: the diff line, the header, the section, then both traces unless a read threw. */
  function StepReport(name: string, t1: Json, t2: Json, diff: Json, keys: seq<string>): (r: DiffFile)
    ensures r.name == name
    ensures |r.lines| >= 2 && r.lines[0] == DiffLine(diff) && r.lines[1] == StepHeader
    ensures StepHeader in r.lines
    ensures r.aborted <==> |keys| > 0 && !(StepReadable(t1) && StepReadable(t2))
    ensures !r.aborted ==> |r.lines| == 4 + 2 * |keys|
    ensures !r.aborted ==> r.lines[|r.lines| - 2..] == [TraceLine(First, t1), TraceLine(Second, t2)]
    ensures !r.aborted ==> forall j :: 0 <= j < |keys| ==>
      && r.lines[2 + 2 * j] == StepLine(First, keys[j], StepRecordOf(t1, keys[j]).value)
      && r.lines[3 + 2 * j] == StepLine(Second, keys[j], StepRecordOf(t2, keys[j]).value)
  {
    var section := StepLines(t1, t2, keys);
    var head := [DiffLine(diff), StepHeader];
    if section.1 then DiffFile(name, head + section.0, true)
    else
      ReportLayout(head, section.0, [TraceLine(First, t1), TraceLine(Second, t2)]);
      DiffFile(name, head + section.0 + [TraceLine(First, t1), TraceLine(Second, t2)], false)
  }

  /** Where a step section lands in the report: after the two head lines, before the two traces. */
  lemma ReportLayout(head: seq<Line>, section: seq<Line>, tail: seq<Line>)
    requires |head| == 2 && |tail| == 2
    ensures var lines := head + section + tail;
      && |lines| == 4 + |section|
      && lines[|lines| - 2..] == tail
      && forall k :: 0 <= k < |section| ==> lines[2 + k] == section[k]
  {
    var lines := head + section + tail;
    assert lines[|lines| - 2..] == tail;
  }

  /**
   `#outputDiff`: the report file for a mismatch. `'step' in diff` throws
   when the diff is not an object or array.
   */
  function OutputDiff(tx: string, t1: Json, t2: Json, diff: Json): (r: DiffFile)
    ensures r.name == DiffFileName(tx)
    ensures |r.lines| >= 1 && r.lines[0] == DiffLine(diff)
    ensures StepHeader in r.lines <==> HasStepKey(diff)
    ensures !r.aborted ==> |r.lines| >= 3 && r.lines[|r.lines| - 2..] == [TraceLine(First, t1), TraceLine(Second, t2)]
    ensures (diff.JObj? || diff.JArr?) && !HasStepKey(diff) ==>
      r.lines == [DiffLine(diff), TraceLine(First, t1), TraceLine(Second, t2)] && !r.aborted
    ensures HasStepKey(diff) && StepReadable(t1) && StepReadable(t2) ==>
      var keys := ForInKeys(Lookup(diff.fields, "step").value);
      && !r.aborted
      && |r.lines| == 4 + 2 * |keys|
      && r.lines[1] == StepHeader
      && forall j :: 0 <= j < |keys| ==>
           && r.lines[2 + 2 * j] == StepLine(First, keys[j], StepRecordOf(t1, keys[j]).value)
           && r.lines[3 + 2 * j] == StepLine(Second, keys[j], StepRecordOf(t2, keys[j]).value)
    ensures r.aborted ==> !(diff.JObj? || diff.JArr?) || (HasStepKey(diff) && !(StepReadable(t1) && StepReadable(t2)))
  {
    var name := DiffFileName(tx);
    var tail := [TraceLine(First, t1), TraceLine(Second, t2)];
    match diff
    case JObj(fields) =>
      if "step" in Keys(fields) then StepReport(name, t1, t2, diff, ForInKeys(Lookup(fields, "step").value))
      else DiffFile(name, [DiffLine(diff)] + tail, false)
    case JArr(_) => DiffFile(name, [DiffLine(diff)] + tail, false)
    case _ => DiffFile(name, [DiffLine(diff)], true)
  }

  // ---------------------------------------------------------------------------
  // The decision.
  // ---------------------------------------------------------------------------

  /** The verdict on one pair for one transaction; only a mismatch writes a report. */
  datatype Outcome = Error | Match | Mismatch(file: DiffFile)

  /**
   `#compareTraces`: an absent trace is an error; equal serialisations are a
   match; anything else is a mismatch with its report.
   */
  function CompareTraces(tx: string, t1: Option<Json>, t2: Option<Json>, diff: (Json, Json) -> Json): (r: Outcome)
    ensures r.Error? <==> t1.None? || t2.None?
    ensures r.Match? <==> t1.Some? && t2.Some? && t1.value == t2.value
    ensures r.Mismatch? <==> t1.Some? && t2.Some? && t1.value != t2.value
    ensures r.Mismatch? ==> r.file.name == DiffFileName(tx) && |r.file.lines| >= 1 && r.file.lines[0] == DiffLine(diff(t1.value, t2.value))
  {
    if t1.None? || t2.None? then Error
    else if t1.value != t2.value then Mismatch(OutputDiff(tx, t1.value, t2.value, diff(t1.value, t2.value)))
    else Match
  }

  /** A pair either reaches a decision, or a response handler throws and it never does. */
  datatype PairOutcome = Decided(outcome: Outcome) | Aborted

  /** The two request bodies a pair posts for one transaction. */
  function PairRequests(p: Pair, tx: string): (string, string) {
    (TraceRequest(tx, p.first.tracerCode), TraceRequest(tx, p.second.tracerCode))
  }

  /**
   Both calls of one pair, then the decision on their results. In terms of
   the node's two replies: an unparseable or null reply stops the pair; a
   reply without `result` makes it an error; equal `result`s are a match;
   different ones a mismatch whose report is about exactly those two.
   */
  function RunPair(p: Pair, tx: string, node: (RequestParams, string) -> Option<Json>,
                   diff: (Json, Json) -> Json): (r: PairOutcome)
    ensures r.Aborted? <==> Nullish(Reply(p.first, tx, node)) || Nullish(Reply(p.second, tx, node))
    ensures r.Decided? ==>
      var a := Member(Reply(p.first, tx, node).value, "result");
      var b := Member(Reply(p.second, tx, node).value, "result");
      && (r.outcome.Error? <==> a.None? || b.None?)
      && (r.outcome.Match? <==> a.Some? && a == b)
      && (r.outcome.Mismatch? ==>
            && a.Some? && b.Some? && a != b
            && r.outcome.file.name == DiffFileName(tx)
            && |r.outcome.file.lines| >= 1 && r.outcome.file.lines[0] == DiffLine(diff(a.value, b.value)))
  {
    var r1 := TraceTransaction(p.first, tx, node);
    var r2 := TraceTransaction(p.second, tx, node);
    if r1.Thrown? || r2.Thrown? then Aborted
    else Decided(CompareTraces(tx, r1.result, r2.result, diff))
  }

  /** `onTransaction` after the settle delay: every pair is run on the same transaction. */
  function OnTransaction(c: TraceComparator, tx: string, node: (RequestParams, string) -> Option<Json>,
                         diff: (Json, Json) -> Json): seq<PairOutcome> {
    seq(|c.tracers|, i requires 0 <= i < |c.tracers| => RunPair(c.tracers[i], tx, node, diff))
  }

  /**
   Pairs do not interfere: one outcome per pair, and a pair's outcome depends
   only on the pair itself, so the same pair in two comparators fares alike.
   */
  lemma OnTransactionPairsIsolated(c1: TraceComparator, c2: TraceComparator, i: nat, j: nat, tx: string,
                                   node: (RequestParams, string) -> Option<Json>, diff: (Json, Json) -> Json)
    requires i < |c1.tracers| && j < |c2.tracers| && c1.tracers[i] == c2.tracers[j]
    ensures |OnTransaction(c1, tx, node, diff)| == |c1.tracers|
    ensures OnTransaction(c1, tx, node, diff)[i] == OnTransaction(c2, tx, node, diff)[j]
  {
  }

  /**
   The report path depends on the transaction alone: every pair of one
   transaction that mismatches writes its report to the same file.
   */
  lemma OneReportFilePerTransaction(c: TraceComparator, tx: string, node: (RequestParams, string) -> Option<Json>,
                                    diff: (Json, Json) -> Json, i: nat, j: nat)
    requires i < |c.tracers| && j < |c.tracers|
    requires OnTransaction(c, tx, node, diff)[i].Decided? && OnTransaction(c, tx, node, diff)[i].outcome.Mismatch?
    requires OnTransaction(c, tx, node, diff)[j].Decided? && OnTransaction(c, tx, node, diff)[j].outcome.Mismatch?
    ensures OnTransaction(c, tx, node, diff)[i].outcome.file.name == DiffFileName(tx)
    ensures OnTransaction(c, tx, node, diff)[i].outcome.file.name == OnTransaction(c, tx, node, diff)[j].outcome.file.name
  {
  }

  /**
   Every request of a transaction's run asks about that transaction: two
   nodes that answer alike to every request carrying `tx` (whatever they do
   with other requests) give the same outcomes.
   */
  lemma OnTransactionAsksOnlyAboutTx(c: TraceComparator, tx: string, node1: (RequestParams, string) -> Option<Json>,
                                     node2: (RequestParams, string) -> Option<Json>, diff: (Json, Json) -> Json)
    requires '"' !in tx
    requires forall p, req :: RequestTx(req) == Some(tx) ==> node1(p, req) == node2(p, req)
    ensures OnTransaction(c, tx, node1, diff) == OnTransaction(c, tx, node2, diff)
  {
    forall i | 0 <= i < |c.tracers|
      ensures RunPair(c.tracers[i], tx, node1, diff) == RunPair(c.tracers[i], tx, node2, diff)
    {
      var p := c.tracers[i];
      RequestTxOf(tx, p.first.tracerCode);
      RequestTxOf(tx, p.second.tracerCode);
      assert Reply(p.first, tx, node1) == Reply(p.first, tx, node2);
      assert Reply(p.second, tx, node1) == Reply(p.second, tx, node2);
    }
  }

  /**
   Both members of every constructed pair post the same request: the one for
   the pair's payload. A quote-free transaction id reads back from it.
   */
  lemma PairSendsSameRequest(payloads: seq<string>, c: TraceComparator, tx: string)
    requires |c.tracers| == |payloads|
    requires forall i :: 0 <= i < |payloads| ==>
      c.tracers[i].first.tracerCode == payloads[i] && c.tracers[i].second.tracerCode == payloads[i]
    ensures forall i :: 0 <= i < |c.tracers| ==>
      PairRequests(c.tracers[i], tx) == (TraceRequest(tx, payloads[i]), TraceRequest(tx, payloads[i]))
    ensures '"' !in tx ==> forall i :: 0 <= i < |c.tracers| ==> RequestTx(PairRequests(c.tracers[i], tx).0) == Some(tx)
  {
    if '"' !in tx {
      forall i | 0 <= i < |c.tracers|
        ensures RequestTx(PairRequests(c.tracers[i], tx).0) == Some(tx)
      {
        RequestTxOf(tx, payloads[i]);
      }
    }
  }

  /** A node reply with the trace under `result`. */
  function ReplyWith(trace: Json): Json {
    JObj([("jsonrpc", JStr("2.0")), ("id", JNum(1)), ("result", trace)])
  }

  /** The trace of a `ReplyWith` reads back under `result`. */
  lemma ReplyWithResult(trace: Json)
    ensures Member(ReplyWith(trace), "result") == Some(trace)
  {
    LookupAt(ReplyWith(trace).fields, 2);
  }

  /** A pair whose two nodes give the same reply, holding a `result`, is a match. */
  lemma SameReplyMatches(p: Pair, tx: string, node: (RequestParams, string) -> Option<Json>,
                         diff: (Json, Json) -> Json, reply: Json)
    requires Reply(p.first, tx, node) == Some(reply) && Reply(p.second, tx, node) == Some(reply)
    requires !reply.JNull? && Member(reply, "result").Some?
    ensures RunPair(p, tx, node, diff) == Decided(Match)
  {
  }

  /** Two nodes that return the same trace for every request: every pair reports a match. */
  lemma IdenticalNodesMatch(c: TraceComparator, tx: string, node: (RequestParams, string) -> Option<Json>,
                            diff: (Json, Json) -> Json, trace: Json)
    requires forall p: RequestParams, req: string :: node(p, req) == Some(ReplyWith(trace))
    ensures forall o :: o in OnTransaction(c, tx, node, diff) ==> o == Decided(Match)
  {
    ReplyWithResult(trace);
    forall i | 0 <= i < |c.tracers|
      ensures OnTransaction(c, tx, node, diff)[i] == Decided(Match)
    {
      var p := c.tracers[i];
      assert Reply(p.first, tx, node) == Some(ReplyWith(trace));
      assert Reply(p.second, tx, node) == Some(ReplyWith(trace));
      SameReplyMatches(p, tx, node, diff, ReplyWith(trace));
    }
  }

  /**
   A node that answers with an error envelope and no `result` makes every
   pair an error, whatever the other node returns, and writes no report.
   */
  lemma ErrorEnvelopeIsError(c: TraceComparator, tx: string, node: (RequestParams, string) -> Option<Json>,
                             diff: (Json, Json) -> Json, i: nat, message: Json)
    requires i < |c.tracers|
    requires node(c.tracers[i].second.reqParams, TraceRequest(tx, c.tracers[i].second.tracerCode))
          == Some(JObj([("jsonrpc", JStr("2.0")), ("id", JNum(1)), ("error", message)]))
    requires TraceTransaction(c.tracers[i].first, tx, node).Delivered?
    ensures OnTransaction(c, tx, node, diff)[i] == Decided(Error)
  {
  }
}
