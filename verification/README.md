# jsTracerTest, modelled in Dafny

jsTracerTest is a differential tester for the JavaScript tracer interface of
two Ethereum clients. A WebSocket subscription announces each new block. For
the first transaction of the block, every tracer payload is run on both nodes
with `debug_traceTransaction`. The two returned traces are compared as JSON
texts. On a mismatch, a report file `./diffs/<hash>.diff` is written. Two
tracer payloads are modelled as well: `allTracer.js`, which exercises every
host API, and the minimal `contractTracer.js`.

The model is a set of pure functions over an immutable JSON datatype:

- `wrappers.dfy` defines `Option` and `Result`. JavaScript `undefined` is
  `None`; a thrown `TypeError` is a `Failure`.
- `json.dfy` defines JSON values with ordered object fields. It models the
  JavaScript reads the program makes: `v[key]`, throwing on null and
  undefined, `"length"`, array index keys, and the keys `for…in` visits.
  Equality of `JSON.stringify` texts is modelled as equality of values.
- `endpoint.dfy` models `String.prototype.split` and the `host:port` split
  made by the `Tracer` constructor. It also holds the finding below.
- `listener.dfy` models `TransactionListener`: the callback slot, and the
  reaction to one decoded message or to a feed of messages.
- `trace_client.dfy` models `Tracer`: its request parameters, the request
  body, and the response handling. The node is a function parameter from
  (request options, request body) to the decoded reply.
- `comparator.dfy` models `TraceComparator`: pairing, the report file, the
  three-way decision, and one transaction's run over all pairs. The
  structural diff library enters as a function parameter `diff`.
- `all_tracer.dfy` models the `allTracer.js` payload as a state machine over
  host-reported values. It covers the counters' invariant, run-level counts,
  and the fact that a returned trace determines what it was built from.
- `contract_tracer.dfy` models the `contractTracer.js` payload.
- `harness.dfy` composes the parts. It shows an allTracer trace in a report,
  and the two-trace example of a disagreement on one opcode.

Where the code and its description disagree, the model follows the code:

- A message that is not a well-formed notification is not always ignored. A
  primitive message, or a notification whose `params.result` chain meets
  null or undefined, throws in the message handler (`Listener.OnMessage`).
- A malformed or null node reply is not a per-pair error. `JSON.parse` and
  `res["error"]` throw inside the response callback, which has no handler
  (`TraceClient.HandleResponse`, `Comparator.RunPair`: the pair is `Aborted`).
- A url without a port is not given the default port 8545. The clients are
  built on the split as written (`TraceClient.NewTracer`); see Findings.

## Model

| member | source | states |
|---|---|---|
| Listener.FreshListenerIsNoOp | jsTracerTest.js:34-38 | a fresh listener's slot holds the do-nothing default exactly until a callback is registered |
| Listener.LastRegistrationWins | jsTracerTest.js:37-38 | after any sequence of registrations the slot holds the last one, or the default when there was none |
| Listener.OnMessage | jsTracerTest.js:46-53 | only a message whose `method` is "eth_subscription" can invoke the callback, and the target is always the registered callback; a non-notification object or array is ignored; a primitive throws; for a well-shaped notification the callback runs iff the transaction list is non-empty, and receives its first element |
| Listener.HandleNotification | jsTracerTest.js:50-53 | the notification branch throws when `params`, `params.result` or `transactions` is null or undefined; otherwise it calls back iff `transactions.length` is a positive number, always on the registered callback, passing `transactions[0]` |
| Listener.WellShapedNotification | jsTracerTest.js:50-53 | on a notification whose `params.result.transactions` is a list, the handler calls back exactly when the list is non-empty, passing its first element, and otherwise does nothing |
| Listener.Deliver | jsTracerTest.js:46-53 | a message feed causes at most one callback invocation per message, all on the registered callback |
| Listener.WellShapedReaction | jsTracerTest.js:46-53 | a well-shaped message never throws: a notification calls back with the first transaction of a non-empty block and is otherwise ignored, and a non-notification object is ignored |
| Listener.DeliverSamplesFirst | jsTracerTest.js:50-58 | over well-shaped messages, the callbacks are exactly the first transaction of each non-empty block, in arrival order; later transactions of a block are never passed on |
| Endpoint.Split | jsTracerTest.js:68 | `split` yields at least one field, and no field contains the separator |
| Endpoint.JoinSplit | jsTracerTest.js:68 | joining the fields of a split with the separator restores the string |
| Endpoint.SplitJoin | jsTracerTest.js:68 | splitting a join of separator-free fields gives those fields back |
| Endpoint.SplitNoSeparator | jsTracerTest.js:68 | a string without the separator splits into itself alone |
| Endpoint.SplitFirstField | jsTracerTest.js:68-70 | the first field is the longest separator-free prefix, and the separator follows it when the string is longer |
| Endpoint.SplitSecondField | jsTracerTest.js:68-71 | a string containing the separator splits into at least two fields; the second is the first field of the text after the first separator |
| Endpoint.ColonFields | jsTracerTest.js:68-71 | the url splits on ':' into two or more fields exactly when it contains a colon |
| Endpoint.ParseEndpointAsWritten | jsTracerTest.js:68-71 | the split as written: the host is the text before the first colon; the port is absent exactly when the url has no colon; with a colon it agrees with the corrected split |
| Endpoint.ColonlessUrlLosesDefaultPort | jsTracerTest.js:17 | "127.0.0.1" gets no port from the split as written, not DEFAULT_CLIENT_PORT |
| Endpoint.ParseEndpoint | jsTracerTest.js:68-71 | the corrected split always has a port; the host is the colon-free prefix of the url; the port is the text between the first and second colons, or "8545" when there is no colon |
| Endpoint.PortField | jsTracerTest.js:71 | with a colon in the url, the port is a prefix of the text after the host and its colon |
| TraceClient.NewTracer | jsTracerTest.js:64-78 | the client keeps its payload and name and posts to path "/" with POST and "application/json"; the host is the colon-free prefix of the url; the port is defined exactly when the url has a colon, and is then exactly the text between the first colon and the next colon or the end; a colonless url gets the whole url as host and an undefined port |
| TraceClient.TraceRequestNamesMethod | jsTracerTest.js:98 | the request body names `debug_traceTransaction` as its method, at a fixed position |
| TraceClient.TakeUntilQuote | jsTracerTest.js:98 | the text read up to the first double quote is a quote-free prefix, followed by a quote when shorter |
| TraceClient.TakeUntilQuoteConcat | jsTracerTest.js:98 | reading up to the first quote recovers a quote-free text followed by a quote |
| TraceClient.RequestTxOf | jsTracerTest.js:98 | a quote-free transaction id reads back from the request body, whatever the tracer code |
| TraceClient.RequestRoundTrip | jsTracerTest.js:98 | the body `traceTransaction` builds carries the transaction id and the tracer code verbatim: when neither contains a double quote, both read back unchanged |
| TraceClient.HandleResponse | jsTracerTest.js:89-104 | the handler throws exactly on an unparseable body or a null body; otherwise it passes on `res["result"]` (possibly undefined), and logs exactly when `res["error"]` is defined |
| TraceClient.TraceTransactionAsksAboutTx | jsTracerTest.js:97-106 | `traceTransaction` asks the node only for the trace of the given transaction under the client's tracer code at the client's endpoint: nodes that answer that request alike give the same response, which throws exactly on an unparseable or null answer and otherwise passes on its `result` |
| TraceClient.ResultIgnoresError | jsTracerTest.js:99-104 | an `error` field changes only the logging, never the result passed on |
| Comparator.NewComparator | jsTracerTest.js:111-116 | one pair per payload, in payload order; both members of pair i carry payload i and are built from their own node's url and name |
| Comparator.DiffFileNameOfHash | jsTracerTest.js:119 | the report for "0x"+h is "./diffs/"+h+".diff" |
| Comparator.DiffFileNameInjective | jsTracerTest.js:119 | two "0x" hashes share a report file only when they are equal |
| Comparator.StepLines | jsTracerTest.js:125-128 | for each key of `diff.step`, a first-side line then a second-side line with that key and each trace's `step[key]`; the section is cut short exactly when there is a key and a trace's `step` cannot be indexed |
| Comparator.OutputDiff | jsTracerTest.js:118-133 | the report file is named by the hash; the first line is the diff; the step header appears iff the diff has a `step` key; a finished report ends with both full traces; a step section lists two lines per key of `diff.step`, in for-in order; a cut-short report is explained by a non-object diff or an unindexable trace |
| Comparator.CompareTraces | jsTracerTest.js:135-148 | the outcome is an error iff a trace is undefined, a match iff both are present and equal, and a mismatch iff both are present and differ; only a mismatch writes a report, which opens with the diff of the two traces |
| Comparator.RunPair | jsTracerTest.js:150-162 | in terms of the two node replies: the pair stops iff a reply is unparseable or null; otherwise it is an error iff a reply has no `result`, a match iff both `result`s are present and equal, and a mismatch otherwise, whose report is named by the hash and opens with the diff of the two `result`s |
| Comparator.OnTransactionPairsIsolated | jsTracerTest.js:157-165 | for `onTransaction`: one outcome per pair, and a pair's outcome value depends only on that pair: the same pair in two comparators gets the same outcome. The report files are not isolated: see the next row |
| Comparator.OneReportFilePerTransaction | jsTracerTest.js:119 | every mismatch of one transaction's run, whichever pair it comes from, names the same report file `./diffs/<hash>.diff` |
| Comparator.OnTransactionAsksOnlyAboutTx | jsTracerTest.js:157-165 | for `onTransaction` on a quote-free transaction id, every request of the run carries that id: nodes that answer alike to requests about it give the same outcomes |
| Comparator.IdenticalNodesMatch | jsTracerTest.js:135-148 | when both nodes return the same trace, every pair reports a match |
| Comparator.ErrorEnvelopeIsError | jsTracerTest.js:99-138 | a node replying with only an error envelope makes that pair an error, and writes no report |
| Comparator.PairSendsSameRequest | jsTracerTest.js:114 | both members of every pair built from the payloads post the same request, the one for the pair's payload; a quote-free transaction id reads back from it |
| AllTracer.HasCostIffOpRecord | tracers/allTracer.js:65-99 | an entry has a `cost` field exactly when it is a full instruction entry, not an error entry |
| AllTracer.Setup | tracers/allTracer.js:4-12 | setup leaves the counters' invariant holding and a trace with the config and empty `step` and `callStack` lists |
| AllTracer.StackPeeks | tracers/allTracer.js:38-42 | the stack is only peeked when non-empty; then four peeks, every position in range |
| AllTracer.StackViewOf | tracers/allTracer.js:38-77 | on a non-empty stack the view holds `peek(0)` in its three forms and `peek(length-1)`; on an empty stack all four are 0; the length is the stack length |
| AllTracer.MemoryReadsFor | tracers/allTracer.js:44-47 | memory is sliced only when it grew, ending at the current length and starting at the larger of the previous length and ten bytes before the end; a word is read only when it grew to at least 32 bytes, ending at the current length |
| AllTracer.MemoryViewOf | tracers/allTracer.js:44-82 | the new slice is non-empty exactly when memory grew, and is the tail of memory of length min(10, grown bytes); the new item is the word ending at the current length when memory grew to at least 32 bytes, and 0 otherwise; the length is the memory length |
| AllTracer.OpRecordOf | tracers/allTracer.js:65-88 | an error-free log gives a full entry whose op, pc, gas, cost, depth and refund are the log's, with the stack and memory views of the log against the previous memory length |
| AllTracer.Step | tracers/allTracer.js:34-96 | a step appends exactly one entry and changes no earlier one; an error log adds only an error entry; a clean log adds the full entry of the log, moves the counters, and takes the contract snapshot only on the first clean step; the entry's memory slice is the grown tail, of length min(10, grown bytes) |
| AllTracer.OpEntryReadsBack | tracers/allTracer.js:65-88 | reading the serialised entry of a clean log back gives the log's pc, gas, cost, depth, refund and opcode forms, and the stack and memory views of the log |
| AllTracer.OpFieldReadsBack | tracers/allTracer.js:65-88 | each of the eight fields of a full entry reads back as written |
| AllTracer.OpEntryStackReadsBack | tracers/allTracer.js:38-77 | the `stack` of a clean entry reads back as `peek(0)` under `top`, `topValueOf` and `topToString` in its three forms, `peek(length-1)` under `bottom`, and the stack length; all four peeks read 0 on an empty stack |
| AllTracer.OpEntryMemoryReadsBack | tracers/allTracer.js:44-82 | the `memory` of a clean entry reads back as the grown tail of at most ten bytes under `newSlice`, the word ending at the current length under `newMemoryItem` when memory grew to at least 32 bytes (else 0), and the memory length |
| AllTracer.StackReadsBack | tracers/allTracer.js:71-77 | each of the five fields of a stack view reads back as written |
| AllTracer.MemoryReadsBack | tracers/allTracer.js:78-82 | each of the three fields of a memory view reads back as written |
| AllTracer.PostStep | tracers/allTracer.js:97-103 | postStep throws iff there is no entry yet; otherwise it changes only the last entry, patching `cost` and `refund` of a full entry and leaving an error entry alone |
| AllTracer.Enter | tracers/allTracer.js:13-24 | enter appends exactly the enter entry of the frame and changes nothing else |
| AllTracer.Exit | tracers/allTracer.js:25-33 | exit appends exactly the exit entry of the frame result and changes nothing else |
| AllTracer.CallEntryReadsBack | tracers/allTracer.js:13-33 | a serialised enter entry has no `exit`, and reads back key by key under `enter` as the frame's type, from, to, input, gas and value; an exit entry has no `enter`, and reads back under `exit` as the result's gasUsed, output and error |
| AllTracer.ResultTrace | tracers/allTracer.js:104-130 | result returns an object whose `step` and `callStack` are the accumulated entries; its keys are config, step, callStack, contract when taken, and result last |
| AllTracer.ResultTraceConfig | tracers/allTracer.js:104-130 | the returned trace reads back the setup config under `config` |
| AllTracer.ResultTraceContract | tracers/allTracer.js:104-130 | the returned trace reads back the first clean step's snapshot under `contract`, and has no `contract` when none was taken |
| AllTracer.ResultTraceResult | tracers/allTracer.js:104-130 | the returned trace reads back the result data built from `ctx` and `db` under `result` |
| AllTracer.ResultInfoReadsBack | tracers/allTracer.js:105-128 | the `result` entry reads back, key by key, the eleven `ctx` values under `ctx` and the six `db` answers under `db` |
| AllTracer.StepToJsonInjective | tracers/allTracer.js:65-94 | distinct entries serialise differently |
| AllTracer.CallToJsonInjective | tracers/allTracer.js:14-32 | distinct call entries serialise differently |
| AllTracer.ResultInfoInjective | tracers/allTracer.js:105-128 | two `result` entries are equal only when their ctx and db data agree |
| AllTracer.ResultTraceInjective | tracers/allTracer.js:104-130 | two returned traces are equal only when config, entries, call entries, snapshot, ctx and db data all agree |
| AllTracer.OpRecordsAppend | tracers/allTracer.js:65-95 | appending an entry adds one to the full-entry count exactly for a full entry, and moves the latest stack and memory lengths only then |
| AllTracer.StepKeepsInv | tracers/allTracer.js:34-96 | step keeps the counters' invariant: `count` is the number of full entries, the snapshot exists once `count` > 0, and the previous lengths are the latest full entry's |
| AllTracer.PostStepKeepsInv | tracers/allTracer.js:97-103 | postStep keeps the counters' invariant |
| AllTracer.RunCounts | tracers/allTracer.js:4-133 | over any run from setup that does not throw: one entry per step or fault call, one call entry per enter or exit call, `count` is the number of clean step or fault calls, and the snapshot is the first clean call's |
| AllTracer.FaultsAsSteps | tracers/allTracer.js:131-133 | replacing every fault call with a step call keeps the run's length |
| AllTracer.FaultIsStep | tracers/allTracer.js:131-133 | a run with every fault replaced by a step ends in the same state |
| ContractTracer.Step | tracers/contractTracer.js:3-7 | step appends exactly one entry, changes no earlier one, and the entry records the contract input |
| ContractTracer.ResultRecordsInputs | tracers/contractTracer.js:1-13 | from the empty trace, `result` returns exactly one entry per step or fault call, in call order, each recording that call's input |
| Json.Lookup | jsTracerTest.js:48-50 | an object read finds a value exactly when the key is present |
| Json.LookupWithoutKey | jsTracerTest.js:99-104 | removing one key does not change the read of any other key |
| Json.IndexKey | jsTracerTest.js:125-126 | an array index key is a non-empty decimal numeral without leading zeros |
| Json.ParseIndexKey | jsTracerTest.js:125-126 | an index key reads back as its index |
| Json.Access | jsTracerTest.js:50-51 | a property read throws exactly on null or undefined, and reads the own field of an object |
| Json.MemberArrayIndex | jsTracerTest.js:126 | array element i is found under index key i |
| Harness.AllTracerReportComplete | jsTracerTest.js:123-131 | a report on two allTracer traces with an object diff always runs to the end |
| Harness.AllTracerReportLines | jsTracerTest.js:125-127 | for index key i in `diff.step`, the report lists instruction i of each allTracer trace |
| Harness.ReportLinesAt | jsTracerTest.js:125-127 | the two lines of the j-th key of `diff.step` hold each trace's record under that key |
| Harness.OpcodeMismatchReport | jsTracerTest.js:118-148 | two one-instruction traces that differ only in the opcode give a mismatch, whose report lists index 0 with both full entries and then both traces |

## Left out

- The WebSocket connection, the `open` handler's subscription request, and the `error` handler: I/O. A message enters the model already decoded. A message `JSON.parse` rejects is not modelled.
- The HTTP transport (`#post`, chunk collection, transport errors): I/O. The node is a function parameter, and its `None` stands for a body `JSON.parse` rejects.
- File-stream writes: a report is the list of its lines, with the label and value each line prints. The text formatting of each line is not modelled.
- `setTimeout` and `Promise.all`: timing is not modelled. Pairs are run one after another, and a pair whose handler throws never decides.
- Comparator.OnTransaction: a throw in a pair's response callback is modelled as that pair being `Aborted`, and a throw while writing a report as a report marked `aborted`; the other pairs still decide. In the source the throw is uncaught inside an event callback, which ends the process: which other pairs, report lines and later blocks are still processed depends on response timing, which is not modelled.
- Comparator.CompareTraces: `JSON.stringify` equality is modelled as equality of values. This is exact for the objects JavaScript can build, but a `JObj` with a repeated key, or with an integer-like key after another key, has no JavaScript counterpart and may compare unequal to a value that prints the same text. Node replies and diff results are not constrained to exclude such values.
- The structural diff (`deep-object-diff`): an external library, entered as the parameter `diff`.
- Loading and minifying the payload, and `slice(6, -1)`: minification is an external tool. Payloads enter the comparator as plain strings.
- The node configuration constants and the top-level wiring (which nodes and payloads are used): these are configuration, not behaviour.
- The host APIs the payloads call (`log`, `db`, `ctx`, `callFrame`, `frameResult`, `toWord`, `toHex`, `toAddress`): their values are abstract. The fixed `hash` and `randomAddress` are only arguments to `db` queries, so they are folded into the reported values.
- Payload calls before `setup` or after `result`: the host does not make them.
- Listener.OnMessage: compares `method` strictly with the subscription name, while the source uses loose `==`. A `method` value that coerces to the string is treated as a different value.
- Listener.HandleNotification: treats `transactions.length > 0` as true only for a numeric length. Other values that JavaScript would coerce to a positive number are treated as false.
- Json.Member: sees own fields only. Inherited properties (`toString` and others) read as undefined.
- Json.ForInKeys: visits object keys in their field order, array and string indices in order, and nothing on other primitives. It does not reorder integer-like keys first, as JavaScript does, so the fields must already be in own-property order.
- Numbers are mathematical integers, not IEEE doubles. A value JSON.stringify prints as undefined (inside the diff output) is not modelled.
- Comparator.OnTransactionPairsIsolated: states that outcome values are isolated per pair, not report files. Every pair's report for one transaction is opened at the same path with the default 'w' flag. So with more than one payload, a later report truncates or overwrites an earlier one. The model keeps one `DiffFile` per mismatch and does not model the file system's contents; `Comparator.OneReportFilePerTransaction` states that the paths coincide.
- Comparator.OutputDiff: `tx` is a string. A non-string `tx`, on which `slice` would throw, is not modelled.
- AllTracer.Exit: every host value is a defined `Json` value, so `frameResult.getError()` (tracers/allTracer.js:30), `ctx.output` and `ctx.error` (tracers/allTracer.js:117-118) and `log.getCost()` (tracers/allTracer.js:85, 100) always produce their key. When the host returns `undefined`, as it does for a call without an error, `JSON.stringify` drops the key from the reply; the model keeps it. The same gap applies to AllTracer.ResultTrace and AllTracer.OpRecordOf, and AllTracer.HasCostIffOpRecord does not cover an entry whose cost is undefined.
- `log.memory.slice` returns a list of host values. Its exact JavaScript type is left abstract.

## Findings

| source | as written | input that shows it | evidently intended | confidence | as-written member | corrected member |
|---|---|---|---|---|---|---|
| jsTracerTest.js:71 | the port is `url.length > 0 ? url[1] : DEFAULT_CLIENT_PORT`; `url` is the result of `split(":")`, which always has at least one element, so the guard is always true and the default port is never used | the url "127.0.0.1" gives the port `undefined` | use DEFAULT_CLIENT_PORT when the url has no port, i.e. when the split has fewer than two fields | not executed | Endpoint.ParseEndpointAsWritten, Endpoint.ColonlessUrlLosesDefaultPort | Endpoint.ParseEndpoint |
