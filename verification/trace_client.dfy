/**
 One node's tracing client (jsTracerTest.js, `Tracer`): its connection
 parameters, the `debug_traceTransaction` request it posts, and what it does
 with the decoded response.
 */
module TraceClient {
  import opened Wrappers
  import opened Json
  import Endpoint

  /** The options handed to `http.request`. */
  datatype RequestParams = RequestParams(
    host: string,
    port: Option<string>,
    path: string,
    httpMethod: string,
    contentType: string)

  datatype Tracer = Tracer(name: string, tracerCode: string, reqParams: RequestParams)

  /**
   The `Tracer` constructor: the url is split into host and port as the code
   is written (a url without ':' leaves the port undefined), and the request
   goes to path "/" as a JSON POST.
   */
  function NewTracer(url: string, tracerCode: string, name: string): (t: Tracer)
    ensures t.tracerCode == tracerCode && t.name == name
    ensures t.reqParams.path == "/" && t.reqParams.httpMethod == "POST"
    ensures t.reqParams.contentType == "application/json"
    ensures ':' !in t.reqParams.host && t.reqParams.host <= url
    ensures |t.reqParams.host| < |url| ==> url[|t.reqParams.host|] == ':'
    ensures t.reqParams.port.Some? <==> ':' in url
    ensures ':' in url ==> t.reqParams.port == Some(Endpoint.Split(url[|t.reqParams.host| + 1..], ':')[0])
    ensures ':' in url ==>
      var after := url[|t.reqParams.host| + 1..];
      && t.reqParams.port.value <= after
      && ':' !in t.reqParams.port.value
      && (|t.reqParams.port.value| < |after| ==> after[|t.reqParams.port.value|] == ':')
    ensures ':' !in url ==> t.reqParams.host == url && t.reqParams.port == None
  {
    var hp := Endpoint.ParseEndpointAsWritten(url);
    Endpoint.PortField(url);
    Tracer(name, tracerCode, RequestParams(hp.host, hp.port, "/", "POST", "application/json"))
  }

  const MethodName: string := "debug_traceTransaction"
  const RequestLead: string := "{\"jsonrpc\": \"2.0\", \"id\": 1, \"method\": \""
  const RequestPrefix: string := RequestLead + MethodName + "\", \"params\": [\""
  const RequestMiddle: string := "\", {\"tracer\": \""
  const RequestSuffix: string := "\"}]}"

  /** The request body `traceTransaction` posts: the text is pasted together, not encoded. */
  function TraceRequest(tx: string, tracerCode: string): string {
    RequestPrefix + tx + RequestMiddle + tracerCode + RequestSuffix
  }

  /** The request names the tracing method at a fixed place. */
  lemma TraceRequestNamesMethod(tx: string, tracerCode: string)
    ensures TraceRequest(tx, tracerCode)[|RequestLead|..|RequestLead| + |MethodName|] == MethodName
  {
    var r := TraceRequest(tx, tracerCode);
    var n := |RequestLead|;
    assert r[..|RequestPrefix|] == RequestPrefix;
    assert r[n..n + |MethodName|] == RequestPrefix[n..n + |MethodName|];
  }

  /** The text of `s` up to its first double quote. */
  function TakeUntilQuote(s: string): (r: string)
    ensures r <= s && '"' !in r
    ensures |r| < |s| ==> s[|r|] == '"'
  {
    if |s| == 0 || s[0] == '"' then [] else [s[0]] + TakeUntilQuote(s[1..])
  }

  lemma {:induction false} TakeUntilQuoteConcat(a: string, b: string)
    requires '"' !in a
    requires |b| > 0 && b[0] == '"'
    ensures TakeUntilQuote(a + b) == a
  {
    if |a| > 0 {
      assert (a + b)[1..] == a[1..] + b;
      assert '"' !in a[1..] by {
        assert forall c :: c in a[1..] ==> c in a;
      }
      TakeUntilQuoteConcat(a[1..], b);
      assert a[0] != '"' by {
        assert a[0] in a;
      }
    } else {
      assert a + b == b;
    }
  }

  /** The transaction id a request body carries, read back as a node reads its first parameter. */
  function RequestTx(req: string): Option<string> {
    if RequestPrefix <= req then Some(TakeUntilQuote(req[|RequestPrefix|..])) else None
  }

  /** The tracer code a request body carries. */
  function RequestTracerCode(req: string): Option<string> {
    match RequestTx(req)
    case None => None
    case Some(tx) =>
      var rest := req[|RequestPrefix| + |tx|..];
      if RequestMiddle <= rest then Some(TakeUntilQuote(rest[|RequestMiddle|..])) else None
  }

  /** A quote-free transaction id reads back from the request, whatever the tracer code. */
  lemma RequestTxOf(tx: string, tracerCode: string)
    requires '"' !in tx
    ensures RequestTx(TraceRequest(tx, tracerCode)) == Some(tx)
  {
    var req := TraceRequest(tx, tracerCode);
    assert req[..|RequestPrefix|] == RequestPrefix;
    assert req[|RequestPrefix|..] == tx + (RequestMiddle + tracerCode + RequestSuffix);
    TakeUntilQuoteConcat(tx, RequestMiddle + tracerCode + RequestSuffix);
  }

  /**
   The request carries the transaction id and the tracer code verbatim: when
   neither contains a double quote, both read back unchanged.
   */
  lemma RequestRoundTrip(tx: string, tracerCode: string)
    requires '"' !in tx && '"' !in tracerCode
    ensures RequestTx(TraceRequest(tx, tracerCode)) == Some(tx)
    ensures RequestTracerCode(TraceRequest(tx, tracerCode)) == Some(tracerCode)
  {
    var req := TraceRequest(tx, tracerCode);
    RequestTxOf(tx, tracerCode);
    var rest := req[|RequestPrefix| + |tx|..];
    assert rest == RequestMiddle + tracerCode + RequestSuffix;
    assert rest[..|RequestMiddle|] == RequestMiddle;
    assert rest[|RequestMiddle|..] == tracerCode + RequestSuffix;
    TakeUntilQuoteConcat(tracerCode, RequestSuffix);
  }

  /** What the response handler does: passes on `res["result"]`, or throws. */
  datatype Response =
    | Delivered(result: Option<Json>, errorLogged: bool)
    | Thrown(error: string)

  /**
   The response handler: the body is decoded (`None` is a body `JSON.parse`
   rejects), an `error` field is only logged, and `result` is passed on either way.
   */
  function HandleResponse(body: Option<Json>): (r: Response)
    ensures r.Thrown? <==> body.None? || body.value.JNull?
    ensures r.Delivered? ==> r.result == Member(body.value, "result")
    ensures r.Delivered? ==> (r.errorLogged <==> Member(body.value, "error").Some?)
  {
    if body.None? then Thrown("SyntaxError: response is not JSON")
    else match Access(body, "error")
      case Failure(e) => Thrown(e)
      case Success(err) => Delivered(Member(body.value, "result"), err.Some?)
  }

  /** An `error` field changes only whether the response is logged, never the result passed on. */
  lemma ResultIgnoresError(fields: seq<(string, Json)>)
    ensures HandleResponse(Some(JObj(fields))).result
         == HandleResponse(Some(JObj(WithoutKey(fields, "error")))).result
    ensures !HandleResponse(Some(JObj(WithoutKey(fields, "error")))).errorLogged
  {
    LookupWithoutKey(fields, "error", "result");
  }

  /** The decoded reply the node gives to this client's request for `tx`. */
  function Reply(t: Tracer, tx: string, node: (RequestParams, string) -> Option<Json>): Option<Json> {
    node(t.reqParams, TraceRequest(tx, t.tracerCode))
  }

  /** `traceTransaction`: post the request to the node and handle its decoded reply. */
  function TraceTransaction(t: Tracer, tx: string, node: (RequestParams, string) -> Option<Json>): Response {
    HandleResponse(Reply(t, tx, node))
  }

  /**
   `traceTransaction` asks the node one thing: the trace of `tx` under this
   client's tracer code, at this client's endpoint. Two nodes that answer
   that request alike give the same response, which throws exactly when the
   answer is unparseable or null and otherwise passes on its `result`.
   */
  lemma TraceTransactionAsksAboutTx(t: Tracer, tx: string, node1: (RequestParams, string) -> Option<Json>,
                                    node2: (RequestParams, string) -> Option<Json>)
    requires '"' !in tx && '"' !in t.tracerCode
    requires forall req :: RequestTx(req) == Some(tx) && RequestTracerCode(req) == Some(t.tracerCode) ==>
      node1(t.reqParams, req) == node2(t.reqParams, req)
    ensures TraceTransaction(t, tx, node1) == TraceTransaction(t, tx, node2)
    ensures TraceTransaction(t, tx, node1).Thrown? <==> Nullish(Reply(t, tx, node1))
    ensures TraceTransaction(t, tx, node1).Delivered? ==>
      TraceTransaction(t, tx, node1).result == Member(Reply(t, tx, node1).value, "result")
  {
    RequestRoundTrip(tx, t.tracerCode);
  }
}
