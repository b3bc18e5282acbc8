/**
 The block-notification feed (jsTracerTest.js, `TransactionListener`): one
 callback slot, and a message handler that passes on the first transaction of
 each new block.

 Callbacks are abstract values of type `C`; invoking one is recorded, not run.
 */
module Listener {
  import opened Wrappers
  import opened Json

  const SubscriptionMethod: string := "eth_subscription"

  /** The callback slot: the no-op callback the constructor installs, or a registered one. */
  datatype Callback<C> = NoOp | Registered(callback: C)

  datatype TransactionListener<C> = TransactionListener(transactionCallback: Callback<C>)

  /** What handling one message does: nothing, one callback invocation, or a thrown error. */
  datatype Reaction<C> =
    | Ignored
    | Invoked(target: Callback<C>, tx: Option<Json>)
    | Thrown(error: string)

  function NewListener<C>(): TransactionListener<C> {
    TransactionListener(NoOp)
  }

  function SetTransactionCallback<C>(l: TransactionListener<C>, c: C): TransactionListener<C> {
    TransactionListener(Registered(c))
  }

  /** Registering each callback of `cs` in turn. */
  function RegisterAll<C>(l: TransactionListener<C>, cs: seq<C>): TransactionListener<C>
    decreases |cs|
  {
    if |cs| == 0 then l else RegisterAll(SetTransactionCallback(l, cs[0]), cs[1..])
  }

  /** The slot holds the no-op until a registration, and then only the latest callback. */
  lemma {:induction false} LastRegistrationWins<C>(l: TransactionListener<C>, cs: seq<C>)
    ensures |cs| == 0 ==> RegisterAll(l, cs) == l
    ensures |cs| > 0 ==> RegisterAll(l, cs).transactionCallback == Registered(cs[|cs| - 1])
    decreases |cs|
  {
    if |cs| > 1 {
      LastRegistrationWins(SetTransactionCallback(l, cs[0]), cs[1..]);
      assert cs[1..][|cs[1..]| - 1] == cs[|cs| - 1];
    }
  }

  /** A fresh listener that saw no registration invokes only the no-op. */
  lemma FreshListenerIsNoOp<C>(cs: seq<C>)
    ensures (RegisterAll(NewListener<C>(), cs).transactionCallback == NoOp) <==> |cs| == 0
  {
    LastRegistrationWins(NewListener<C>(), cs);
  }

  /** A decoded message whose `method` field is the subscription method name. */
  predicate IsNotification(res: Json) {
    res.JObj? && Lookup(res.fields, "method") == Some(JStr(SubscriptionMethod))
  }

  /**
   The transaction list of a well-shaped new-block notification
   (`{method, params: {result: {transactions: [...]}}}`), read field by field.
   */
  function NotificationTransactions(res: Json): Option<seq<Json>> {
    if !IsNotification(res) then None
    else match Lookup(res.fields, "params")
      case Some(JObj(params)) =>
        (match Lookup(params, "result")
         case Some(JObj(result)) =>
           (match Lookup(result, "transactions")
            case Some(JArr(txs)) => Some(txs)
            case _ => None)
         case _ => None)
      case _ => None
  }

  /**
   `#onMessageReceived` on the decoded message: `"method" in res` throws on a
   primitive, an array has no `method`, and the property chain down to
   `transactions.length` throws where it meets null or undefined.
   */
  function OnMessage<C>(l: TransactionListener<C>, res: Json): (r: Reaction<C>)
    ensures r.Invoked? ==> r.target == l.transactionCallback && IsNotification(res)
    ensures (res.JObj? || res.JArr?) && !IsNotification(res) ==> r.Ignored?
    ensures !res.JObj? && !res.JArr? ==> r.Thrown?
    ensures res.JObj? && IsNotification(res) ==> r == HandleNotification(l, res.fields)
    ensures NotificationTransactions(res).Some? ==>
      var txs := NotificationTransactions(res).value;
      && (r.Invoked? <==> |txs| > 0)
      && (|txs| == 0 ==> r.Ignored?)
      && (r.Invoked? ==> r.tx == Some(txs[0]))
  {
    match res
    case JObj(fields) =>
      if Lookup(fields, "method") != Some(JStr(SubscriptionMethod)) then Ignored
      else WellShapedNotification(l, fields); HandleNotification(l, fields)
    case JArr(_) => Ignored
    case _ => Thrown("TypeError: cannot use 'in' operator to search for 'method'")
  }

  /** `res["params"]["result"]["transactions"]`, throwing where it meets null or undefined. */
  function TransactionsField(fields: seq<(string, Json)>): (r: Result<Option<Json>>)
    ensures r.Failure? <==>
      Nullish(Lookup(fields, "params")) || Nullish(Member(Lookup(fields, "params").value, "result"))
  {
    match Access(Lookup(fields, "params"), "result")
    case Failure(e) => Failure(e)
    case Success(result) => Access(result, "transactions")
  }

  /** A `length` that compares greater than 0 (only numbers are modelled). */
  predicate PositiveLength(len: Option<Json>) {
    len.Some? && len.value.JNum? && len.value.n > 0
  }

  /**
   The body of the notification branch: test `transactions.length > 0`, then
   pass on `transactions[0]`. It throws where the chain down to `length`
   meets null or undefined, and otherwise calls back iff the length is positive.
   */
  function HandleNotification<C>(l: TransactionListener<C>, fields: seq<(string, Json)>): (r: Reaction<C>)
    ensures TransactionsField(fields).Failure? ==> r.Thrown?
    ensures TransactionsField(fields).Success? ==>
      var txs := TransactionsField(fields).value;
      && (r.Thrown? <==> Nullish(txs))
      && (r.Invoked? <==> !Nullish(txs) && PositiveLength(Member(txs.value, "length")))
      && (r.Invoked? ==> r.target == l.transactionCallback && r.tx == Member(txs.value, "0"))
  {
    match TransactionsField(fields)
    case Failure(e) => Thrown(e)
    case Success(txs) =>
      match Access(txs, "length")
      case Failure(e) => Thrown(e)
      case Success(len) =>
        if PositiveLength(len) then
          Invoked(l.transactionCallback, Member(txs.value, "0"))
        else Ignored
  }

  /** On a well-shaped notification the handler calls back iff the list is non-empty, with its first element. */
  lemma WellShapedNotification<C>(l: TransactionListener<C>, fields: seq<(string, Json)>)
    ensures NotificationTransactions(JObj(fields)).Some? ==>
      var txs := NotificationTransactions(JObj(fields)).value;
      var r := HandleNotification(l, fields);
      && (r.Invoked? <==> |txs| > 0)
      && (|txs| == 0 ==> r.Ignored?)
      && (r.Invoked? ==> r.tx == Some(txs[0]))
  {
    if NotificationTransactions(JObj(fields)).Some? {
      var txs := NotificationTransactions(JObj(fields)).value;
      assert TransactionsField(fields) == Success(Some(JArr(txs)));
      if |txs| > 0 {
        MemberArrayIndex(txs, 0);
      }
    }
  }

  /** The callback invocations a sequence of messages causes; a thrown error ends the feed. */
  function Deliver<C>(l: TransactionListener<C>, msgs: seq<Json>): (r: seq<(Callback<C>, Option<Json>)>)
    ensures |r| <= |msgs|
    ensures forall i :: 0 <= i < |r| ==> r[i].0 == l.transactionCallback
    decreases |msgs|
  {
    if |msgs| == 0 then []
    else match OnMessage(l, msgs[0])
      case Ignored => Deliver(l, msgs[1..])
      case Invoked(target, tx) => [(target, tx)] + Deliver(l, msgs[1..])
      case Thrown(_) => []
  }

  /** A message the feed handles without throwing: a well-shaped notification or a non-notification object. */
  predicate WellShaped(res: Json) {
    NotificationTransactions(res).Some? || (res.JObj? && !IsNotification(res))
  }

  /** The first transaction of every notification whose block has any, in arrival order. */
  function FirstTransactions(msgs: seq<Json>): seq<Json>
    requires forall i :: 0 <= i < |msgs| ==> WellShaped(msgs[i])
  {
    if |msgs| == 0 then []
    else
      assert WellShaped(msgs[0]);
      var rest := FirstTransactions(msgs[1..]);
      match NotificationTransactions(msgs[0])
      case Some(txs) => if |txs| > 0 then [txs[0]] + rest else rest
      case None => rest
  }

  /** Each transaction handed to callback `c`, in order. */
  function CallsOf<C>(c: Callback<C>, txs: seq<Json>): seq<(Callback<C>, Option<Json>)> {
    if |txs| == 0 then [] else [(c, Some(txs[0]))] + CallsOf(c, txs[1..])
  }

  /**
   Over well-shaped messages the feed samples exactly the first transaction of
   each non-empty block, in order, and hands each to the registered callback.
   */
  lemma {:induction false} DeliverSamplesFirst<C>(l: TransactionListener<C>, msgs: seq<Json>)
    requires forall i :: 0 <= i < |msgs| ==> WellShaped(msgs[i])
    ensures Deliver(l, msgs) == CallsOf(l.transactionCallback, FirstTransactions(msgs))
    decreases |msgs|
  {
    if |msgs| > 0 {
      var m := msgs[0];
      assert WellShaped(m);
      assert forall i :: 0 <= i < |msgs[1..]| ==> WellShaped(msgs[1..][i]) by {
        forall i | 0 <= i < |msgs[1..]|
          ensures WellShaped(msgs[1..][i])
        {
          assert msgs[1..][i] == msgs[i + 1];
        }
      }
      DeliverSamplesFirst(l, msgs[1..]);
      var rest := FirstTransactions(msgs[1..]);
      WellShapedReaction(l, m);
      match NotificationTransactions(m)
      case Some(txs) =>
        if |txs| > 0 {
          assert FirstTransactions(msgs) == [txs[0]] + rest;
          assert ([txs[0]] + rest)[1..] == rest;
        }
      case None =>
    }
  }

  /** A well-shaped message never throws: it calls back with the first transaction of a non-empty block, or is ignored. */
  lemma WellShapedReaction<C>(l: TransactionListener<C>, m: Json)
    requires WellShaped(m)
    ensures OnMessage(l, m) == match NotificationTransactions(m)
      case Some(txs) => if |txs| > 0 then Invoked(l.transactionCallback, Some(txs[0])) else Ignored
      case None => Ignored
  {
    match NotificationTransactions(m)
    case Some(txs) =>
      if |txs| > 0 {
        assert OnMessage(l, m) == Invoked(l.transactionCallback, Some(txs[0]));
      } else {
        assert OnMessage(l, m) == Ignored;
      }
    case None =>
      assert OnMessage(l, m) == Ignored;
  }
}
