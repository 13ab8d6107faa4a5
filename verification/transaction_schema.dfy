/**
 * The Transaction document that the item routes write: the two-value `type`
 * enum, the required `points`, and `createdAt` stamped from the clock.
 */
module TransactionSchema {
  import opened Common

  /** The `type` enum of this schema: only 'swap_earned' and 'redeem_spent'. */
  datatype TxType = SwapEarned | RedeemSpent

  function TxTypeName(t: TxType): string {
    match t
    case SwapEarned => "swap_earned"
    case RedeemSpent => "redeem_spent"
  }

  function ParseTxType(name: string): (r: Option<TxType>)
    ensures r.Some? <==> name == "swap_earned" || name == "redeem_spent"
    ensures r.Some? ==> TxTypeName(r.value) == name
  {
    if name == "swap_earned" then Some(SwapEarned)
    else if name == "redeem_spent" then Some(RedeemSpent)
    else None
  }

  /** A stored log entry; `kind` is the document's `type` path. */
  datatype Transaction = Transaction(
    user: Option<UserId>,
    item: Option<ItemId>,
    kind: TxType,
    points: int,
    createdAt: int)

  /** What `Transaction.create` is given. */
  datatype TxDraft = TxDraft(
    user: Option<UserId>,
    item: Option<ItemId>,
    kind: Option<string>,
    points: Option<int>,
    createdAt: Option<int>)

  /** Validates a draft; `now` is the clock reading that the `createdAt` default takes. */
  function CreateTransactionDoc(d: TxDraft, now: int): (r: Result<Transaction, SchemaError>)
    ensures r.Ok? <==> d.kind.Some? && ParseTxType(d.kind.value).Some? && d.points.Some?
    ensures r.Ok? ==>
      TxTypeName(r.value.kind) == d.kind.value && r.value.points == d.points.value &&
      r.value.user == d.user && r.value.item == d.item
    ensures r.Ok? ==> r.value.createdAt == (if d.createdAt.Some? then d.createdAt.value else now)
  {
    if d.kind.None? then Err(Required("type"))
    else if ParseTxType(d.kind.value).None? then Err(NotInEnum("type"))
    else if d.points.None? then Err(Required("points"))
    else Ok(Transaction(d.user, d.item, ParseTxType(d.kind.value).value, d.points.value,
                        if d.createdAt.Some? then d.createdAt.value else now))
  }

  /** 'redeem_earned' is outside this schema's enum, so such an entry is never written. */
  lemma RedeemEarnedRefused(user: Option<UserId>, item: Option<ItemId>, points: Option<int>, createdAt: Option<int>, now: int)
    ensures CreateTransactionDoc(TxDraft(user, item, Some("redeem_earned"), points, createdAt), now) == Err(NotInEnum("type"))
  {
  }

  /** An append to the log that validation can refuse; earlier entries are never touched. */
  function Append(log: seq<Transaction>, d: TxDraft, now: int): (r: Result<seq<Transaction>, SchemaError>)
    ensures r.Err? <==> CreateTransactionDoc(d, now).Err?
    ensures r.Ok? ==> |r.value| == |log| + 1 && r.value[..|log|] == log
    ensures r.Ok? ==> r.value[|log|] == CreateTransactionDoc(d, now).value
  {
    var doc := CreateTransactionDoc(d, now);
    if doc.Err? then Err(doc.error) else Ok(log + [doc.value])
  }

  /**
   * Awaits `Transaction.create` for each draft in turn; the first refusal is
   * thrown, so the drafts after it are never attempted.
   */
  function AppendAll(log: seq<Transaction>, ds: seq<TxDraft>, now: int): (r: (seq<Transaction>, Option<SchemaError>))
    ensures |log| <= |r.0| <= |log| + |ds| && r.0[..|log|] == log
    ensures r.1.None? <==> forall k :: 0 <= k < |ds| ==> CreateTransactionDoc(ds[k], now).Ok?
    ensures r.1.None? ==> |r.0| == |log| + |ds|
    ensures r.1.Some? ==> |r.0| - |log| < |ds| && CreateTransactionDoc(ds[|r.0| - |log|], now) == Err(r.1.value)
    ensures forall k :: |log| <= k < |r.0| ==> CreateTransactionDoc(ds[k - |log|], now) == Ok(r.0[k])
    decreases |ds|
  {
    if |ds| == 0 then (log, None)
    else
      var first := Append(log, ds[0], now);
      if first.Err? then (log, Some(first.error))
      else
        var rest := AppendAll(first.value, ds[1..], now);
        assert forall k :: 1 <= k < |ds| ==> ds[1..][k - 1] == ds[k];
        assert rest.1.Some? ==> ds[1..][|rest.0| - |first.value|] == ds[|rest.0| - |log|];
        rest
  }
}
