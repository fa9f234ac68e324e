/**
  The sender/recipient/amount transaction of blockchain/transaction.py: the
  record the proof-of-work chain manager pools and packs into blocks. It is a
  dict subclass whose dict view is fixed at construction.
 */
module Transfer {
  import opened Externals

  /** The constructor stores its three arguments as they are: no amount is refused. */
  datatype Transaction = Transaction(sender: string, recipient: string, amount: int)

  const TransactionKeys: set<string> := {"sender", "recipient", "amount"}

  /** The dict view `dict(sender=…, recipient=…, amount=…)` that JSON encoding and hashing see. */
  function ToJson(t: Transaction): (j: Json)
    ensures j.JObject? && j.fields.Keys == TransactionKeys
    ensures j.fields["sender"] == JStr(t.sender)
    ensures j.fields["recipient"] == JStr(t.recipient)
    ensures j.fields["amount"] == JInt(t.amount)
  {
    JObject(map["sender" := JStr(t.sender), "recipient" := JStr(t.recipient), "amount" := JInt(t.amount)])
  }

  /** The dict view loses nothing: two transactions with the same view are the same transaction. */
  lemma ViewIsFaithful(t1: Transaction, t2: Transaction)
    requires ToJson(t1) == ToJson(t2)
    ensures t1 == t2
  {
    assert ToJson(t1).fields["sender"] == ToJson(t2).fields["sender"];
    assert ToJson(t1).fields["recipient"] == ToJson(t2).fields["recipient"];
    assert ToJson(t1).fields["amount"] == ToJson(t2).fields["amount"];
  }
}

/**
  The UTXO ledger records wallet/wallet.py and blockchain/block.py import:
  transaction inputs and outputs, unspent outputs and the typed transaction.
  The snapshot of blockchain/transaction.py that defines them is not part of
  this model; the records carry exactly the fields the core reads.
 */
module Ledger {
  import opened Wrappers
  import opened Externals

  datatype TransactionType = Coinbase | Stake | Validator | Transfer

  /** A reference to output `transactionOutIndex` of transaction `transactionOutId`, with its signature. */
  datatype TransactionIn = TransactionIn(transactionOutId: string, transactionOutIndex: int, signature: string)

  datatype TransactionOut = TransactionOut(address: string, amount: int)

  datatype UnspentTransactionOut =
    UnspentTransactionOut(transactionOutId: string, transactionOutIndex: int, address: string, amount: int)

  datatype Transaction = Transaction(
    id: string,
    transactionIns: seq<TransactionIn>,
    transactionOuts: seq<TransactionOut>,
    kind: TransactionType)

  /** The id the transaction constructor derives from its inputs, outputs and type. */
  const TransactionId: (seq<TransactionIn>, seq<TransactionOut>, TransactionType) -> string

  /** The dict view of a ledger transaction, as JSON encoding sees it. */
  const TransactionJson: Transaction -> Json

  /** `Transaction(ins, outs, type)`: the id is computed once, from the arguments given. */
  function NewTransaction(ins: seq<TransactionIn>, outs: seq<TransactionOut>, kind: TransactionType): (t: Transaction)
    ensures t.transactionIns == ins && t.transactionOuts == outs && t.kind == kind
    ensures t.id == TransactionId(ins, outs, kind)
  {
    Transaction(TransactionId(ins, outs, kind), ins, outs, kind)
  }

  /** True when `u` is output `index` of transaction `id`. */
  predicate IsOutpoint(u: UnspentTransactionOut, id: string, index: int)
  {
    u.transactionOutId == id && u.transactionOutIndex == index
  }

  /**
    `UnspentTransactionOut.find_unspent_transaction_out(id, index, utxos)`:
    the first unspent output that is output `index` of transaction `id`.
   */
  function FindUnspentTransactionOut(id: string, index: int, utxos: seq<UnspentTransactionOut>)
    : (r: Option<UnspentTransactionOut>)
    ensures r.None? <==> forall k :: 0 <= k < |utxos| ==> !IsOutpoint(utxos[k], id, index)
    ensures r.Some? ==> exists k :: 0 <= k < |utxos| && utxos[k] == r.value && IsOutpoint(r.value, id, index)
                          && forall j :: 0 <= j < k ==> !IsOutpoint(utxos[j], id, index)
  {
    if |utxos| == 0 then None
    else if IsOutpoint(utxos[0], id, index) then Some(utxos[0])
    else
      var r := FindUnspentTransactionOut(id, index, utxos[1..]);
      assert forall k :: 1 <= k < |utxos| ==> utxos[k] == utxos[1..][k - 1];
      r
  }
}
