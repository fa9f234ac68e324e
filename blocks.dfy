/**
  The proof-of-work block of block.py, the block the chain manager mines. It is
  a dict subclass: the constructor stores five attributes and copies them into
  the dict view that `hash` encodes.
 */
module PowBlock {
  import opened Externals
  import Transfer

  datatype Block = Block(
    index: int,
    timestamp: int,
    proofOfWork: int,
    previousHash: string,
    transactions: seq<Transfer.Transaction>)

  const ViewKeys: set<string> := {"index", "timestamp", "proof_of_work", "previous_hash", "transactions"}

  /** `Block(index, proof_of_work, previous_hash, transactions)` at clock reading `now`. */
  function New(index: int, proofOfWork: int, previousHash: string, transactions: seq<Transfer.Transaction>, now: int)
    : (b: Block)
    ensures b.index == index && b.proofOfWork == proofOfWork && b.previousHash == previousHash
    ensures b.transactions == transactions && b.timestamp == now
  {
    Block(index, now, proofOfWork, previousHash, transactions)
  }

  function TransactionsJson(ts: seq<Transfer.Transaction>): (j: seq<Json>)
    ensures |j| == |ts| && forall i :: 0 <= i < |ts| ==> j[i] == Transfer.ToJson(ts[i])
  {
    if ts == [] then [] else [Transfer.ToJson(ts[0])] + TransactionsJson(ts[1..])
  }

  /** The dict view that JSON encoding and hashing see. */
  function View(b: Block): map<string, Json>
  {
    map[
      "index" := JInt(b.index),
      "timestamp" := JInt(b.timestamp),
      "proof_of_work" := JInt(b.proofOfWork),
      "previous_hash" := JStr(b.previousHash),
      "transactions" := JList(TransactionsJson(b.transactions))]
  }

  /** The dict view has exactly the five attributes, under their Python names, with the same values. */
  lemma ViewShape(b: Block)
    ensures View(b).Keys == ViewKeys
    ensures View(b)["index"] == JInt(b.index) && View(b)["timestamp"] == JInt(b.timestamp)
    ensures View(b)["proof_of_work"] == JInt(b.proofOfWork) && View(b)["previous_hash"] == JStr(b.previousHash)
    ensures View(b)["transactions"] == JList(TransactionsJson(b.transactions))
  {
  }

  /** The view determines the block: nothing of the block is missing from what is hashed. */
  lemma ViewIsFaithful(b1: Block, b2: Block)
    requires View(b1) == View(b2)
    ensures b1 == b2
  {
    ViewShape(b1);
    ViewShape(b2);
    assert View(b1)["index"] == View(b2)["index"];
    assert View(b1)["timestamp"] == View(b2)["timestamp"];
    assert View(b1)["proof_of_work"] == View(b2)["proof_of_work"];
    assert View(b1)["previous_hash"] == View(b2)["previous_hash"];
    var t1, t2 := b1.transactions, b2.transactions;
    assert JList(TransactionsJson(t1)) == JList(TransactionsJson(t2));
    assert |t1| == |t2|;
    forall i | 0 <= i < |t1|
      ensures t1[i] == t2[i]
    {
      Transfer.ViewIsFaithful(t1[i], t2[i]);
    }
  }

  /**
    The hex digest of the key-sorted JSON of the dict view: what the chain
    manager compares and feeds to `validate_proof`. (block.py:16 returns the
    digest object itself; see `Hash`.)
   */
  function HexHash(b: Block): string
  {
    Sha256Hex(Dumps(JObject(View(b)), true))
  }

  /** A hashlib digest object. Python compares such objects by identity. */
  class DigestObject {
    const hexdigest: string

    constructor (hexdigest: string)
      ensures this.hexdigest == hexdigest
    {
      this.hexdigest := hexdigest;
    }
  }

  /** `Block.hash` as written: every call returns a new digest object. */
  method Hash(b: Block) returns (d: DigestObject)
    ensures fresh(d) && d.hexdigest == HexHash(b)
  {
    d := new DigestObject(HexHash(b));
  }

  /**
    The hash-link test `block.previous_hash != last_block.hash()` as written,
    where `previous_hash` holds the digest object `create_new_block` stored:
    the stored object is never the one a new `hash()` call returns, so the
    link never holds, even when both digests agree.
   */
  method PreviousHashMatchesAsWritten(stored: DigestObject, last: Block) returns (matches: bool)
    ensures !matches
  {
    var current := Hash(last);
    matches := stored == current;
  }
}

/**
  The proof-of-stake block of blockchain/block.py. Its dict view is built once,
  in the constructor, from five of its seven attributes; `from_dict` later
  reassigns the `timestamp` attribute but not the dict entry, and appends to
  the transaction list, which the attribute and the dict entry share.
 */
module StakeBlock {
  import opened Wrappers
  import opened Externals
  import opened Constants
  import Ledger

  datatype Block = Block(
    index: int,
    timestamp: int,
    previousHash: string,
    difficulty: int,
    minterBalance: int,
    minterAddress: string,
    transactions: seq<Ledger.Transaction>,
    viewTimestamp: int)  // the timestamp stored in the dict view at construction

  const ViewKeys: set<string> := {"index", "timestamp", "previous_hash", "difficulty", "transactions"}

  /**
    `Block(index, previous_hash, difficulty, minter_balance, minter_address,
    transactions)` at clock reading `now`.
   */
  function New(index: int, previousHash: string, difficulty: int, minterBalance: int, minterAddress: string,
               transactions: seq<Ledger.Transaction>, now: int): (b: Block)
    ensures b.index == index && b.previousHash == previousHash && b.difficulty == difficulty
    ensures b.minterBalance == minterBalance && b.minterAddress == minterAddress
    ensures b.transactions == transactions
    ensures b.timestamp == now && b.viewTimestamp == now
  {
    Block(index, now, previousHash, difficulty, minterBalance, minterAddress, transactions, now)
  }

  function TransactionsJson(ts: seq<Ledger.Transaction>): (j: seq<Json>)
    ensures |j| == |ts| && forall i :: 0 <= i < |ts| ==> j[i] == Ledger.TransactionJson(ts[i])
  {
    if ts == [] then [] else [Ledger.TransactionJson(ts[0])] + TransactionsJson(ts[1..])
  }

  /**
    The dict view: index, timestamp, previous_hash, difficulty and transactions;
    the minter fields are not in it.
   */
  function View(b: Block): (d: map<string, Json>)
    ensures d.Keys == ViewKeys
    ensures "minter_balance" !in d && "minter_address" !in d
    ensures d["index"] == JInt(b.index) && d["timestamp"] == JInt(b.viewTimestamp)
    ensures d["previous_hash"] == JStr(b.previousHash) && d["difficulty"] == JInt(b.difficulty)
    ensures d["transactions"] == JList(TransactionsJson(b.transactions))
  {
    map[
      "index" := JInt(b.index),
      "timestamp" := JInt(b.viewTimestamp),
      "previous_hash" := JStr(b.previousHash),
      "difficulty" := JInt(b.difficulty),
      "transactions" := JList(TransactionsJson(b.transactions))]
  }

  /** `Block.hash`: the hex digest of the key-sorted JSON of the dict view. */
  function Hash(b: Block): string
  {
    Sha256Hex(Dumps(JObject(View(b)), true))
  }

  /** The minter fields and the timestamp attribute never reach the hash. */
  lemma HashIgnoresMinterAndTimestamp(b: Block, balance: int, address: string, timestamp: int)
    ensures Hash(b.(minterBalance := balance, minterAddress := address, timestamp := timestamp)) == Hash(b)
  {
    assert View(b.(minterBalance := balance, minterAddress := address, timestamp := timestamp)) == View(b);
  }

  /** The coinbase transaction of the genesis block. */
  function GenesisTransaction(): (t: Ledger.Transaction)
    ensures t.kind == Ledger.Coinbase
    ensures t.transactionIns == [Ledger.TransactionIn("", GENESIS_BLOCK_INDEX, "")]
    ensures t.transactionOuts == [Ledger.TransactionOut(OWNER_ADDRESS, OWNER_INIT_AMOUNT)]
  {
    Ledger.NewTransaction(
      [Ledger.TransactionIn("", GENESIS_BLOCK_INDEX, "")],
      [Ledger.TransactionOut(OWNER_ADDRESS, OWNER_INIT_AMOUNT)],
      Ledger.Coinbase)
  }

  /**
    `Block.genesis()` at clock reading `now`: block GENESIS_BLOCK_INDEX with no
    predecessor, difficulty 0, minted by the owner with balance 0, holding one
    coinbase transaction that pays OWNER_INIT_AMOUNT to the owner.
   */
  function Genesis(now: int): (b: Block)
    ensures b.index == GENESIS_BLOCK_INDEX && b.previousHash == "" && b.difficulty == 0
    ensures b.minterBalance == 0 && b.minterAddress == OWNER_ADDRESS
    ensures b.timestamp == now && b.viewTimestamp == now
    ensures |b.transactions| == 1 && b.transactions[0].kind == Ledger.Coinbase
    ensures |b.transactions[0].transactionIns| == 1 && |b.transactions[0].transactionOuts| == 1
    ensures b.transactions[0].transactionIns[0] == Ledger.TransactionIn("", GENESIS_BLOCK_INDEX, "")
    ensures b.transactions[0].transactionOuts[0] == Ledger.TransactionOut(OWNER_ADDRESS, OWNER_INIT_AMOUNT)
  {
    New(GENESIS_BLOCK_INDEX, "", 0, 0, OWNER_ADDRESS, [GenesisTransaction()], now)
  }

  /** The dict `from_dict` reads, with its transactions already deserialized. */
  datatype BlockData = BlockData(
    index: int,
    timestamp: int,
    previousHash: string,
    difficulty: int,
    minterBalance: int,
    minterAddress: string,
    transactions: seq<Ledger.Transaction>)

  /**
    What `Block.from_dict(data)` returns at clock reading `now`: every attribute
    from `data`, but the dict view keeps the construction time `now`.
   */
  function Deserialized(data: BlockData, now: int): (b: Block)
    ensures b.index == data.index && b.previousHash == data.previousHash && b.difficulty == data.difficulty
    ensures b.minterBalance == data.minterBalance && b.minterAddress == data.minterAddress
    ensures b.timestamp == data.timestamp && b.transactions == data.transactions
    ensures View(b)["timestamp"] == JInt(now)
  {
    Block(data.index, data.timestamp, data.previousHash, data.difficulty,
          data.minterBalance, data.minterAddress, data.transactions, now)
  }

  /**
    `Block.from_dict(data)`: construct at `now` with no transactions, overwrite
    the timestamp attribute, then append the transactions one by one.
   */
  method FromDict(data: BlockData, now: int) returns (b: Block)
    ensures b == Deserialized(data, now)
  {
    b := New(data.index, data.previousHash, data.difficulty, data.minterBalance, data.minterAddress, [], now);
    b := b.(timestamp := data.timestamp);
    var i := 0;
    while i < |data.transactions|
      invariant 0 <= i <= |data.transactions|
      invariant b == Deserialized(data.(transactions := data.transactions[..i]), now)
    {
      b := b.(transactions := b.transactions + [data.transactions[i]]);
      i := i + 1;
    }
    assert data.transactions[..i] == data.transactions;
  }

  /** The keys `from_dict` reads; a missing one raises KeyError. */
  const FromDictKeys: set<string> :=
    {"index", "previous_hash", "difficulty", "minter_balance", "minter_address", "timestamp", "transactions"}

  /**
    What `from_dict` reads out of the dict `d`, with the entries of its
    transactions list already deserialized as `transactions`. None where a key
    is missing (KeyError) or a value is not of the JSON type the block holds.
   */
  function ReadData(d: map<string, Json>, transactions: seq<Ledger.Transaction>): (r: Option<BlockData>)
    ensures !(FromDictKeys <= d.Keys) ==> r.None?
    ensures r.Some? ==> d["index"] == JInt(r.value.index) && d["timestamp"] == JInt(r.value.timestamp)
    ensures r.Some? ==> d["previous_hash"] == JStr(r.value.previousHash) && d["difficulty"] == JInt(r.value.difficulty)
    ensures r.Some? ==> d["minter_balance"] == JInt(r.value.minterBalance) && d["minter_address"] == JStr(r.value.minterAddress)
    ensures r.Some? ==> r.value.transactions == transactions
  {
    if !(FromDictKeys <= d.Keys) then None
    else match (d["index"], d["timestamp"], d["previous_hash"], d["difficulty"], d["minter_balance"], d["minter_address"], d["transactions"])
      case (JInt(index), JInt(timestamp), JStr(previousHash), JInt(difficulty), JInt(minterBalance), JStr(minterAddress), JList(items)) =>
        if |items| == |transactions| then
          Some(BlockData(index, timestamp, previousHash, difficulty, minterBalance, minterAddress, transactions))
        else None
      case _ => None
  }

  /** A block's own dict has no minter fields, so `from_dict` of it raises KeyError. */
  lemma OwnViewRaisesKeyError(b: Block, transactions: seq<Ledger.Transaction>)
    ensures ReadData(View(b), transactions).None?
  {
    assert "minter_balance" !in View(b).Keys;
  }

  /** A dict that `from_dict` accepts: the block's view with its two minter fields added. */
  function SenderDict(b: Block): (d: map<string, Json>)
    ensures d.Keys == FromDictKeys
  {
    View(b)["minter_balance" := JInt(b.minterBalance)]["minter_address" := JStr(b.minterAddress)]
  }

  /** The data read from such a dict: the block's attributes, with the timestamp it was hashed with. */
  function Sent(b: Block): BlockData
  {
    BlockData(b.index, b.viewTimestamp, b.previousHash, b.difficulty, b.minterBalance, b.minterAddress, b.transactions)
  }

  /** `Sent` is exactly what `from_dict` reads from the sender's dict. */
  lemma SenderDictReadsSent(b: Block)
    ensures ReadData(SenderDict(b), b.transactions) == Some(Sent(b))
  {
    var d := SenderDict(b);
    assert d["index"] == JInt(b.index) && d["timestamp"] == JInt(b.viewTimestamp);
    assert d["previous_hash"] == JStr(b.previousHash) && d["difficulty"] == JInt(b.difficulty);
    assert d["transactions"] == JList(TransactionsJson(b.transactions));
  }

  /**
    As written, a received block hashes the receiver's clock, not the sent
    timestamp: its view differs from the sender's whenever the two times differ.
   */
  lemma FromDictLosesTimestamp(b: Block, now: int)
    requires now != b.viewTimestamp
    ensures View(Deserialized(Sent(b), now)) != View(b)
  {
    assert View(Deserialized(Sent(b), now))["timestamp"] != View(b)["timestamp"];
  }

  /** `from_dict` with the dict entry updated too (`block['timestamp'] = …`), as the round trip needs. */
  function DeserializedWithTimestamp(data: BlockData, now: int): (b: Block)
    ensures b.index == data.index && b.previousHash == data.previousHash && b.difficulty == data.difficulty
    ensures b.minterBalance == data.minterBalance && b.minterAddress == data.minterAddress
    ensures b.timestamp == data.timestamp && b.transactions == data.transactions
  {
    Deserialized(data, now).(viewTimestamp := data.timestamp)
  }

  /** With the dict entry restored, sending and receiving a block reproduces its hash, whatever the clock. */
  lemma FixedFromDictPreservesHash(b: Block, now: int)
    ensures View(DeserializedWithTimestamp(Sent(b), now)) == View(b)
    ensures Hash(DeserializedWithTimestamp(Sent(b), now)) == Hash(b)
  {
  }
}
