# A verified model of a small Python blockchain node

This project models the core of a Python blockchain node in Dafny and proves
properties of the model. The node has a UTXO wallet, a proof-of-work chain
manager, the two block records and the transaction record, and a
peer-to-peer layer that frames messages over TCP and keeps a registry of peer
connections.

The model is split by source file:

- `wallet.dfy` (module `Wallets`) covers `wallet/wallet.py`:
  - selecting spendable outputs;
  - covering an amount greedily;
  - building change;
  - signing inputs;
  - the balance, stake and validator queries.
- `chain.dfy` (module `Chain`) covers the `Blockchain` class of
  `blockchain/blockchain.py`. It is a class whose methods update the chain, the
  pool and the mining flag.
- `blocks.dfy` covers the two block records:
  - module `PowBlock` is the proof-of-work block of `block.py`;
  - module `StakeBlock` is the proof-of-stake block of `blockchain/block.py`.
- `records.dfy` covers the transaction records:
  - module `Transfer` is the sender/recipient/amount record of `blockchain/transaction.py`;
  - module `Ledger` holds the UTXO records the wallet and the stake block read.
- `connection.dfy` (module `Connection`) covers `p2p/connection.py`:
  - send framing;
  - the receive loop that cuts the byte stream at each `END_OF_MESSAGE`;
  - `parse_packet`;
  - the `P2PConnection` object.
- `node.dfy` (modules `Events` and `Node`) covers `p2p/node.py`:
  - the `host:port` strings;
  - the decision logic of `connect`;
  - `disconnect`, `broadcast` and `connection_urls` over the registry.
- `text.dfy` (module `Text`) covers Python's `str(int)`, `int(str)` and `str.split`, which `from_url` and `to_url` rely on.
- `externals.dfy` holds the primitives the code calls but does not define:
  - sha256;
  - `json.dumps` and `json.loads`;
  - UTF-8 encoding and decoding;
  - ECDSA signing and verification;
  - the values of the constants modules.

  Each is a constant with a type and no definition. Every proof holds for
  any hash and any codec. Every proof holds for any signature scheme too,
  except those that assume `SignaturesVerify()`: that every signature made
  with a private key verifies under its public key. The lemmas that assume
  it are `Wallets.WellBuiltIsSigned`, `Wallets.BuiltValidatorGrantIsRecognised`,
  `Wallets.BuiltStakeIsCounted` and `Wallets.WellBuiltStakeIsCounted`.

Some things in the source come from the outside and become parameters:
- clock readings (`now`);
- the nonce ECDSA draws for each signature (`nonce`);
- whether each `sendall` succeeded (`delivered`);
- the chunks `recv` returned (`chunks`);
- the handshake reply `connect` reads (`reply`);
- the genesis block of the chain (`genesis`, the argument of `Chain.Blockchain`'s constructor).

Amounts are unbounded integers.

## Model

| member | source | states |
|---|---|---|
| Wallets.BalanceSingle | wallet/wallet.py:124-130 | a single output adds its amount to the balance exactly when it is addressed to the wallet; with `BalanceAppend` this fixes the balance as the sum of the wallet's amounts |
| Wallets.Filter | wallet/wallet.py:29 | a list comprehension's filter keeps an element exactly when it was in the list and passes the test; it never grows the list |
| Wallets.FilterTransactionPool | wallet/wallet.py:52-61 | an output survives exactly when it is listed and no input of any pooled transaction has its (id, index); the survivors keep their order (a subsequence of the input) |
| Wallets.PoolInputsSpend | wallet/wallet.py:53-57 | the flattened input list of the pool references an output exactly when some pooled transaction has an input with that output's (id, index) |
| Wallets.PoolFilterCounts | wallet/wallet.py:56-61 | a kept output keeps every copy it had, and a spent one loses all of them |
| Wallets.SpendableOutputs | wallet/wallet.py:28-29 | about `Spendable`: the outputs `create_transaction` may spend are exactly the listed ones addressed to the wallet and not spent in the pool, in list order |
| Wallets.CoverLength | wallet/wallet.py:68-74 | the length of the shortest non-empty prefix whose running total reaches the amount; None exactly when no prefix reaches it |
| Wallets.CoverFailsIffShort | wallet/wallet.py:64-74 | with non-negative amounts, covering fails exactly when the list is empty or its total is below the amount |
| Wallets.TransactionOutsForAmount | wallet/wallet.py:64-74 | the loop returns that shortest prefix and a leftover equal to its total minus the amount, never negative; None exactly when no prefix covers |
| Wallets.CreateTransactionOuts | wallet/wallet.py:77-84 | one output (recipient, amount) when the leftover is 0, otherwise that output then (own address, leftover); the amounts sum to amount + leftover |
| Wallets.SigningFailsIff | wallet/wallet.py:87-103 | signing fails exactly when some input references an output that is missing or not addressed to the key derived from the private key |
| Wallets.GetTransactionSignatures | wallet/wallet.py:87-103 | on success, one signature per input, in order, each a signature of the transaction id with the private key |
| Wallets.SignInputs | wallet/wallet.py:47-48 | the in-place rewrite keeps each input's (id, index) and gives the i-th input the i-th signature |
| Wallets.BuiltTransactionShape | wallet/wallet.py:31-50 | about `BuildTransaction`: a built transaction spends the covering prefix in order, pays recipient and change, carries the i-th signature on the i-th input, and building fails when nothing covers |
| Wallets.BuildFromSigned | wallet/wallet.py:37-50 | when signing succeeds, the transaction returned is the unsigned one with each input re-signed, id unchanged |
| Wallets.CreateTransaction | wallet/wallet.py:27-50 | returns None when the spendable outputs cannot cover the amount; on success, every spent output belongs to the wallet and is unspent in the pool, and the transaction is well built from them |
| Wallets.BuildFailsOnlyOnFunds | wallet/wallet.py:27-50 | for a wallet whose public key matches its private key, over outputs with distinct outpoints, building fails exactly when the spendable outputs cannot cover the amount |
| Wallets.BuildNeverExceedsBalance | wallet/wallet.py:27-50 | with non-negative amounts, a transaction is built only when the wallet's balance is at least the amount |
| Wallets.GetAccountBalance | wallet/wallet.py:124-130 | 0 when no output is the wallet's; with non-negative amounts, between 0 and the total of all outputs; its value is fixed by `BalanceSingle` and `BalanceAppend` |
| Wallets.BalanceAppend | wallet/wallet.py:124-130 | the balance of two lists together is the sum of their balances |
| Wallets.CanAccountValidate | wallet/wallet.py:112-117 | True only for a VALIDATOR transaction whose first-input signature verifies under the wallet key; without an inputless VALIDATOR, it is True exactly when such a transaction exists; None (IndexError) only when there is an inputless VALIDATOR |
| Wallets.CanAccountValidateFirstAnswer | wallet/wallet.py:112-117 | the scan stops at the first VALIDATOR that answers: it raises IndexError (None) exactly when an inputless VALIDATOR comes before any signed one, and returns True exactly when a signed VALIDATOR comes before any inputless one |
| Wallets.AccountStake | wallet/wallet.py:136-147 | the scan raises (None) exactly when some STAKE transaction has no input |
| Wallets.StakeAppend | wallet/wallet.py:136-147 | stakes add up over a history split in two |
| Wallets.GetAccountStake | wallet/wallet.py:136-147 | the nested loops compute the stake: outputs to CHAIN_ADDRESS summed over STAKE transactions signed by the wallet |
| Wallets.StakedAmountOfOuts | wallet/wallet.py:143-145 | a stake built to CHAIN_ADDRESS by a wallet whose own address differs counts exactly the staked amount, not the change |
| Wallets.StakeOfSignedStake | wallet/wallet.py:141-145 | a single signed STAKE transaction contributes its payments to CHAIN_ADDRESS |
| Wallets.WellBuiltIsSigned | wallet/wallet.py:40-50 | when signatures verify and the keys agree, a transaction the wallet builds has inputs and verifies under the wallet's key |
| Wallets.WellBuiltStakeIsCounted | wallet/wallet.py:136-147 | a STAKE transaction the wallet builds to CHAIN_ADDRESS counts exactly its amount in the stake |
| Wallets.BuiltStakeIsCounted | wallet/wallet.py:136-147 | `get_account_stake` over a stake the wallet built answers the amount staked |
| Wallets.BuiltValidatorGrantIsRecognised | wallet/wallet.py:112-117 | `can_account_validate` over a VALIDATOR transaction the wallet built answers True |
| Ledger.NewTransaction | wallet/wallet.py:40 | the transaction keeps its inputs, outputs and type, and its id is the one derived from them |
| Ledger.FindUnspentTransactionOut | wallet/wallet.py:93 | the first listed output with the given (id, index); None exactly when there is none |
| Transfer.ToJson | blockchain/transaction.py:7 | the dict view has exactly the keys sender, recipient and amount, each equal to its attribute |
| Transfer.ViewIsFaithful | blockchain/transaction.py:2-7 | the dict view determines the transaction: the stored attributes are the arguments, unchanged and unvalidated |
| PowBlock.New | block.py:6-11 | the block stores index, proof, previous hash and transactions unchanged, with the clock reading as timestamp |
| PowBlock.TransactionsJson | block.py:13 | the transactions enter the view one for one, in order |
| PowBlock.ViewShape | block.py:13 | about `View`: the dict view has exactly index, timestamp, proof_of_work, previous_hash and transactions, with the attributes' values |
| PowBlock.ViewIsFaithful | block.py:13 | the dict view determines the block, so the hash covers every attribute |
| PowBlock.Hash | block.py:15-16 | `hash` returns a new digest object whose hex digest is `HexHash`, the sha256 hex digest of the sorted JSON of the view |
| PowBlock.PreviousHashMatchesAsWritten | blockchain/blockchain.py:79-80 | as written, the stored digest object never equals the freshly computed one, so the link check always fails |
| StakeBlock.New | blockchain/block.py:11-24 | the block stores all six fields; the view's timestamp is the construction time |
| StakeBlock.TransactionsJson | blockchain/block.py:24 | the transactions enter the view one for one, in order |
| StakeBlock.View | blockchain/block.py:24 | the dict view has exactly index, timestamp, previous_hash, difficulty and transactions, and neither minter field |
| StakeBlock.HashIgnoresMinterAndTimestamp | blockchain/block.py:24-27 | about `Hash`: the hash does not change with the minter balance, the minter address or the timestamp attribute |
| StakeBlock.GenesisTransaction | blockchain/block.py:31-33 | one COINBASE transaction with input ('', GENESIS_BLOCK_INDEX, '') and output (OWNER_ADDRESS, OWNER_INIT_AMOUNT) |
| StakeBlock.Genesis | blockchain/block.py:30-35 | index GENESIS_BLOCK_INDEX, previous hash '', difficulty 0, minter balance 0, minter OWNER_ADDRESS, and that single transaction |
| StakeBlock.ReadData | blockchain/block.py:38-42 | what `from_dict` reads: each attribute is the dict's entry under its key; KeyError (None) whenever one of the seven keys is missing |
| StakeBlock.OwnViewRaisesKeyError | blockchain/block.py:24-39 | a block's own dict has no minter fields, so `from_dict` of it raises KeyError |
| StakeBlock.SenderDict | blockchain/block.py:24-39 | a dict `from_dict` accepts has the block's view plus the two minter fields, and exactly the seven keys it reads |
| StakeBlock.SenderDictReadsSent | blockchain/block.py:24-42 | `from_dict` reads from that dict the block's attributes, with the timestamp the block was hashed with |
| StakeBlock.Deserialized | blockchain/block.py:38-45 | every attribute comes from the input dict, but the view keeps the construction time |
| StakeBlock.FromDict | blockchain/block.py:38-45 | the constructor, the timestamp overwrite and the append loop yield that block, with the transactions in input order |
| StakeBlock.FromDictLosesTimestamp | blockchain/block.py:24-40 | as written, a block read back from its sender's dict at a different clock reading has a different view from the sender's, so the dicts its `hash` serializes differ |
| StakeBlock.DeserializedWithTimestamp | blockchain/block.py:38-45 | the corrected `from_dict` still takes every attribute from the dict |
| StakeBlock.FixedFromDictPreservesHash | blockchain/block.py:24-40 | with the dict entry updated too, a block read back from its sender's dict keeps its view and its hash, whatever the clock |
| Chain.ExtendValidChain | blockchain/blockchain.py:72-90 | a valid chain extended by a block that links to its last block stays valid |
| Chain.Blockchain.constructor | blockchain/blockchain.py:21-24 | the chain is exactly [genesis], the pool is empty and mining is not cancelled |
| Chain.Blockchain.LastBlock | blockchain/blockchain.py:92-94 | the last block of the chain, which is never empty |
| Chain.Blockchain.CreateNewBlock | blockchain/blockchain.py:41-46 | the chain grows by exactly the returned block: index old length + 1, previous hash the hash of the old last block, the old pool as transactions; the pool is emptied; with a proof that passes, a valid chain stays valid |
| Chain.Blockchain.CreateNewTransaction | blockchain/blockchain.py:61-63 | exactly one transaction is appended to the pool, the chain is unchanged, and the answer is the last block's index + 1 |
| Chain.Blockchain.ValidChain | blockchain/blockchain.py:72-90 | True exactly when every adjacent pair links by hash and passes the proof check; a one-block chain is valid |
| Chain.Blockchain.ReplaceChain | blockchain/blockchain.py:96-106 | the candidate is installed, and True returned, exactly when it is valid; there is no length comparison, and otherwise nothing changes |
| Chain.Blockchain.ReplacePool | blockchain/blockchain.py:109-113 | the pool becomes exactly the new list, in order |
| Chain.Blockchain.GenerateProof | blockchain/blockchain.py:127-137 | None when mining is cancelled; otherwise the smallest n >= 0 that passes `ValidateProof`, the test of `validate_proof` (blockchain/blockchain.py:155-157) that the sha256 hex digest of previous proof, proof and previous hash ends in "0000" |
| Text.Show | p2p/node.py:153 | `str(n)` is a non-empty run of decimal digits, with a leading '-' for a negative number |
| Text.Split | p2p/node.py:157 | `split` gives at least one piece, and no piece holds the separator |
| Text.JoinSplit | p2p/node.py:157 | joining the pieces with the separator gives the string back |
| Text.SplitAtFirst | p2p/node.py:157 | a string cut at its first separator splits into the part before it, then the split of the rest |
| Text.ParseInt | p2p/node.py:158 | `int` of a run of decimal digits is its value, and `int` never succeeds on an empty string |
| Text.ParseShow | p2p/node.py:153-158 | `int(str(n)) == n` for every integer, negative ones included |
| Node.ToUrl | p2p/node.py:152-153 | the url starts with the host and then ':'; when the host holds no ':', that is the first ':' of the url |
| Node.FromUrl | p2p/node.py:156-158 | on success the host is the text before the first ':' and the port is `int` of the second piece of the split; it fails exactly when there is no second piece (IndexError) or `int` rejects it (ValueError) |
| Node.UrlRoundTrip | p2p/node.py:152-158 | `from_url(to_url(h, p)) == (h, p)` exactly when h holds no ':', for every port |
| Node.Target | p2p/node.py:58-59 | "0.0.0.0" becomes "localhost", and every other host is kept |
| Node.ConnectOutcome | p2p/node.py:57-90 | the node itself is refused exactly when the rewritten target is its own address; the outcome is Unreachable only when the reply is missing or does not parse; it is Known only when a connection matches the target or the announced address; and Known whenever (the target not being the node) a connection matches the target, whatever the reply, or matches the address a parsed reply announces |
| Node.AddedOnlyWhenNew | p2p/node.py:57-86 | a connection is added only when the target is not the node itself, no connection matches the target or the announced address, and the reply parses to that announced address |
| Node.ConnectIsIdempotent | p2p/node.py:64-66 | connecting again to a target just added answers True and adds nothing |
| Node.Urls | p2p/node.py:147-149 | one url per connection, and the i-th is `to_url` of the i-th connection's announced address |
| Node.UrlsRecoverAnnouncements | p2p/node.py:147-149 | the i-th url is `to_url` of the i-th connection's announced address, and parses back to it when the host holds no ':' |
| Node.DisconnectNoticesMeaning | p2p/node.py:92-96 | `disconnect` reports (host, port) once per connection at that address, and nothing when there is none |
| Node.FirstRaise | p2p/node.py:45-49 | the first connection whose send raises, or the end of the list: every earlier send returns |
| Node.P2PNode.constructor | p2p/node.py:11-27 | the node listens at "0.0.0.0" port 0, with no connections and nothing sent |
| Node.P2PNode.Init | p2p/node.py:29-31 | only the listening address changes |
| Node.P2PNode.Stop | p2p/node.py:98-99 | only the terminate flag is set |
| Node.P2PNode.IsConnected | p2p/node.py:64-66 | the dedup loop finds a match exactly when some connection matches by address or by announced address |
| Node.P2PNode.Connect | p2p/node.py:57-90 | False for the node itself or on failure; True without change when a connection matches before or after the handshake; otherwise exactly one fresh connection is appended with the peer's announced address and reported as Connected |
| Node.P2PNode.Disconnect | p2p/node.py:92-96 | every connection at (host, port) is stopped and reported in registry order; none is removed and the others are untouched |
| Node.P2PNode.Broadcast | p2p/node.py:45-49 | the sent count goes up by one; each connection up to the first that raises receives `send(data)`, in registry order; the rest are untouched |
| Node.P2PNode.ConnectionUrls | p2p/node.py:147-149 | one url per connection, in registry order, the i-th being `to_url` of the i-th connection's announced address; each parses back to that address when its host holds no ':' |
| Connection.Find | p2p/connection.py:88 | -1 exactly when the byte is absent, otherwise the index of its first occurrence |
| Connection.ExtractConserves | p2p/connection.py:86-97 | about `Extract`, the cutting loop as written: the packets, each followed by the terminator, then the rest, give the buffer back; packets are non-empty and hold no terminator; the rest holds one at most at position 0 |
| Connection.ExtractFrame | p2p/connection.py:31-97 | non-empty messages without the terminator, framed by `send`, are cut back out exactly and in order |
| Connection.StuckBuffer | p2p/connection.py:90 | a buffer that starts with the terminator yields no packet, whatever follows |
| Connection.EmptyMessageStallsReceiver | p2p/connection.py:90 | as written, after an empty message no later message is ever cut; the corrected guard delivers them all |
| Connection.ExtractAllConserves | p2p/connection.py:86-97 | with the guard `>= 0`, extraction loses no byte and leaves no terminator behind |
| Connection.ExtractAllFrame | p2p/connection.py:31-97 | with the guard `>= 0`, every framed message, the empty one included, is cut back out in order |
| Connection.FindPrefix | p2p/connection.py:87-88 | appending a chunk does not move a terminator already in the buffer |
| Connection.ExtractChunked | p2p/connection.py:86-97 | extraction does not depend on where the chunk boundaries fall |
| Connection.ReceiveStep | p2p/connection.py:86-97 | an empty chunk changes nothing; otherwise the step loses no byte, cuts packets without terminator in stream order, leaves a rest with no terminator past position 0, and cuts nothing from a stream that starts with the terminator |
| Connection.Receive | p2p/connection.py:71-97 | over any chunking of the stream, the callback gets the parsed packets of the whole stream, in order, and the buffer holds what is left |
| Connection.Wire | p2p/connection.py:28-52 | str, dict and bytes payloads are written with the terminator last; an unserialisable dict or an unsupported type writes nothing |
| Connection.Body | p2p/connection.py:28-52 | what a send writes is its body followed by the terminator |
| Connection.ParsePacket | p2p/connection.py:58-69 | raw bytes exactly when the packet does not decode, and then the packet itself; decoded text only when it is not JSON; otherwise the parsed JSON of the decoded text |
| Connection.ParseAll | p2p/connection.py:58-69 | one parsed message per packet, in order |
| Connection.SentObjectArrivesAsJson | p2p/connection.py:36-69 | a dict whose text survives encoding and parsing arrives as the same JSON object |
| Connection.SentTextArrivesParsedFirst | p2p/connection.py:58-69 | a str arrives parsed as JSON when it is JSON, and as text only otherwise: JSON is tried first |
| Connection.SentBytesArriveRaw | p2p/connection.py:48-69 | bytes that do not decode arrive as the same bytes |
| Connection.Bodies | p2p/connection.py:28-52 | one body per send, in order |
| Connection.SuccessfulSendsAreFramed | p2p/connection.py:28-52 | the bytes of a run of successful sends are the frames of their bodies |
| Connection.SendsAreReceived | p2p/connection.py:28-97 | as written, a run of sends whose bodies are non-empty and hold no terminator is cut back into exactly those bodies |
| Connection.SendsAreReceivedAll | p2p/connection.py:28-97 | with the guard `>= 0`, the same holds for empty bodies too |
| Connection.P2PConnection.constructor | p2p/connection.py:11-24 | the connection keeps its address and the announced one, is not terminated, and has written nothing |
| Connection.P2PConnection.Send | p2p/connection.py:28-52 | a delivered str, dict or bytes payload appends its wire bytes; a failed str or dict send stops the connection; a failed bytes send raises; nothing else changes |
| Connection.P2PConnection.Stop | p2p/connection.py:55-56 | only the terminate flag is set, so stopping twice is stopping once |

## Left out

- Sockets, threads, `time.sleep` and timeouts are not modelled. This covers:
  - the accept loop `P2PNode.run`;
  - `init_server`'s socket binding;
  - the handshake string `connect` sends, `to_url(self.host, self.port)`.

  Their observable results are parameters.
- Python's encode, decode and JSON primitives are opaque. A UnicodeEncodeError from encoding a str in `send` is not modelled.
- Partial writes by `sendall` are not modelled. A send is delivered whole or fails.
- Amounts, balances and timestamps are integers; Python floats are not modelled.
- Key generation, `load_keys_from_file` and `set_private_key` are not modelled. Line 25 of `wallet/wallet.py` is a subtraction that never updates the key.
- Chain.Blockchain.ReplaceChain: takes a sequence of blocks that is already deserialized. `replace_chain` (blockchain/blockchain.py:99-100) converts each dict with `Block.from_dict` of the proof-of-stake block, which `StakeBlock.FromDict` models but `ReplaceChain` does not call. `block.py` defines no `from_dict`.
- Chain.Blockchain.ReplacePool: takes transactions that are already deserialized. `Transaction.from_dict` (blockchain/blockchain.py:113) is not part of this model.
- Chain.Blockchain.ValidChain: requires a non-empty candidate. `valid_chain([])` raises IndexError at blockchain/blockchain.py:78, and that error path is not modelled.
- Chain.Blockchain.ReplaceChain: requires a non-empty candidate for the same reason; `replace_chain([])` raises IndexError.
- `blockchain/blockchain.py` imports the proof-of-stake `Block` of `blockchain/block.py`. But `create_new_block` (line 41) calls it with the four arguments of the proof-of-work `Block` of `block.py`, and the chain code reads `proof_of_work`, which only that block has. The chain is modelled over `PowBlock.Block`.
- Chain.Blockchain.constructor: takes its genesis block as an argument. blockchain/blockchain.py:22 calls `Block.genesis()`, which only the proof-of-stake block defines; a proof-of-work genesis is not part of this model.
- StakeBlock.Sent: stands for the data read from a dict carrying the block's view plus its two minter fields (`SenderDict`). The block's own dict, which `json.dumps` and `send` serialize, lacks those fields, and `from_dict` of it raises KeyError (`OwnViewRaisesKeyError`). The round-trip lemmas hold for that extended dict only.
- StakeBlock.ReadData: a value of another JSON type than the one the block holds (an int where a string is expected, say) gives None. Python would store it unchecked. The entries of the transactions list are taken as already deserialized.
- StakeBlock.FromDictLosesTimestamp: states that the views differ, not that the hashes do. That would take sha256 and `json.dumps` being injective, which opaque primitives do not promise.
- Chain.Blockchain.CreateNewBlock: links with the hex digest `PowBlock.HexHash`, not the digest object of block.py:16 (first row of Findings). As written, the stored digest object would also make the next `hash()` of that block raise TypeError in `json.dumps`.
- Chain.Blockchain.ValidChain: compares hex digests and passes the hex digest to `ValidateProof`. As written, `valid_chain` compares digest objects by identity, and the proof target holds the object's repr with its memory address.
- Chain.Blockchain.GenerateProof: the proof target holds the hex digest of the last block. As written, `generate_proof` (blockchain/blockchain.py:131) formats the digest object into the f-string, so the target holds its repr.
- Wallets.CanAccountValidate: `Verify` is a total function. `Signature._fromString` (wallet/wallet.py:113, 142) raises on a malformed signature, and that error is not modelled; `Wallets.GetAccountStake` shares this gap.
- The shared mutable default `transactions=[]` (`blockchain/block.py:11`, `block.py:6`), which `from_dict` appends into, is not modelled. Each block gets its own sequence, so blocks built from the default do not share transactions here.
- `messages_recv`, `messages_rerr`, the `callback` argument and the default handler's printing are not modelled. The event handler is a log of notifications.
- Chain.Blockchain.GenerateProof: tries at most `fuel` candidates. A search the source would continue past `fuel` returns None here.
- Text.ParseInt: accepts an optional sign followed by ASCII digits only. Python's `int` also accepts surrounding whitespace, underscores between digits and non-ASCII digits.
- Wallets.CoverFailsIffShort: requires non-negative output amounts. With a negative amount, a prefix can reach the target while the whole list does not.
- Wallets.GetAccountBalance: bounds the balance by the total only for non-negative amounts.
- Wallets.BuildNeverExceedsBalance: stated for non-negative amounts only.
- Wallets.TransactionOutsForAmount: for an empty list it answers None even when the amount is 0 or less, as the loop does. The promise "None iff the total is below the amount" holds only for non-empty lists.
- `END_OF_MESSAGE` is taken to be a single byte value.
- Node.P2PNode.Connect: a failure to connect, send, receive or decode the handshake is one input, `reply == None`.
- Node.P2PNode.ConnectionUrls: relies on the invariant that every registered connection carries an announced address. Both `connect` and the accept loop create connections that way; for a connection without one, `to_url(None, None)` would raise TypeError.
- Connection.Receive: models the loop while the connection stays open. The chunks stand for what `recv` returned before a stop or an error, and a timeout is an empty chunk.
- The as-written guard `message_end > 0` is what `ReceiveStep` and `Receive` model. The corrected extraction `ExtractAll` is proved beside it and is not swapped in, so the receive loop keeps the source's behaviour.

## Findings

| source | as written | input that shows it | evidently intended | confidence | as-written member | corrected member |
|---|---|---|---|---|---|---|
| block.py:16 | `hash` returns the hashlib digest object. `valid_chain` compares it to the stored previous hash with `!=`, and digest objects compare by identity. The stored digest object also breaks the next `hash()` of the block holding it: `json.dumps` raises TypeError on it, in the next `create_new_block` and in `generate_proof(last_block)`, so the chain cannot grow past two blocks. `generate_proof` and `validate_proof` (blockchain/blockchain.py:131, 155) format the digest into the proof target, so the target holds the object's repr with its memory address. | with a proof-of-work genesis, any chain [genesis, b] where b came from `create_new_block`: the stored digest and the one recomputed in `valid_chain` are different objects | compare hex digests, `hash().hexdigest()` | medium, not executed | PowBlock.PreviousHashMatchesAsWritten | Chain.Blockchain.CreateNewBlock |
| p2p/connection.py:90 | the receive loop cuts only while `message_end > 0` | `send("")` followed by `send("a")` writes END_OF_MESSAGE, 'a', END_OF_MESSAGE; the buffer starts with the terminator, so neither message, nor any later one, is ever delivered | `message_end >= 0`, so that an empty message is cut (and delivered or skipped) | high, not executed | Connection.EmptyMessageStallsReceiver | Connection.ExtractAllFrame |
| blockchain/block.py:40 | `from_dict` assigns the `timestamp` attribute, but the dict entry that `hash` serializes keeps the construction time | a block with timestamp t, sent as a dict that carries its view plus the two minter fields (`SenderDict`; the block's own dict raises KeyError at line 39 first, see `OwnViewRaisesKeyError`) and read back at a clock reading other than t: the received block's view differs from the sender's, so its `hash` serializes a different dict | also set the dict entry, `block['timestamp'] = block_data['timestamp']` | high, not executed | StakeBlock.FromDictLosesTimestamp | StakeBlock.FixedFromDictPreservesHash |
