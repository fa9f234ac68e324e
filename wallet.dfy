/**
  The wallet of wallet/wallet.py: it selects its own unspent outputs, builds
  and signs transactions from them, and answers balance, stake and validator
  queries. Keys, signatures and transaction ids are the opaque primitives of
  `Externals` and `Ledger`.
 */
module Wallets {
  import opened Wrappers
  import opened Externals
  import opened Constants
  import opened Ledger

  // ---------------------------------------------------------------------------
  // Sequences: filtering and sums

  /** `a` is `b` with some elements left out, the rest in their order. */
  predicate IsSubsequence<T(==)>(a: seq<T>, b: seq<T>)
    decreases |b|
  {
    if a == [] then true
    else if b == [] then false
    else if a[0] == b[0] then IsSubsequence(a[1..], b[1..])
    else IsSubsequence(a, b[1..])
  }

  /** `[x for x in s if keep(x)]`: the kept elements and nothing else. */
  function Filter<T(!new)>(s: seq<T>, keep: T -> bool): (r: seq<T>)
    ensures |r| <= |s|
    ensures forall x :: x in r <==> x in s && keep(x)
  {
    if s == [] then []
    else
      var rest := Filter(s[1..], keep);
      assert forall x :: x in s <==> x == s[0] || x in s[1..];
      if keep(s[0]) then [s[0]] + rest else rest
  }

  /** Filtering keeps each kept element as often as it occurs. */
  lemma {:induction false} FilterCounts<T(!new)>(s: seq<T>, keep: T -> bool)
    ensures forall x :: multiset(Filter(s, keep))[x] == if keep(x) then multiset(s)[x] else 0
  {
    if s != [] {
      FilterCounts(s[1..], keep);
      assert s == [s[0]] + s[1..];
    }
  }

  /** Filtering keeps the order of what it keeps. */
  lemma {:induction false} FilterIsSubsequence<T(!new)>(s: seq<T>, keep: T -> bool)
    ensures IsSubsequence(Filter(s, keep), s)
  {
    if s != [] {
      FilterIsSubsequence(s[1..], keep);
      var rest := Filter(s[1..], keep);
      if !keep(s[0]) && rest != [] {
        assert rest[0] in rest;
      }
    }
  }

  /** Filtering a concatenation filters each part. */
  lemma {:induction false} FilterAppend<T(!new)>(a: seq<T>, b: seq<T>, keep: T -> bool)
    ensures Filter(a + b, keep) == Filter(a, keep) + Filter(b, keep)
  {
    if a == [] {
      assert a + b == b;
    } else {
      assert (a + b)[0] == a[0];
      assert (a + b)[1..] == a[1..] + b;
      FilterAppend(a[1..], b, keep);
    }
  }

  function SumUnspent(s: seq<UnspentTransactionOut>): int
  {
    if s == [] then 0 else SumUnspent(s[..|s| - 1]) + s[|s| - 1].amount
  }

  /** The total of the first `j` outputs. */
  function PrefixSum(s: seq<UnspentTransactionOut>, j: nat): int
    requires j <= |s|
  {
    SumUnspent(s[..j])
  }

  function SumOuts(s: seq<TransactionOut>): int
  {
    if s == [] then 0 else SumOuts(s[..|s| - 1]) + s[|s| - 1].amount
  }

  predicate NonNegative(s: seq<UnspentTransactionOut>)
  {
    forall k :: 0 <= k < |s| ==> s[k].amount >= 0
  }

  lemma {:induction false} SumUnspentAppend(a: seq<UnspentTransactionOut>, b: seq<UnspentTransactionOut>)
    ensures SumUnspent(a + b) == SumUnspent(a) + SumUnspent(b)
    decreases |b|
  {
    if b == [] {
      assert a + b == a;
    } else {
      assert (a + b)[..|a + b| - 1] == a + b[..|b| - 1];
      SumUnspentAppend(a, b[..|b| - 1]);
    }
  }

  /** With no negative amounts, a prefix never totals more than the whole. */
  lemma {:induction false} PrefixSumBounded(s: seq<UnspentTransactionOut>, j: nat)
    requires NonNegative(s) && j <= |s|
    ensures SumUnspent(s[..j]) <= SumUnspent(s)
    decreases |s|
  {
    if j < |s| {
      assert s[..|s| - 1][..j] == s[..j];
      PrefixSumBounded(s[..|s| - 1], j);
    } else {
      assert s[..j] == s;
    }
  }

  /** With no negative amounts, what a filter keeps never totals more than the whole. */
  lemma {:induction false} FilterSumBounded(s: seq<UnspentTransactionOut>, keep: UnspentTransactionOut -> bool)
    requires NonNegative(s)
    ensures 0 <= SumUnspent(Filter(s, keep)) <= SumUnspent(s)
    decreases |s|
  {
    if s != [] {
      var init, last := s[..|s| - 1], s[|s| - 1];
      assert s == init + [last];
      FilterAppend(init, [last], keep);
      FilterSumBounded(init, keep);
      assert Filter([last], keep) == (if keep(last) then [last] else []) by {
        assert [last][1..] == [];
      }
      SumUnspentAppend(Filter(init, keep), Filter([last], keep));
    }
  }

  // ---------------------------------------------------------------------------
  // The wallet

  /** A wallet: its private key and the public key stored beside it. */
  datatype Wallet = Wallet(privateKey: PrivateKey, publicKey: PublicKey)

  /** `self.public_key.toString()`: the wallet's address. */
  function Address(w: Wallet): string
  {
    KeyString(w.publicKey)
  }

  /** `self.private_key.publicKey().toString()`: the address signing compares against. */
  function SigningAddress(w: Wallet): string
  {
    KeyString(PublicKeyOf(w.privateKey))
  }

  /** The stored public key is the one derived from the private key, as the constructor leaves it. */
  predicate KeysAgree(w: Wallet)
  {
    w.publicKey == PublicKeyOf(w.privateKey)
  }

  /** `[u for u in utxos if u.address == address]` */
  function OwnedBy(utxos: seq<UnspentTransactionOut>, address: string): seq<UnspentTransactionOut>
  {
    Filter(utxos, (u: UnspentTransactionOut) => u.address == address)
  }

  /** Some pooled transaction has an input that spends `u`. */
  predicate SpentInPool(u: UnspentTransactionOut, pool: seq<Transaction>)
  {
    exists t, i :: t in pool && i in t.transactionIns && IsOutpoint(u, i.transactionOutId, i.transactionOutIndex)
  }

  /** All inputs of all pooled transactions, in pool order. */
  function PoolInputs(pool: seq<Transaction>): seq<TransactionIn>
  {
    if pool == [] then [] else pool[0].transactionIns + PoolInputs(pool[1..])
  }

  /** Some input in `ins` spends `u`. */
  predicate Referenced(u: UnspentTransactionOut, ins: seq<TransactionIn>)
  {
    exists i :: i in ins && IsOutpoint(u, i.transactionOutId, i.transactionOutIndex)
  }

  lemma {:induction false} PoolInputsSpend(u: UnspentTransactionOut, pool: seq<Transaction>)
    ensures Referenced(u, PoolInputs(pool)) <==> SpentInPool(u, pool)
  {
    if pool != [] {
      PoolInputsSpend(u, pool[1..]);
      var ins := PoolInputs(pool);
      assert ins == pool[0].transactionIns + PoolInputs(pool[1..]);
      if SpentInPool(u, pool) {
        var t, i :| t in pool && i in t.transactionIns && IsOutpoint(u, i.transactionOutId, i.transactionOutIndex);
        if t == pool[0] {
          assert i in ins;
        } else {
          assert t in pool[1..];
          assert SpentInPool(u, pool[1..]);
          var j :| j in PoolInputs(pool[1..]) && IsOutpoint(u, j.transactionOutId, j.transactionOutIndex);
          assert j in ins;
        }
      }
      if Referenced(u, ins) {
        var i :| i in ins && IsOutpoint(u, i.transactionOutId, i.transactionOutIndex);
        if i !in pool[0].transactionIns {
          assert Referenced(u, PoolInputs(pool[1..]));
          var t, j :| t in pool[1..] && j in t.transactionIns && IsOutpoint(u, j.transactionOutId, j.transactionOutIndex);
          assert t in pool;
        }
      }
    }
  }

  /**
    `filter_transaction_pool(utxos, pool)`: drop every output an input of a
    pooled transaction already spends; keep the others, in order and with
    their multiplicity.
   */
  function FilterTransactionPool(utxos: seq<UnspentTransactionOut>, pool: seq<Transaction>)
    : (r: seq<UnspentTransactionOut>)
    ensures forall u :: u in r <==> u in utxos && !SpentInPool(u, pool)
    ensures IsSubsequence(r, utxos)
  {
    var ins := PoolInputs(pool);
    var r := Filter(utxos, u => !Referenced(u, ins));
    FilterIsSubsequence(utxos, u => !Referenced(u, ins));
    assert forall u :: Referenced(u, ins) <==> SpentInPool(u, pool) by {
      forall u | true
        ensures Referenced(u, ins) <==> SpentInPool(u, pool)
      {
        PoolInputsSpend(u, pool);
      }
    }
    r
  }

  /** The pool filter keeps every unspent output as often as it occurs, and no spent one. */
  lemma PoolFilterCounts(utxos: seq<UnspentTransactionOut>, pool: seq<Transaction>)
    ensures forall u :: multiset(FilterTransactionPool(utxos, pool))[u] == if SpentInPool(u, pool) then 0 else multiset(utxos)[u]
  {
    var ins := PoolInputs(pool);
    FilterCounts(utxos, u => !Referenced(u, ins));
    forall u | true
      ensures Referenced(u, ins) <==> SpentInPool(u, pool)
    {
      PoolInputsSpend(u, pool);
    }
  }

  /** The outputs the wallet may spend: its own, minus those the pool already spends. */
  function Spendable(w: Wallet, utxos: seq<UnspentTransactionOut>, pool: seq<Transaction>): seq<UnspentTransactionOut>
  {
    FilterTransactionPool(OwnedBy(utxos, Address(w)), pool)
  }

  // ---------------------------------------------------------------------------
  // Selecting outputs for an amount

  /** Greedy search from position `i` for the first prefix whose total reaches `amount`. */
  function CoverFrom(s: seq<UnspentTransactionOut>, amount: int, i: nat): (k: Option<nat>)
    requires i <= |s|
    ensures k.Some? ==> i < k.value <= |s| && PrefixSum(s, k.value) >= amount
    ensures k.Some? ==> forall j :: i < j < k.value ==> PrefixSum(s, j) < amount
    ensures k.None? <==> forall j :: i < j <= |s| ==> PrefixSum(s, j) < amount
    decreases |s| - i
  {
    if i == |s| then None
    else if PrefixSum(s, i + 1) >= amount then Some(i + 1)
    else CoverFrom(s, amount, i + 1)
  }

  /**
    The number of outputs `transaction_outs_for_amount` takes: the length of
    the shortest non-empty prefix whose total reaches `amount`, or None when no
    prefix does.
   */
  function CoverLength(s: seq<UnspentTransactionOut>, amount: int): (k: Option<nat>)
    ensures k.Some? ==> 1 <= k.value <= |s| && PrefixSum(s, k.value) >= amount
    ensures k.Some? ==> forall j :: 1 <= j < k.value ==> PrefixSum(s, j) < amount
    ensures k.None? <==> forall j :: 1 <= j <= |s| ==> PrefixSum(s, j) < amount
  {
    CoverFrom(s, amount, 0)
  }

  /**
    With no negative amounts, selection fails exactly when all outputs together
    fall short, except that an empty list never covers anything, even an
    amount of zero or less.
   */
  lemma CoverFailsIffShort(s: seq<UnspentTransactionOut>, amount: int)
    requires NonNegative(s)
    ensures CoverLength(s, amount).None? <==> (|s| == 0 || SumUnspent(s) < amount)
  {
    if |s| > 0 {
      assert s[..|s|] == s;
      assert PrefixSum(s, |s|) == SumUnspent(s);
      if SumUnspent(s) < amount {
        forall j | 1 <= j <= |s|
          ensures PrefixSum(s, j) < amount
        {
          PrefixSumBounded(s, j);
        }
      }
    }
  }

  /**
    `transaction_outs_for_amount(utxos, amount)`: take outputs in order until
    their running total reaches `amount`; answer them and the excess, or None.
   */
  method TransactionOutsForAmount(utxos: seq<UnspentTransactionOut>, amount: int)
    returns (r: Option<(seq<UnspentTransactionOut>, int)>)
    ensures r.None? <==> CoverLength(utxos, amount).None?
    ensures r.Some? ==>
              var k := CoverLength(utxos, amount).value;
              r.value.0 == utxos[..k] && r.value.1 == PrefixSum(utxos, k) - amount && r.value.1 >= 0
  {
    var currentAmount := 0;
    var included: seq<UnspentTransactionOut> := [];
    for i := 0 to |utxos|
      invariant included == utxos[..i]
      invariant currentAmount == SumUnspent(included)
      invariant forall j :: 1 <= j <= i ==> PrefixSum(utxos, j) < amount
    {
      included := included + [utxos[i]];
      currentAmount := currentAmount + utxos[i].amount;
      assert included == utxos[..i + 1];
      assert PrefixSum(utxos, i + 1) == currentAmount;
      if currentAmount >= amount {
        return Some((included, currentAmount - amount));
      }
    }
    return None;
  }

  // ---------------------------------------------------------------------------
  // Building and signing a transaction

  /**
    `create_transaction_outs(recipient, amount, left_over)`: pay the recipient,
    and send any change back to the wallet.
   */
  function CreateTransactionOuts(w: Wallet, recipientAddress: string, amount: int, leftOverAmount: int)
    : (outs: seq<TransactionOut>)
    ensures |outs| == (if leftOverAmount == 0 then 1 else 2)
    ensures outs[0] == TransactionOut(recipientAddress, amount)
    ensures leftOverAmount != 0 ==> outs[1] == TransactionOut(Address(w), leftOverAmount)
    ensures SumOuts(outs) == amount + leftOverAmount
  {
    var transactionOut := TransactionOut(recipientAddress, amount);
    if leftOverAmount == 0 then [transactionOut]
    else
      var outs := [transactionOut, TransactionOut(Address(w), leftOverAmount)];
      assert outs[..1] == [transactionOut] && outs[..1][..0] == [];
      assert SumOuts(outs[..1]) == amount;
      outs
  }

  /** The wallet may sign input `i`: the output it spends exists and belongs to the signing key. */
  predicate CanSign(w: Wallet, i: TransactionIn, utxos: seq<UnspentTransactionOut>)
  {
    var found := FindUnspentTransactionOut(i.transactionOutId, i.transactionOutIndex, utxos);
    found.Some? && found.value.address == SigningAddress(w)
  }

  /** One signature of the transaction id per input, or None when an input cannot be signed. */
  function Signatures(w: Wallet, t: Transaction, utxos: seq<UnspentTransactionOut>, nonce: nat -> nat)
    : Option<seq<string>>
  {
    if forall k :: 0 <= k < |t.transactionIns| ==> CanSign(w, t.transactionIns[k], utxos)
    then Some(seq(|t.transactionIns|, k requires 0 <= k => Sign(t.id, w.privateKey, nonce(k))))
    else None
  }

  /**
    Signing fails exactly when some input spends an output that is missing
    from `utxos` or that does not belong to the signing key.
   */
  lemma SigningFailsIff(w: Wallet, t: Transaction, utxos: seq<UnspentTransactionOut>, nonce: nat -> nat)
    ensures Signatures(w, t, utxos, nonce).None?
            <==> exists k :: 0 <= k < |t.transactionIns| && (
                   || FindUnspentTransactionOut(t.transactionIns[k].transactionOutId, t.transactionIns[k].transactionOutIndex, utxos).None?
                   || FindUnspentTransactionOut(t.transactionIns[k].transactionOutId, t.transactionIns[k].transactionOutIndex, utxos).value.address
                      != SigningAddress(w))
  {
  }

  /**
    `get_transaction_signatures(transaction, utxos)`; the library's random
    nonce for the k-th signature is `nonce(k)`.
   */
  method GetTransactionSignatures(w: Wallet, t: Transaction, utxos: seq<UnspentTransactionOut>, nonce: nat -> nat)
    returns (r: Option<seq<string>>)
    ensures r.Some? ==> |r.value| == |t.transactionIns|
    ensures r.Some? ==> forall k :: 0 <= k < |r.value| ==> r.value[k] == Sign(t.id, w.privateKey, nonce(k))
    ensures r == Signatures(w, t, utxos, nonce)
  {
    var signatures: seq<string> := [];
    for i := 0 to |t.transactionIns|
      invariant |signatures| == i
      invariant forall k :: 0 <= k < i ==> CanSign(w, t.transactionIns[k], utxos)
      invariant forall k :: 0 <= k < i ==> signatures[k] == Sign(t.id, w.privateKey, nonce(k))
    {
      var transactionIn := t.transactionIns[i];
      var referenced := FindUnspentTransactionOut(transactionIn.transactionOutId, transactionIn.transactionOutIndex, utxos);
      if referenced.None? {
        return None;
      }
      if SigningAddress(w) != referenced.value.address {
        return None;
      }
      signatures := signatures + [Sign(t.id, w.privateKey, nonce(i))];
    }
    assert signatures == Signatures(w, t, utxos, nonce).value;
    return Some(signatures);
  }

  /** Inputs spending `picked`, in order, with empty signatures. */
  function Unsigned(picked: seq<UnspentTransactionOut>): seq<TransactionIn>
  {
    seq(|picked|, k requires 0 <= k < |picked| => TransactionIn(picked[k].transactionOutId, picked[k].transactionOutIndex, ""))
  }

  /** The inputs with their signatures filled in, each keeping the output it spends. */
  function WithSignatures(ins: seq<TransactionIn>, signatures: seq<string>): seq<TransactionIn>
    requires |signatures| == |ins|
  {
    seq(|ins|, k requires 0 <= k < |ins| => TransactionIn(ins[k].transactionOutId, ins[k].transactionOutIndex, signatures[k]))
  }

  /** What `create_transaction` answers, step by step as wallet.py builds it. */
  function BuildTransaction(w: Wallet, recipientAddress: string, amount: int, utxos: seq<UnspentTransactionOut>,
                            pool: seq<Transaction>, kind: TransactionType, nonce: nat -> nat): Option<Transaction>
  {
    BuildFrom(w, recipientAddress, amount, Spendable(w, utxos, pool), utxos, kind, nonce)
  }

  /** The transaction built from the spendable outputs `mine`, signed against `utxos`. */
  function BuildFrom(w: Wallet, recipientAddress: string, amount: int, mine: seq<UnspentTransactionOut>,
                     utxos: seq<UnspentTransactionOut>, kind: TransactionType, nonce: nat -> nat): Option<Transaction>
  {
    match CoverLength(mine, amount)
    case None => None
    case Some(k) =>
      var outs := CreateTransactionOuts(w, recipientAddress, amount, PrefixSum(mine, k) - amount);
      var unsigned := NewTransaction(Unsigned(mine[..k]), outs, kind);
      match Signatures(w, unsigned, utxos, nonce)
      case None => None
      case Some(signatures) => Some(unsigned.(transactionIns := WithSignatures(unsigned.transactionIns, signatures)))
  }

  /**
    `tx` spends, in order, the first `k` outputs of `mine`, the fewest whose
    total reaches `amount`; it pays the recipient and the change, and each
    input carries a signature of the id computed before signing.
   */
  predicate WellBuilt(tx: Transaction, w: Wallet, recipientAddress: string, amount: int,
                      mine: seq<UnspentTransactionOut>, kind: TransactionType, nonce: nat -> nat)
  {
    && CoverLength(mine, amount).Some?
    && var k := CoverLength(mine, amount).value;
    && tx.kind == kind
    && tx.transactionOuts == CreateTransactionOuts(w, recipientAddress, amount, PrefixSum(mine, k) - amount)
    && tx.id == TransactionId(Unsigned(mine[..k]), tx.transactionOuts, kind)
    && |tx.transactionIns| == k
    && forall i :: 0 <= i < k ==>
         tx.transactionIns[i] == TransactionIn(mine[i].transactionOutId, mine[i].transactionOutIndex,
                                               Sign(tx.id, w.privateKey, nonce(i)))
  }

  /** The outputs the wallet may spend are exactly its own outputs that no pooled transaction spends. */
  lemma SpendableOutputs(w: Wallet, utxos: seq<UnspentTransactionOut>, pool: seq<Transaction>)
    ensures forall u :: u in Spendable(w, utxos, pool) <==> u in utxos && u.address == Address(w) && !SpentInPool(u, pool)
    ensures IsSubsequence(Spendable(w, utxos, pool), OwnedBy(utxos, Address(w)))
  {
  }

  /** A built transaction fails where funds fall short, and otherwise, when signing succeeds, is well built. */
  lemma BuiltTransactionShape(w: Wallet, recipientAddress: string, amount: int, mine: seq<UnspentTransactionOut>,
                              utxos: seq<UnspentTransactionOut>, kind: TransactionType, nonce: nat -> nat)
    ensures var r := BuildFrom(w, recipientAddress, amount, mine, utxos, kind, nonce);
            && (CoverLength(mine, amount).None? ==> r.None?)
            && (r.Some? ==> WellBuilt(r.value, w, recipientAddress, amount, mine, kind, nonce))
  {
    var cover := CoverLength(mine, amount);
    if cover.Some? {
      var k := cover.value;
      var outs := CreateTransactionOuts(w, recipientAddress, amount, PrefixSum(mine, k) - amount);
      var unsigned := NewTransaction(Unsigned(mine[..k]), outs, kind);
      var signatures := Signatures(w, unsigned, utxos, nonce);
      if signatures.Some? {
        var tx := unsigned.(transactionIns := WithSignatures(unsigned.transactionIns, signatures.value));
        assert BuildFrom(w, recipientAddress, amount, mine, utxos, kind, nonce) == Some(tx);
        assert tx.id == unsigned.id;
      }
    }
  }

  /** Once outputs are chosen and signing succeeds, the built transaction is the unsigned one with signatures filled in. */
  lemma BuildFromSigned(w: Wallet, recipientAddress: string, amount: int, mine: seq<UnspentTransactionOut>,
                        utxos: seq<UnspentTransactionOut>, kind: TransactionType, nonce: nat -> nat,
                        k: nat, signatures: seq<string>)
    requires CoverLength(mine, amount) == Some(k)
    requires Signatures(w, NewTransaction(Unsigned(mine[..k]), CreateTransactionOuts(w, recipientAddress, amount, PrefixSum(mine, k) - amount), kind),
                        utxos, nonce) == Some(signatures)
    ensures var unsigned := NewTransaction(Unsigned(mine[..k]), CreateTransactionOuts(w, recipientAddress, amount, PrefixSum(mine, k) - amount), kind);
            |signatures| == |unsigned.transactionIns|
            && BuildFrom(w, recipientAddress, amount, mine, utxos, kind, nonce)
               == Some(unsigned.(transactionIns := WithSignatures(unsigned.transactionIns, signatures)))
  {
  }

  /**
    `create_transaction(recipient, amount, utxos, pool, type)`: spend a prefix
    of the wallet's spendable outputs that covers `amount`, pay the recipient
    and the change, and sign every input over the id of the unsigned
    transaction. None when the funds fall short or an input cannot be signed.
   */
  method CreateTransaction(w: Wallet, recipientAddress: string, amount: int, utxos: seq<UnspentTransactionOut>,
                           pool: seq<Transaction>, kind: TransactionType, nonce: nat -> nat)
    returns (r: Option<Transaction>)
    ensures r == BuildTransaction(w, recipientAddress, amount, utxos, pool, kind, nonce)
    ensures CoverLength(Spendable(w, utxos, pool), amount).None? ==> r.None?
    ensures r.Some? ==> WellBuilt(r.value, w, recipientAddress, amount, Spendable(w, utxos, pool), kind, nonce)
  {
    var myAddress := Address(w);
    var myUnspent := FilterTransactionPool(OwnedBy(utxos, myAddress), pool);
    var ret := TransactionOutsForAmount(myUnspent, amount);
    BuiltTransactionShape(w, recipientAddress, amount, myUnspent, utxos, kind, nonce);
    if ret.None? {
      return None;
    }
    var (included, leftOverAmount) := ret.value;
    ghost var k := CoverLength(myUnspent, amount).value;
    assert included == myUnspent[..k] && leftOverAmount == PrefixSum(myUnspent, k) - amount;
    var transactionOuts := CreateTransactionOuts(w, recipientAddress, amount, leftOverAmount);
    var transaction := NewTransaction(Unsigned(included), transactionOuts, kind);
    ghost var unsigned := NewTransaction(Unsigned(myUnspent[..k]), CreateTransactionOuts(w, recipientAddress, amount, PrefixSum(myUnspent, k) - amount), kind);
    assert transaction == unsigned;
    var signatures := GetTransactionSignatures(w, transaction, utxos, nonce);
    if signatures.None? {
      return None;
    }
    assert Signatures(w, unsigned, utxos, nonce) == Some(signatures.value);
    var ins := SignInputs(transaction.transactionIns, signatures.value);
    BuildFromSigned(w, recipientAddress, amount, myUnspent, utxos, kind, nonce, k, signatures.value);
    transaction := transaction.(transactionIns := ins);
    return Some(transaction);
  }

  /**
    The signing loop of `create_transaction`: the i-th input receives the i-th
    signature, keeping the output it spends; the id is not recomputed.
   */
  method SignInputs(ins: seq<TransactionIn>, signatures: seq<string>) returns (signed: seq<TransactionIn>)
    requires |signatures| == |ins|
    ensures |signed| == |ins|
    ensures forall k :: 0 <= k < |ins| ==>
              signed[k].transactionOutId == ins[k].transactionOutId
              && signed[k].transactionOutIndex == ins[k].transactionOutIndex
              && signed[k].signature == signatures[k]
    ensures signed == WithSignatures(ins, signatures)
  {
    signed := ins;
    for i := 0 to |signed|
      invariant |signed| == |ins|
      invariant forall k :: 0 <= k < i ==> signed[k] == TransactionIn(ins[k].transactionOutId, ins[k].transactionOutIndex, signatures[k])
      invariant forall k :: i <= k < |signed| ==> signed[k] == ins[k]
    {
      signed := signed[i := TransactionIn(signed[i].transactionOutId, signed[i].transactionOutIndex, signatures[i])];
    }
  }

  // ---------------------------------------------------------------------------
  // Queries

  /**
    `get_account_balance(utxos)`: the total of the outputs addressed to the
    wallet, 0 when there are none.
   */
  function GetAccountBalance(w: Wallet, utxos: seq<UnspentTransactionOut>): (balance: int)
    ensures (forall k :: 0 <= k < |utxos| ==> utxos[k].address != Address(w)) ==> balance == 0
    ensures NonNegative(utxos) ==> 0 <= balance <= SumUnspent(utxos)
  {
    var owned := OwnedBy(utxos, Address(w));
    assert NonNegative(utxos) ==> 0 <= SumUnspent(owned) <= SumUnspent(utxos) by {
      if NonNegative(utxos) {
        FilterSumBounded(utxos, (u: UnspentTransactionOut) => u.address == Address(w));
      }
    }
    assert (forall k :: 0 <= k < |utxos| ==> utxos[k].address != Address(w)) ==> owned == [] by {
      if owned != [] {
        assert owned[0] in owned;
      }
    }
    SumUnspent(owned)
  }

  /** Balances add up: the balance over two lists of outputs is the sum of the two balances. */
  lemma BalanceAppend(w: Wallet, a: seq<UnspentTransactionOut>, b: seq<UnspentTransactionOut>)
    ensures GetAccountBalance(w, a + b) == GetAccountBalance(w, a) + GetAccountBalance(w, b)
  {
    FilterAppend(a, b, (u: UnspentTransactionOut) => u.address == Address(w));
    SumUnspentAppend(OwnedBy(a, Address(w)), OwnedBy(b, Address(w)));
  }

  /** A single output adds its amount exactly when it is addressed to the wallet. */
  lemma BalanceSingle(w: Wallet, u: UnspentTransactionOut)
    ensures GetAccountBalance(w, [u]) == if u.address == Address(w) then u.amount else 0
  {
    assert [u][1..] == [];
    assert OwnedBy([u], Address(w)) == if u.address == Address(w) then [u] else [];
    assert [u][..0] == [];
    assert SumUnspent([u]) == u.amount;
    assert GetAccountBalance(w, [u]) == SumUnspent(OwnedBy([u], Address(w)));
  }

  /** `transaction.transaction_ins[0].signature` verifies under the wallet's public key. */
  predicate SignedBy(t: Transaction, w: Wallet)
    requires |t.transactionIns| > 0
  {
    Verify(t.id, t.transactionIns[0].signature, w.publicKey)
  }

  /** A transaction of `kind` without inputs: reading its first input raises IndexError. */
  predicate Inputless(t: Transaction, kind: TransactionType)
  {
    t.kind == kind && |t.transactionIns| == 0
  }

  /** A VALIDATOR transaction whose first input carries the wallet's signature. */
  predicate GrantsValidation(t: Transaction, w: Wallet)
  {
    t.kind == Validator && |t.transactionIns| > 0 && SignedBy(t, w)
  }

  /**
    `can_account_validate(transactions)`: some VALIDATOR transaction carries the
    wallet's signature on its first input. None where the scan raises
    IndexError, on a VALIDATOR transaction without inputs met before an answer.
   */
  function CanAccountValidate(w: Wallet, transactions: seq<Transaction>): (r: Option<bool>)
    ensures r == Some(true) ==>
              exists k :: 0 <= k < |transactions| && transactions[k].kind == Validator
                          && |transactions[k].transactionIns| > 0 && SignedBy(transactions[k], w)
    ensures r.None? ==> exists k :: 0 <= k < |transactions| && Inputless(transactions[k], Validator)
    ensures (forall k :: 0 <= k < |transactions| ==> !Inputless(transactions[k], Validator)) ==>
              r == Some(exists k :: 0 <= k < |transactions| && transactions[k].kind == Validator
                                    && |transactions[k].transactionIns| > 0 && SignedBy(transactions[k], w))
  {
    if transactions == [] then Some(false)
    else
      var t := transactions[0];
      var rest := CanAccountValidate(w, transactions[1..]);
      assert forall k :: 1 <= k < |transactions| ==> transactions[k] == transactions[1..][k - 1];
      if t.kind == Validator then
        if |t.transactionIns| == 0 then None
        else if SignedBy(t, w) then Some(true)
        else rest
      else rest
  }

  /** Position `k` is where the scan raises: an inputless VALIDATOR with no signed one before it. */
  ghost predicate RaisesAt(w: Wallet, ts: seq<Transaction>, k: int)
  {
    0 <= k < |ts| && Inputless(ts[k], Validator) && forall j :: 0 <= j < k ==> !GrantsValidation(ts[j], w)
  }

  /** Position `k` is where the scan answers True: a signed VALIDATOR with no inputless one before it. */
  ghost predicate GrantsAt(w: Wallet, ts: seq<Transaction>, k: int)
  {
    0 <= k < |ts| && GrantsValidation(ts[k], w) && forall j :: 0 <= j < k ==> !Inputless(ts[j], Validator)
  }

  /** Past a first transaction that gives no answer, positions shift by one. */
  lemma ShiftAnswer(w: Wallet, ts: seq<Transaction>, k: int)
    requires |ts| > 0 && !Inputless(ts[0], Validator) && !GrantsValidation(ts[0], w) && k >= 1
    ensures RaisesAt(w, ts, k) <==> RaisesAt(w, ts[1..], k - 1)
    ensures GrantsAt(w, ts, k) <==> GrantsAt(w, ts[1..], k - 1)
  {
    assert forall j :: 1 <= j < |ts| ==> ts[j] == ts[1..][j - 1];
  }

  /**
    The scan stops at the first VALIDATOR transaction that answers: it raises
    IndexError when that one has no input, and returns True when it is signed.
   */
  lemma {:induction false} CanAccountValidateFirstAnswer(w: Wallet, ts: seq<Transaction>)
    ensures CanAccountValidate(w, ts).None? <==> exists k :: RaisesAt(w, ts, k)
    ensures CanAccountValidate(w, ts) == Some(true) <==> exists k :: GrantsAt(w, ts, k)
  {
    if ts != [] {
      var rest := ts[1..];
      if Inputless(ts[0], Validator) {
        assert RaisesAt(w, ts, 0);
      } else if GrantsValidation(ts[0], w) {
        assert GrantsAt(w, ts, 0);
      } else {
        CanAccountValidateFirstAnswer(w, rest);
        assert CanAccountValidate(w, ts) == CanAccountValidate(w, rest);
        if k :| RaisesAt(w, ts, k) {
          ShiftAnswer(w, ts, k);
        }
        if k :| RaisesAt(w, rest, k) {
          ShiftAnswer(w, ts, k + 1);
        }
        if k :| GrantsAt(w, ts, k) {
          ShiftAnswer(w, ts, k);
        }
        if k :| GrantsAt(w, rest, k) {
          ShiftAnswer(w, ts, k + 1);
        }
      }
    }
  }

  /** The amounts of `outs` paid to CHAIN_ADDRESS. */
  function StakedAmount(outs: seq<TransactionOut>): int
  {
    if outs == [] then 0
    else StakedAmount(outs[..|outs| - 1]) + (if outs[|outs| - 1].address == CHAIN_ADDRESS then outs[|outs| - 1].amount else 0)
  }

  /** What one transaction adds to the stake: its payments to CHAIN_ADDRESS if it is a STAKE signed by the wallet. */
  function StakeOfTransaction(w: Wallet, t: Transaction): int
    requires !Inputless(t, Stake)
  {
    if t.kind == Stake && SignedBy(t, w) then StakedAmount(t.transactionOuts) else 0
  }

  /**
    The stake `get_account_stake(transactions)` answers, or None where it
    raises IndexError on a STAKE transaction without inputs.
   */
  function AccountStake(w: Wallet, transactions: seq<Transaction>): (r: Option<int>)
    ensures r.None? <==> exists k :: 0 <= k < |transactions| && Inputless(transactions[k], Stake)
  {
    if transactions == [] then Some(0)
    else
      var last := transactions[|transactions| - 1];
      var prior := AccountStake(w, transactions[..|transactions| - 1]);
      assert forall k :: 0 <= k < |transactions| - 1 ==> transactions[k] == transactions[..|transactions| - 1][k];
      if Inputless(last, Stake) || prior.None? then None
      else Some(prior.value + StakeOfTransaction(w, last))
  }

  /** Stakes add up over a history split in two. */
  lemma {:induction false} StakeAppend(w: Wallet, a: seq<Transaction>, b: seq<Transaction>)
    requires AccountStake(w, a).Some? && AccountStake(w, b).Some?
    ensures AccountStake(w, a + b) == Some(AccountStake(w, a).value + AccountStake(w, b).value)
    decreases |b|
  {
    if b == [] {
      assert a + b == a;
    } else {
      var init := b[..|b| - 1];
      assert (a + b)[..|a + b| - 1] == a + init;
      assert forall k :: 0 <= k < |init| ==> init[k] == b[k];
      StakeAppend(w, a, init);
    }
  }

  /** `get_account_stake(transactions)`. */
  method GetAccountStake(w: Wallet, transactions: seq<Transaction>) returns (r: Option<int>)
    ensures r == AccountStake(w, transactions)
  {
    var stakeAmount := 0;
    for i := 0 to |transactions|
      invariant AccountStake(w, transactions[..i]) == Some(stakeAmount)
    {
      var t := transactions[i];
      assert transactions[..i + 1][..i] == transactions[..i];
      if t.kind == Stake {
        if |t.transactionIns| == 0 {
          return None;
        }
        if Verify(t.id, t.transactionIns[0].signature, w.publicKey) {
          var outs := t.transactionOuts;
          ghost var before := stakeAmount;
          for j := 0 to |outs|
            invariant stakeAmount == before + StakedAmount(outs[..j])
          {
            assert outs[..j + 1][..j] == outs[..j];
            if outs[j].address == CHAIN_ADDRESS {
              stakeAmount := stakeAmount + outs[j].amount;
            }
          }
          assert outs[..|outs|] == outs;
        }
      }
    }
    assert transactions[..|transactions|] == transactions;
    return Some(stakeAmount);
  }

  // ---------------------------------------------------------------------------
  // What the queries say about transactions the wallet builds

  /** No two listed outputs share an outpoint unless they are the same output. */
  predicate UniqueOutpoints(utxos: seq<UnspentTransactionOut>)
  {
    forall i, j :: 0 <= i < |utxos| && 0 <= j < |utxos| && IsOutpoint(utxos[i], utxos[j].transactionOutId, utxos[j].transactionOutIndex)
                   ==> utxos[i] == utxos[j]
  }

  /**
    A wallet whose keys agree can sign every output it owns in a list without
    duplicate outpoints, so building fails only when funds fall short.
   */
  lemma BuildFailsOnlyOnFunds(w: Wallet, recipientAddress: string, amount: int, utxos: seq<UnspentTransactionOut>,
                              pool: seq<Transaction>, kind: TransactionType, nonce: nat -> nat)
    requires KeysAgree(w) && UniqueOutpoints(utxos)
    ensures BuildTransaction(w, recipientAddress, amount, utxos, pool, kind, nonce).None?
            <==> CoverLength(Spendable(w, utxos, pool), amount).None?
  {
    var mine := Spendable(w, utxos, pool);
    var cover := CoverLength(mine, amount);
    if cover.Some? {
      var k := cover.value;
      var outs := CreateTransactionOuts(w, recipientAddress, amount, PrefixSum(mine, k) - amount);
      var unsigned := NewTransaction(Unsigned(mine[..k]), outs, kind);
      forall i | 0 <= i < |unsigned.transactionIns|
        ensures CanSign(w, unsigned.transactionIns[i], utxos)
      {
        var u := mine[i];
        assert u in mine;
        var p :| 0 <= p < |utxos| && utxos[p] == u;
        var found := FindUnspentTransactionOut(u.transactionOutId, u.transactionOutIndex, utxos);
        assert IsOutpoint(utxos[p], u.transactionOutId, u.transactionOutIndex);
        var q :| 0 <= q < |utxos| && utxos[q] == found.value && IsOutpoint(found.value, u.transactionOutId, u.transactionOutIndex);
        assert found.value == u;
      }
    }
  }

  /**
    With non-negative amounts, a transaction the wallet manages to build never
    spends more than the wallet's balance.
   */
  lemma BuildNeverExceedsBalance(w: Wallet, recipientAddress: string, amount: int, utxos: seq<UnspentTransactionOut>,
                                 pool: seq<Transaction>, kind: TransactionType, nonce: nat -> nat)
    requires NonNegative(utxos)
    requires BuildTransaction(w, recipientAddress, amount, utxos, pool, kind, nonce).Some?
    ensures GetAccountBalance(w, utxos) >= amount
  {
    var owned := OwnedBy(utxos, Address(w));
    var mine := Spendable(w, utxos, pool);
    var k := CoverLength(mine, amount).value;
    assert NonNegative(owned) by {
      forall j | 0 <= j < |owned|
        ensures owned[j].amount >= 0
      {
        assert owned[j] in utxos;
      }
    }
    var ins := PoolInputs(pool);
    assert mine == Filter(owned, u => !Referenced(u, ins));
    assert NonNegative(mine) by {
      forall j | 0 <= j < |mine|
        ensures mine[j].amount >= 0
      {
        assert mine[j] in owned;
      }
    }
    PrefixSumBounded(mine, k);
    FilterSumBounded(owned, u => !Referenced(u, ins));
  }

  /** With agreeing keys and sound ECDSA, a well-built transaction carries the wallet's signature on its first input. */
  lemma WellBuiltIsSigned(tx: Transaction, w: Wallet, recipientAddress: string, amount: int,
                          mine: seq<UnspentTransactionOut>, kind: TransactionType, nonce: nat -> nat)
    requires SignaturesVerify() && KeysAgree(w)
    requires WellBuilt(tx, w, recipientAddress, amount, mine, kind, nonce)
    ensures |tx.transactionIns| > 0 && SignedBy(tx, w)
  {
    assert tx.transactionIns[0].signature == Sign(tx.id, w.privateKey, nonce(0));
  }

  /**
    A VALIDATOR transaction the wallet built makes it a validator, provided the
    wallet's keys agree and ECDSA signatures verify.
   */
  lemma BuiltValidatorGrantIsRecognised(w: Wallet, amount: int, utxos: seq<UnspentTransactionOut>,
                                        pool: seq<Transaction>, nonce: nat -> nat, recipientAddress: string)
    requires SignaturesVerify() && KeysAgree(w)
    requires BuildTransaction(w, recipientAddress, amount, utxos, pool, Validator, nonce).Some?
    ensures CanAccountValidate(w, [BuildTransaction(w, recipientAddress, amount, utxos, pool, Validator, nonce).value])
            == Some(true)
  {
    var mine := Spendable(w, utxos, pool);
    BuiltTransactionShape(w, recipientAddress, amount, mine, utxos, Validator, nonce);
    var tx := BuildTransaction(w, recipientAddress, amount, utxos, pool, Validator, nonce).value;
    WellBuiltIsSigned(tx, w, recipientAddress, amount, mine, Validator, nonce);
  }

  /**
    A STAKE transaction the wallet built, paying `amount` to CHAIN_ADDRESS,
    adds exactly `amount` to its stake, provided its keys agree, ECDSA
    signatures verify and its change does not go to CHAIN_ADDRESS.
   */
  lemma BuiltStakeIsCounted(w: Wallet, amount: int, utxos: seq<UnspentTransactionOut>,
                            pool: seq<Transaction>, nonce: nat -> nat)
    requires SignaturesVerify() && KeysAgree(w) && Address(w) != CHAIN_ADDRESS
    requires BuildTransaction(w, CHAIN_ADDRESS, amount, utxos, pool, Stake, nonce).Some?
    ensures AccountStake(w, [BuildTransaction(w, CHAIN_ADDRESS, amount, utxos, pool, Stake, nonce).value]) == Some(amount)
  {
    var mine := Spendable(w, utxos, pool);
    BuiltTransactionShape(w, CHAIN_ADDRESS, amount, mine, utxos, Stake, nonce);
    var tx := BuildTransaction(w, CHAIN_ADDRESS, amount, utxos, pool, Stake, nonce).value;
    WellBuiltStakeIsCounted(tx, w, amount, mine, nonce);
  }

  lemma WellBuiltStakeIsCounted(tx: Transaction, w: Wallet, amount: int, mine: seq<UnspentTransactionOut>, nonce: nat -> nat)
    requires SignaturesVerify() && KeysAgree(w) && Address(w) != CHAIN_ADDRESS
    requires WellBuilt(tx, w, CHAIN_ADDRESS, amount, mine, Stake, nonce)
    ensures AccountStake(w, [tx]) == Some(amount)
  {
    WellBuiltIsSigned(tx, w, CHAIN_ADDRESS, amount, mine, Stake, nonce);
    var k := CoverLength(mine, amount).value;
    StakedAmountOfOuts(w, amount, PrefixSum(mine, k) - amount);
    StakeOfSignedStake(w, tx);
  }

  /** Of the outputs `create_transaction_outs` makes, only the payment to CHAIN_ADDRESS counts as stake. */
  lemma StakedAmountOfOuts(w: Wallet, amount: int, leftOverAmount: int)
    requires Address(w) != CHAIN_ADDRESS
    ensures StakedAmount(CreateTransactionOuts(w, CHAIN_ADDRESS, amount, leftOverAmount)) == amount
  {
    var outs := CreateTransactionOuts(w, CHAIN_ADDRESS, amount, leftOverAmount);
    if leftOverAmount == 0 {
      assert outs[..0] == [];
    } else {
      assert outs[..1] == [outs[0]] && outs[..1][..0] == [];
      assert StakedAmount(outs[..1]) == amount;
    }
  }

  /** A single STAKE transaction signed by the wallet stakes what it pays to CHAIN_ADDRESS. */
  lemma StakeOfSignedStake(w: Wallet, tx: Transaction)
    requires tx.kind == Stake && |tx.transactionIns| > 0 && SignedBy(tx, w)
    ensures AccountStake(w, [tx]) == Some(StakedAmount(tx.transactionOuts))
  {
    assert [tx][..0] == [];
  }
}
