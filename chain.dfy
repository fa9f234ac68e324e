/**
  The proof-of-work chain manager of blockchain/blockchain.py: a chain of
  mined blocks and a pool of transactions waiting for the next block. Block
  hashes are the hex digests of `PowBlock.HexHash`.
 */
module Chain {
  import opened Wrappers
  import opened Externals
  import opened Text
  import PowBlock
  import Transfer

  /**
    `Blockchain.validate_proof(previous_proof, proof, previous_hash)`: the sha256
    hex digest of the three written one after the other ends in "0000".
   */
  function ValidateProof(previousProof: int, proof: int, previousHash: string): bool
  {
    var digest := Sha256Hex(Show(previousProof) + Show(proof) + previousHash);
    |digest| >= 4 && digest[|digest| - 4..] == "0000"
  }

  /** The two checks `valid_chain` makes on an adjacent pair: hash link and proof. */
  predicate Links(previous: PowBlock.Block, block: PowBlock.Block)
  {
    var previousHash := PowBlock.HexHash(previous);
    block.previousHash == previousHash && ValidateProof(previous.proofOfWork, block.proofOfWork, previousHash)
  }

  /** Every block after the first links to the one before it. */
  predicate IsValidChain(chain: seq<PowBlock.Block>)
  {
    forall i :: 1 <= i < |chain| ==> Links(chain[i - 1], chain[i])
  }

  /** A valid chain extended by a block that links to its last block is valid. */
  lemma ExtendValidChain(chain: seq<PowBlock.Block>, block: PowBlock.Block)
    requires |chain| > 0 && IsValidChain(chain) && Links(chain[|chain| - 1], block)
    ensures IsValidChain(chain + [block])
  {
    var extended := chain + [block];
    forall i | 1 <= i < |extended|
      ensures Links(extended[i - 1], extended[i])
    {
      if i < |chain| {
        assert extended[i - 1] == chain[i - 1] && extended[i] == chain[i];
      }
    }
  }

  class Blockchain {
    var unverifiedTransactions: seq<Transfer.Transaction>
    var chain: seq<PowBlock.Block>
    var blockMining: bool

    /** The chain is never empty. */
    ghost predicate Valid()
      reads this
    {
      |chain| > 0
    }

    /** `Blockchain()`: the chain is the genesis block alone, the pool is empty, no mining is cancelled. */
    constructor (genesis: PowBlock.Block)
      ensures Valid()
      ensures chain == [genesis] && unverifiedTransactions == [] && !blockMining
    {
      unverifiedTransactions := [];
      chain := [genesis];
      blockMining := false;
    }

    /** `last_block` */
    function LastBlock(): (last: PowBlock.Block)
      reads this
      requires Valid()
      ensures last == chain[|chain| - 1]
    {
      chain[|chain| - 1]
    }

    /**
      `create_new_block(proof)` at clock reading `now`: mine the pool into a new
      block that points at the hash of the last block, and empty the pool. The
      chain stays valid when `proof` passes `validate_proof`.
     */
    method CreateNewBlock(proof: int, now: int) returns (block: PowBlock.Block)
      requires Valid()
      modifies this
      ensures Valid()
      ensures block.index == |old(chain)| + 1 && block.proofOfWork == proof && block.timestamp == now
      ensures block.previousHash == PowBlock.HexHash(old(LastBlock()))
      ensures block.transactions == old(unverifiedTransactions)
      ensures chain == old(chain) + [block] && block == LastBlock()
      ensures unverifiedTransactions == [] && blockMining == old(blockMining)
      ensures (IsValidChain(old(chain)) && ValidateProof(old(LastBlock()).proofOfWork, proof, block.previousHash))
              ==> IsValidChain(chain)
    {
      var previous := LastBlock();
      block := PowBlock.New(|chain| + 1, proof, PowBlock.HexHash(previous), unverifiedTransactions, now);
      if IsValidChain(chain) && ValidateProof(previous.proofOfWork, proof, block.previousHash) {
        ExtendValidChain(chain, block);
      }
      chain := chain + [block];
      unverifiedTransactions := [];
    }

    /**
      `create_new_transaction(sender, recipient, amount)`: add one transaction to
      the end of the pool and answer the index of the block that will hold it.
     */
    method CreateNewTransaction(sender: string, recipient: string, amount: int) returns (index: int)
      requires Valid()
      modifies this
      ensures Valid()
      ensures unverifiedTransactions == old(unverifiedTransactions) + [Transfer.Transaction(sender, recipient, amount)]
      ensures chain == old(chain) && blockMining == old(blockMining)
      ensures index == LastBlock().index + 1
    {
      unverifiedTransactions := unverifiedTransactions + [Transfer.Transaction(sender, recipient, amount)];
      index := LastBlock().index + 1;
    }

    /** `valid_chain(chain)`: walk the chain and check each adjacent pair. */
    method ValidChain(candidate: seq<PowBlock.Block>) returns (valid: bool)
      requires |candidate| > 0
      ensures valid <==> IsValidChain(candidate)
    {
      var lastBlock := candidate[0];
      var currentIndex := 1;
      while currentIndex < |candidate|
        invariant 1 <= currentIndex <= |candidate|
        invariant lastBlock == candidate[currentIndex - 1]
        invariant forall i :: 1 <= i < currentIndex ==> Links(candidate[i - 1], candidate[i])
      {
        var block := candidate[currentIndex];
        var lastBlockHash := PowBlock.HexHash(lastBlock);
        if block.previousHash != lastBlockHash {
          return false;
        }
        if !ValidateProof(lastBlock.proofOfWork, block.proofOfWork, lastBlockHash) {
          return false;
        }
        lastBlock := block;
        currentIndex := currentIndex + 1;
      }
      return true;
    }

    /**
      `replace_chain(chain_data)`: adopt the candidate exactly when it is valid;
      there is no comparison of lengths.
     */
    method ReplaceChain(candidate: seq<PowBlock.Block>) returns (replaced: bool)
      requires Valid() && |candidate| > 0
      modifies this
      ensures Valid()
      ensures replaced == IsValidChain(candidate)
      ensures chain == (if replaced then candidate else old(chain))
      ensures unverifiedTransactions == old(unverifiedTransactions) && blockMining == old(blockMining)
    {
      replaced := ValidChain(candidate);
      if replaced {
        chain := candidate;
      }
    }

    /** `replace_pool(new_pool)`: the pool becomes the new list, in order; the old pool is dropped. */
    method ReplacePool(newPool: seq<Transfer.Transaction>)
      requires Valid()
      modifies this
      ensures Valid()
      ensures unverifiedTransactions == newPool
      ensures chain == old(chain) && blockMining == old(blockMining)
    {
      unverifiedTransactions := [];
      var i := 0;
      while i < |newPool|
        invariant 0 <= i <= |newPool|
        invariant unverifiedTransactions == newPool[..i]
        invariant chain == old(chain) && blockMining == old(blockMining)
      {
        unverifiedTransactions := unverifiedTransactions + [newPool[i]];
        i := i + 1;
      }
    }

    /**
      `generate_proof(last_block)`, trying at most `fuel` candidates: the
      smallest n >= 0 that passes `validate_proof` against the last block, or
      None when mining is cancelled (or, in the model only, no candidate below
      `fuel` passes).
     */
    method GenerateProof(lastBlock: PowBlock.Block, fuel: nat) returns (proof: Option<nat>)
      ensures blockMining ==> proof.None?
      ensures proof.Some? ==> proof.value < fuel
      ensures proof.Some? ==>
                ValidateProof(lastBlock.proofOfWork, proof.value, PowBlock.HexHash(lastBlock))
                && forall n :: 0 <= n < proof.value ==> !ValidateProof(lastBlock.proofOfWork, n, PowBlock.HexHash(lastBlock))
      ensures proof.None? && !blockMining ==>
                forall n :: 0 <= n < fuel ==> !ValidateProof(lastBlock.proofOfWork, n, PowBlock.HexHash(lastBlock))
    {
      var previousBlockProof := lastBlock.proofOfWork;
      var previousBlockHash := PowBlock.HexHash(lastBlock);
      var n := 0;
      while n < fuel && !ValidateProof(previousBlockProof, n, previousBlockHash) && !blockMining
        invariant 0 <= n <= fuel
        invariant forall m :: 0 <= m < n ==> !ValidateProof(previousBlockProof, m, previousBlockHash)
      {
        n := n + 1;
      }
      if blockMining || n == fuel {
        return None;
      }
      return Some(n);
    }
  }
}
