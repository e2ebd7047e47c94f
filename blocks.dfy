/** Blocks and proof-of-work (`src/block.rs`). The digest of a block is
    SHA-256 over the bincode encoding of its hash data; both are outside
    the model, so the digest is a function parameter. */
module Blocks {
  import opened Common
  import opened Transactions

  /** `TARGET_HEXT`: the number of leading `'0'` hex characters required. */
  const TargetHext: nat := 4

  /** A block; `timestamp` is milliseconds since the epoch (`u128`). */
  datatype Block = Block(timestamp: nat, transactions: seq<Transaction>, prevBlockHash: string,
                         hash: string, height: nat, nonce: i32)

  /** The tuple `preapre_hash_data` serializes: note the difficulty
      constant stands where one might expect the height. */
  datatype HashData = HashData(prevBlockHash: string, transactions: seq<Transaction>, timestamp: nat,
                               targetHext: nat, nonce: i32)

  /** `preapre_hash_data` (before serialization). */
  function PrepareHashData(b: Block): (d: HashData)
    ensures d.targetHext == TargetHext && d.nonce == b.nonce && d.timestamp == b.timestamp
    ensures d.prevBlockHash == b.prevBlockHash && d.transactions == b.transactions
  {
    HashData(b.prevBlockHash, b.transactions, b.timestamp, TargetHext, b.nonce)
  }

  /** The first `TargetHext` characters of the digest are `'0'`. */
  predicate MeetsTarget(h: HexDigest)
  {
    forall i | 0 <= i < TargetHext :: h[i] == '0'
  }

  /** `Block::validate`. */
  predicate Validate(b: Block, digest: HashData -> HexDigest)
  {
    MeetsTarget(digest(PrepareHashData(b)))
  }

  /** Whether `nonce` is a winning nonce for `b`'s contents. */
  predicate MinesAt(b: Block, nonce: i32, digest: HashData -> HexDigest)
  {
    MeetsTarget(digest(HashData(b.prevBlockHash, b.transactions, b.timestamp, TargetHext, nonce)))
  }

  /** The height (and the stored hash) take no part in validation: two
      blocks that differ only there validate alike at every nonce. */
  lemma HeightDoesNotAffectHash(b: Block, height: nat, hash: string, digest: HashData -> HexDigest)
    ensures PrepareHashData(b.(height := height, hash := hash)) == PrepareHashData(b)
    ensures Validate(b.(height := height, hash := hash), digest) == Validate(b, digest)
  {
  }

  /** `run_proof_if_work`: counts the nonce up from its current value
      until the block validates, then stores the digest as the hash.
      `winning` is a nonce known to validate, which bounds the search
      (the source's `nonce += 1` would overflow `i32` without one). */
  method RunProofOfWork(b: Block, digest: HashData -> HexDigest, ghost winning: i32) returns (mined: Block)
    requires 0 <= b.nonce <= winning && MinesAt(b, winning, digest)
    ensures mined.timestamp == b.timestamp && mined.transactions == b.transactions
    ensures mined.prevBlockHash == b.prevBlockHash && mined.height == b.height
    ensures b.nonce <= mined.nonce <= winning
    ensures Validate(mined, digest)
    ensures mined.hash == digest(PrepareHashData(mined)) && MeetsTarget(mined.hash)
    ensures forall n: i32 | b.nonce <= n < mined.nonce :: !MinesAt(b, n, digest)
  {
    mined := b;
    while !Validate(mined, digest)
      invariant mined == b.(nonce := mined.nonce)
      invariant b.nonce <= mined.nonce <= winning
      invariant forall n: i32 | b.nonce <= n < mined.nonce :: !MinesAt(b, n, digest)
      decreases winning - mined.nonce
    {
      mined := mined.(nonce := mined.nonce + 1);
    }
    mined := mined.(hash := digest(PrepareHashData(mined)));
  }

  /** `Block::new_block` with the wall-clock reading passed in: the block
      is mined from nonce 0, so its nonce is the least winning one. */
  method NewBlock(data: seq<Transaction>, prevBlockHash: string, height: nat, timestamp: nat,
                  digest: HashData -> HexDigest, ghost winning: i32) returns (b: Block)
    requires 0 <= winning && MinesAt(Block(timestamp, data, prevBlockHash, "", height, 0), winning, digest)
    ensures b.timestamp == timestamp && b.transactions == data
    ensures b.prevBlockHash == prevBlockHash && b.height == height
    ensures Validate(b, digest) && b.hash == digest(PrepareHashData(b)) && MeetsTarget(b.hash)
    ensures 0 <= b.nonce <= winning
    ensures forall n: i32 | 0 <= n < b.nonce :: !MinesAt(b, n, digest)
  {
    var block := Block(timestamp, data, prevBlockHash, "", height, 0);
    b := RunProofOfWork(block, digest, winning);
    forall n: i32 | 0 <= n < b.nonce ensures !MinesAt(b, n, digest) {
      assert MinesAt(b, n, digest) == MinesAt(block, n, digest);
    }
  }

  /** `Block::new_genesis_block`: no predecessor, height 0, just the coinbase. */
  method NewGenesisBlock(coinbase: Transaction, timestamp: nat, digest: HashData -> HexDigest,
                         ghost winning: i32) returns (b: Block)
    requires 0 <= winning && MinesAt(Block(timestamp, [coinbase], "", "", 0, 0), winning, digest)
    ensures b.prevBlockHash == "" && b.height == 0 && b.transactions == [coinbase]
    ensures b.timestamp == timestamp && Validate(b, digest)
    ensures b.hash == digest(PrepareHashData(b)) && MeetsTarget(b.hash)
    ensures forall n: i32 | 0 <= n < b.nonce :: !MinesAt(b, n, digest)
  {
    b := NewBlock([coinbase], "", 0, timestamp, digest, winning);
  }
}
