/** The hash-linked block store (`src/blockchain.rs`). The sled database is
    a map from keys to entries: a block under its hash, and under `"LAST"`
    the hash of the tip. Iteration walks from the tip through the
    predecessor hashes and stops at the first key that holds no block. */
module Chain {
  import opened Common
  import opened Tx
  import opened Transactions
  import opened Blocks
  import opened ChainScans

  /** The key of the tip pointer. */
  const LastKey: string := "LAST"

  /** `GENESIS_COINBASE_DATA`. */
  const GenesisCoinbaseData: string := "The Times 03/Jan/2009 Chancellor on brink of second bailout for banks"

  /** A stored value: a serialized block, or the tip hash kept under `"LAST"`
      (which does not decode as a block). */
  datatype Entry = Stored(block: Block) | Tip(hash: string)

  type Db = map<string, Entry>

  /** What one iterator step finds under `key`: a block, or nothing when
      the key is missing or its value is not a block. */
  function Lookup(db: Db, key: string): (r: Option<Block>)
    ensures r.Some? <==> key in db && db[key].Stored?
    ensures r.Some? ==> db[key] == Stored(r.value)
  {
    if key in db && db[key].Stored? then Some(db[key].block) else None
  }

  /** `chain` is exactly the sequence of blocks iteration yields from `h`. */
  ghost predicate IsWalk(db: Db, h: string, chain: seq<Block>)
    decreases |chain|
  {
    match Lookup(db, h)
    case None => chain == []
    case Some(b) => chain != [] && chain[0] == b && IsWalk(db, b.prevBlockHash, chain[1..])
  }

  /** The keys iteration from `h` reads: the start, then every block's
      predecessor hash (the last of which holds no block). */
  function WalkKeys(h: string, chain: seq<Block>): set<string>
    decreases |chain|
  {
    {h} + if chain == [] then {} else WalkKeys(chain[0].prevBlockHash, chain[1..])
  }

  /** The walk is determined by the store and the start key. */
  lemma {:induction false} WalkIsUnique(db: Db, h: string, c1: seq<Block>, c2: seq<Block>)
    requires IsWalk(db, h, c1) && IsWalk(db, h, c2)
    ensures c1 == c2
    decreases |c1|
  {
    if c1 != [] {
      WalkIsUnique(db, c1[0].prevBlockHash, c1[1..], c2[1..]);
    }
  }

  /** A store that agrees on every key the walk reads has the same walk. */
  lemma {:induction false} WalkFrame(db: Db, db': Db, h: string, chain: seq<Block>)
    requires IsWalk(db, h, chain)
    requires forall k | k in WalkKeys(h, chain) :: Lookup(db, k) == Lookup(db', k)
    ensures IsWalk(db', h, chain)
    decreases |chain|
  {
    if chain != [] {
      WalkFrame(db, db', chain[0].prevBlockHash, chain[1..]);
    }
  }

  /** Iteration order: the first block is the one under `h`, each next
      block is the one under the previous block's predecessor hash, and the
      walk ends at a predecessor hash that holds no block. */
  lemma {:induction false} WalkFollowsPrevHashes(db: Db, h: string, chain: seq<Block>)
    requires IsWalk(db, h, chain)
    ensures chain == [] <==> Lookup(db, h).None?
    ensures chain != [] ==> Lookup(db, h) == Some(chain[0])
    ensures forall i | 0 <= i < |chain| - 1 :: Lookup(db, chain[i].prevBlockHash) == Some(chain[i + 1])
    ensures chain != [] ==> Lookup(db, chain[|chain| - 1].prevBlockHash).None?
    decreases |chain|
  {
    if chain != [] {
      WalkFollowsPrevHashes(db, chain[0].prevBlockHash, chain[1..]);
      forall i | 0 <= i < |chain| - 1 ensures Lookup(db, chain[i].prevBlockHash) == Some(chain[i + 1]) {
        if i > 0 {
          assert chain[i] == chain[1..][i - 1] && chain[i + 1] == chain[1..][i];
        }
      }
      if |chain| > 1 {
        assert chain[|chain| - 1] == chain[1..][|chain[1..]| - 1];
      }
    }
  }

  /** `"LAST"` names `h`, and `chain` is the walk from there. */
  ghost predicate Rooted(db: Db, h: string, chain: seq<Block>)
  {
    LastKey in db && db[LastKey] == Tip(h) && IsWalk(db, h, chain)
  }

  /** Every block is stored under its own hash. */
  predicate KeyedByHash(db: Db)
  {
    forall k | k in db && db[k].Stored? :: db[k].block.hash == k
  }

  /** In a store keyed by hash, consecutive blocks of the walk are linked:
      each block's predecessor hash is the hash of the next one. */
  lemma LinkedWhenKeyedByHash(db: Db, h: string, chain: seq<Block>)
    requires IsWalk(db, h, chain) && KeyedByHash(db)
    ensures forall i | 0 <= i < |chain| - 1 :: chain[i].prevBlockHash == chain[i + 1].hash
  {
    WalkFollowsPrevHashes(db, h, chain);
  }

  /** The hash a candidate nonce gives a block of these contents. */
  function CandidateHash(prevBlockHash: string, txs: seq<Transaction>, timestamp: nat, nonce: i32,
                         digest: HashData -> HexDigest): HexDigest
  {
    digest(HashData(prevBlockHash, txs, timestamp, TargetHext, nonce))
  }

  /** The store `create_blockchain` writes: the genesis block under its
      hash and `"LAST"` naming it, walked as exactly that one block. */
  lemma GenesisWalk(g: Block, db: Db)
    requires g.prevBlockHash == "" && |g.hash| == 64
    requires db == map[g.hash := Stored(g), LastKey := Tip(g.hash)]
    ensures Rooted(db, g.hash, [g]) && KeyedByHash(db)
  {
    assert Lookup(db, g.hash) == Some(g);
    assert Lookup(db, "").None?;
    assert [g][1..] == [];
  }

  /** An iterator over the blocks from a start hash (`BlockchainIter`).
      It borrows the chain, so the store it reads does not change. */
  class BlockchainIter {
    var currentHash: string
    const db: Db
    ghost var remaining: seq<Block>

    ghost predicate Valid()
      reads this
    {
      IsWalk(db, currentHash, remaining)
    }

    constructor (start: string, db: Db, ghost blocks: seq<Block>)
      requires IsWalk(db, start, blocks)
      ensures Valid() && currentHash == start && this.db == db && remaining == blocks
    {
      currentHash := start;
      this.db := db;
      remaining := blocks;
    }

    /** `Iterator::next`: the block under the current hash, moving on to
        its predecessor; nothing (and no move) once no block is found. */
    method Next() returns (r: Option<Block>)
      requires Valid()
      modifies this
      ensures Valid()
      ensures r == Lookup(db, old(currentHash))
      ensures r.None? <==> old(remaining) == []
      ensures r.Some? ==> r.value == old(remaining)[0] && currentHash == r.value.prevBlockHash
                          && remaining == old(remaining)[1..]
      ensures r.None? ==> currentHash == old(currentHash) && remaining == old(remaining)
    {
      if currentHash in db && db[currentHash].Stored? {
        var block := db[currentHash].block;
        currentHash := block.prevBlockHash;
        remaining := remaining[1..];
        return Some(block);
      }
      return None;
    }
  }

  /** `Blockchain`: the tip hash and the block store. The ghost `chain`
      is what iteration yields, tip first. */
  class Blockchain {
    var currentHash: string
    var db: Db
    ghost var chain: seq<Block>

    ghost predicate Valid()
      reads this
    {
      Rooted(db, currentHash, chain)
    }

    /** `Blockchain::new`: opens an existing store. A store without
        `"LAST"` makes the source panic; `blocks` is the finite walk the
        persisted chain yields from its tip. */
    constructor Open(db: Db, ghost blocks: seq<Block>)
      requires LastKey in db && db[LastKey].Tip? && IsWalk(db, db[LastKey].hash, blocks)
      ensures Valid() && this.db == db && currentHash == db[LastKey].hash && chain == blocks
    {
      this.db := db;
      currentHash := db[LastKey].hash;
      chain := blocks;
    }

    /** `Blockchain::create_blockchain`: a fresh store holding only the
        genesis block, whose coinbase pays the reward to `address`. */
    constructor Create(address: string, timestamp: nat, txDigest: Transaction -> HexDigest,
                       digest: HashData -> HexDigest, ghost winning: i32)
      requires 0 <= winning
      requires MinesAt(Block(timestamp, [NewCoinbase(address, GenesisCoinbaseData, txDigest)], "", "", 0, 0),
                       winning, digest)
      ensures Valid() && KeyedByHash(db) && |chain| == 1
      ensures db == map[chain[0].hash := Stored(chain[0]), LastKey := Tip(chain[0].hash)]
      ensures currentHash == chain[0].hash
      ensures chain[0].prevBlockHash == "" && chain[0].height == 0 && Validate(chain[0], digest)
      ensures chain[0].transactions == [NewCoinbase(address, GenesisCoinbaseData, txDigest)]
      ensures IsCoinbase(chain[0].transactions[0])
      ensures chain[0].transactions[0].vout == [TxOutput(CoinbaseReward, Utf8(address))]
    {
      var cbtx := NewCoinbase(address, GenesisCoinbaseData, txDigest);
      var genesis := NewGenesisBlock(cbtx, timestamp, digest, winning);
      var store := map[genesis.hash := Stored(genesis), LastKey := Tip(genesis.hash)];
      GenesisWalk(genesis, store);
      db := store;
      currentHash := genesis.hash;
      chain := [genesis];
    }

    /** `Blockchain::add_block`: mines a block on top of the block named by
        `"LAST"` (passing `TARGET_HEXT` where the height belongs), stores it
        under its hash, then moves `"LAST"` and the tip to it. No candidate
        hash may collide with a key the current walk reads. */
    method AddBlock(transactions: seq<Transaction>, timestamp: nat, digest: HashData -> HexDigest,
                    ghost winning: i32) returns (b: Block)
      requires Valid()
      requires 0 <= winning && MinesAt(Block(timestamp, transactions, currentHash, "", TargetHext, 0), winning, digest)
      requires forall n: i32 | 0 <= n <= winning ::
                 CandidateHash(currentHash, transactions, timestamp, n, digest) !in WalkKeys(currentHash, chain)
      modifies this
      ensures Valid()
      ensures b.prevBlockHash == old(currentHash) && b.height == TargetHext
      ensures b.transactions == transactions && b.timestamp == timestamp
      ensures Validate(b, digest) && b.hash == digest(PrepareHashData(b)) && MeetsTarget(b.hash)
      ensures db == old(db)[b.hash := Stored(b)][LastKey := Tip(b.hash)]
      ensures currentHash == b.hash && chain == [b] + old(chain)
      ensures KeyedByHash(old(db)) ==> KeyedByHash(db)
    {
      var lasthash := db[LastKey].hash;
      b := NewBlock(transactions, lasthash, TargetHext, timestamp, digest, winning);
      assert b.hash == CandidateHash(currentHash, transactions, timestamp, b.nonce, digest);
      ghost var before := db;
      db := db[b.hash := Stored(b)];
      db := db[LastKey := Tip(b.hash)];
      currentHash := b.hash;
      forall k | k in WalkKeys(lasthash, chain) ensures Lookup(before, k) == Lookup(db, k) {
        assert k != b.hash;
      }
      WalkFrame(before, db, lasthash, chain);
      assert ([b] + chain)[1..] == chain;
      chain := [b] + chain;
    }

    /** `Blockchain::iter`: a fresh iterator from the tip. */
    method Iter() returns (it: BlockchainIter)
      requires Valid()
      ensures fresh(it) && it.Valid() && it.db == db && it.currentHash == currentHash && it.remaining == chain
    {
      it := new BlockchainIter(currentHash, db, chain);
    }

    /** `Blockchain::find_transaction`: the first transaction with this id
        met walking from the tip, or `TxNotFound`. */
    method FindTransaction(id: string) returns (r: Result<Transaction>)
      requires Valid()
      ensures r == FindTx(chain, id)
    {
      var it := Iter();
      while true
        invariant fresh(it) && it.Valid()
        invariant FindTx(it.remaining, id) == FindTx(chain, id)
        decreases |it.remaining|
      {
        var next := it.Next();
        if next.None? {
          return Err(TxNotFound);
        }
        var txs := next.value.transactions;
        for j := 0 to |txs|
          invariant FindInTxs(txs[j..], id) == FindInTxs(txs, id)
        {
          if txs[j].id == id {
            return Ok(txs[j]);
          }
          assert txs[j..][1..] == txs[j + 1..];
        }
      }
    }

    /** `Blockchain::get_prev_txs`: the previous transaction of every input,
        keyed by id; the first lookup that fails is the error. */
    method GetPrevTxs(tx: Transaction) returns (r: Result<map<string, Transaction>>)
      requires Valid()
      ensures r == PrevTxs(chain, tx.vin, map[])
    {
      var prevTxs: map<string, Transaction> := map[];
      for k := 0 to |tx.vin|
        invariant PrevTxs(chain, tx.vin[k..], prevTxs) == PrevTxs(chain, tx.vin, map[])
      {
        var prev := FindTransaction(tx.vin[k].txid);
        assert tx.vin[k..][1..] == tx.vin[k + 1..];
        if prev.Err? {
          return Err(prev.error);
        }
        prevTxs := prevTxs[prev.value.id := prev.value];
      }
      return Ok(prevTxs);
    }

    /** `Blockchain::find_UTXO`: the unspent outputs per transaction id, as
        the full-chain scan finds them. */
    method FindUtxo() returns (utxos: UtxoMap)
      requires Valid()
      ensures utxos == ChainScans.FindUtxo(chain)
    {
      utxos := map[];
      var spendTxos: Spent := map[];
      var it := Iter();
      while true
        invariant fresh(it) && it.Valid()
        invariant ScanBlocks(UtxoScan(utxos, spendTxos), it.remaining) == ScanBlocks(EmptyScan, chain)
        decreases |it.remaining|
      {
        var next := it.Next();
        if next.None? {
          break;
        }
        utxos, spendTxos := ScanBlockTxs(utxos, spendTxos, next.value.transactions);
      }
    }

    /** `Blockchain::find_unspent_transactions`: one copy of a transaction
        per unspent output locked to `address`, in iteration order. */
    method FindUnspentTransactions(address: Bytes, hashPubKey: Bytes -> Bytes) returns (unspent: seq<Transaction>)
      requires Valid()
      ensures unspent == ChainScans.FindUnspentTransactions(chain, address, hashPubKey)
    {
      var spentTxos: Spent := map[];
      unspent := [];
      var it := Iter();
      while true
        invariant fresh(it) && it.Valid()
        invariant UnspentBlocks(UnspentScan(unspent, spentTxos), it.remaining, address, hashPubKey)
                  == UnspentBlocks(UnspentScan([], map[]), chain, address, hashPubKey)
        decreases |it.remaining|
      {
        var next := it.Next();
        if next.None? {
          break;
        }
        unspent, spentTxos := CollectUnspentTxs(unspent, spentTxos, next.value.transactions, address, hashPubKey);
      }
    }
  }

  /** The loop of `find_UTXO` over the transactions of one block. */
  method ScanBlockTxs(utxos: UtxoMap, spent: Spent, txs: seq<Transaction>) returns (newUtxos: UtxoMap, newSpent: Spent)
    ensures UtxoScan(newUtxos, newSpent) == ScanTxs(UtxoScan(utxos, spent), txs)
  {
    newUtxos, newSpent := utxos, spent;
    for j := 0 to |txs|
      invariant ScanTxs(UtxoScan(newUtxos, newSpent), txs[j..]) == ScanTxs(UtxoScan(utxos, spent), txs)
    {
      assert txs[j..][1..] == txs[j + 1..];
      newUtxos, newSpent := ScanTxOutputs(newUtxos, newSpent, txs[j]);
    }
  }

  /** The inner loop of `find_UTXO` for one transaction: every output whose
      index is not recorded as spent is kept, and each time one is kept the
      inputs of a non-coinbase transaction are recorded again. */
  method ScanTxOutputs(utxos: UtxoMap, spent: Spent, tx: Transaction) returns (newUtxos: UtxoMap, newSpent: Spent)
    ensures UtxoScan(newUtxos, newSpent) == ScanOutputs(UtxoScan(utxos, spent), tx, 0)
  {
    newUtxos, newSpent := utxos, spent;
    for index := 0 to |tx.vout|
      invariant ScanOutputs(UtxoScan(newUtxos, newSpent), tx, index) == ScanOutputs(UtxoScan(utxos, spent), tx, 0)
    {
      if !(tx.id in newSpent && (index as int) in newSpent[tx.id]) {
        var outs := if tx.id in newUtxos then newUtxos[tx.id] else [];
        newUtxos := newUtxos[tx.id := outs + [tx.vout[index]]];
        if !IsCoinbase(tx) {
          newSpent := RecordAllInputs(newSpent, tx.vin);
        }
      }
    }
  }

  /** Records `(txid, vout)` of every input, appending to the list of spent
      indices of that txid. */
  method RecordAllInputs(spent: Spent, vin: seq<TxInput>) returns (r: Spent)
    ensures r == RecordInputs(spent, vin)
  {
    r := spent;
    for k := 0 to |vin|
      invariant RecordInputs(r, vin[k..]) == RecordInputs(spent, vin)
    {
      assert vin[k..][1..] == vin[k + 1..];
      var input := vin[k];
      assert RecordInputs(r, vin[k..]) == RecordInputs(RecordInput(r, input), vin[k + 1..]);
      var indices := if input.txid in r then r[input.txid] else [];
      r := r[input.txid := indices + [input.vout as int]];
    }
  }

  /** The loop of `find_unspent_transactions` over the transactions of one
      block: the copies of each, then (for a non-coinbase) its owned inputs. */
  method CollectUnspentTxs(found: seq<Transaction>, spent: Spent, txs: seq<Transaction>, address: Bytes,
                           hashPubKey: Bytes -> Bytes) returns (newFound: seq<Transaction>, newSpent: Spent)
    ensures UnspentScan(newFound, newSpent) == UnspentTxs(UnspentScan(found, spent), txs, address, hashPubKey)
  {
    newFound, newSpent := found, spent;
    for j := 0 to |txs|
      invariant UnspentTxs(UnspentScan(newFound, newSpent), txs[j..], address, hashPubKey)
                == UnspentTxs(UnspentScan(found, spent), txs, address, hashPubKey)
    {
      var tx := txs[j];
      assert txs[j..][1..] == txs[j + 1..];
      var copies := CollectUnspentCopies(tx, newSpent, address);
      newFound := newFound + copies;
      if !IsCoinbase(tx) {
        newSpent := RecordOwnedInputs(newSpent, tx.vin, address, hashPubKey);
      }
    }
  }

  /** The per-output loop of `find_unspent_transactions`: a copy of `tx` for
      each unspent output locked to `address`. */
  method CollectUnspentCopies(tx: Transaction, spent: Spent, address: Bytes) returns (copies: seq<Transaction>)
    ensures copies == UnspentCopies(tx, spent, address, 0)
  {
    copies := [];
    for index := 0 to |tx.vout|
      invariant copies + UnspentCopies(tx, spent, address, index) == UnspentCopies(tx, spent, address, 0)
    {
      if !(tx.id in spent && (index as int) in spent[tx.id]) && CanBeUnlockWith(tx.vout[index], address) {
        copies := copies + [tx];
      }
    }
  }

  /** The per-input loop of `find_unspent_transactions`: records the inputs
      whose public key hashes to `address`. */
  method RecordOwnedInputs(spent: Spent, vin: seq<TxInput>, address: Bytes, hashPubKey: Bytes -> Bytes) returns (r: Spent)
    ensures r == RecordOwned(spent, vin, address, hashPubKey)
  {
    r := spent;
    for k := 0 to |vin|
      invariant RecordOwned(r, vin[k..], address, hashPubKey) == RecordOwned(spent, vin, address, hashPubKey)
    {
      assert vin[k..][1..] == vin[k + 1..];
      var input := vin[k];
      assert RecordOwned(r, vin[k..], address, hashPubKey)
          == RecordOwned(if CanUnlockOutputWith(input, address, hashPubKey) then RecordInput(r, input) else r,
                         vin[k + 1..], address, hashPubKey);
      if CanUnlockOutputWith(input, address, hashPubKey) {
        var indices := if input.txid in r then r[input.txid] else [];
        r := r[input.txid := indices + [input.vout as int]];
      }
    }
  }
}
