/** How the two ways of maintaining the UTXO store relate: rebuilding it
    from the whole chain (`UTXOSet::reindex`, through `find_UTXO`) and
    applying the newest block to it (`UTXOSet::update`). They agree on a
    block that only mints fresh outputs; on the blocks below they do not. */
module Consistency {
  import opened Common
  import opened Tx
  import opened Transactions
  import opened Blocks
  import opened ChainScans
  import opened Utxo

  /** Updating the store reindexed from `chain` with `b` gives the store
      reindexed from the chain with `b` on top. */
  predicate UpdateAgreesWithReindex(chain: seq<Block>, b: Block)
  {
    TxsFound(FindUtxo(chain), b.transactions) && UpdateTxs(FindUtxo(chain), b.transactions) == FindUtxo([b] + chain)
  }

  /** No transaction on the chain has `id` as its id. */
  predicate FreshIn(id: string, blocks: seq<Block>)
  {
    forall i, k | 0 <= i < |blocks| && 0 <= k < |blocks[i].transactions| :: blocks[i].transactions[k].id != id
  }

  /** The store after writing each transaction's outputs under its id, in
      order, a later transaction overriding an earlier one with the same id. */
  function WithOutputs(store: Store, txs: seq<Transaction>): Store
    decreases |txs|
  {
    if txs == [] then store else WithOutputs(store[txs[0].id := txs[0].vout], txs[1..])
  }

  /** A block that only mints: coinbase-shaped transactions, each with
      outputs, with distinct ids. */
  predicate OnlyMints(txs: seq<Transaction>)
  {
    (forall j | 0 <= j < |txs| :: IsCoinbase(txs[j]) && txs[j].vout != [])
    && (forall i, j | 0 <= i < j < |txs| :: txs[i].id != txs[j].id)
  }

  /** Writing outputs under ids a store does not hold is a union. */
  lemma {:induction false} WithOutputsIsUnion(store: Store, extra: Store, txs: seq<Transaction>)
    requires forall j | 0 <= j < |txs| :: txs[j].id !in extra
    ensures WithOutputs(store + extra, txs) == WithOutputs(store, txs) + extra
    decreases |txs|
  {
    if txs != [] {
      var tx := txs[0];
      assert (store + extra)[tx.id := tx.vout] == store[tx.id := tx.vout] + extra;
      forall j | 0 <= j < |txs[1..]| ensures txs[1..][j].id !in extra {
        assert txs[1..][j] == txs[j + 1];
      }
      WithOutputsIsUnion(store[tx.id := tx.vout], extra, txs[1..]);
    }
  }

  /** Entries under keys no scanned transaction has as id are carried
      through a scan untouched. */
  lemma {:induction false} ScanOutputsFrame(u: UtxoMap, extra: UtxoMap, spent: Spent, tx: Transaction, index: nat)
    requires tx.id !in extra
    ensures var r := ScanOutputs(UtxoScan(u, spent), tx, index);
            ScanOutputs(UtxoScan(u + extra, spent), tx, index) == UtxoScan(r.utxos + extra, r.spent)
    decreases |tx.vout| - index
  {
    if index < |tx.vout| && !IsSpent(spent, tx.id, index) {
      var spent' := if IsCoinbase(tx) then spent else RecordInputs(spent, tx.vin);
      var outs := [tx.vout[index]];
      assert Extend(u + extra, tx.id, outs) == Extend(u, tx.id, outs) + extra;
      ScanOutputsFrame(Extend(u, tx.id, outs), extra, spent', tx, index + 1);
    } else if index < |tx.vout| {
      ScanOutputsFrame(u, extra, spent, tx, index + 1);
    }
  }

  lemma {:induction false} ScanTxsFrame(u: UtxoMap, extra: UtxoMap, spent: Spent, txs: seq<Transaction>)
    requires forall j | 0 <= j < |txs| :: txs[j].id !in extra
    ensures var r := ScanTxs(UtxoScan(u, spent), txs);
            ScanTxs(UtxoScan(u + extra, spent), txs) == UtxoScan(r.utxos + extra, r.spent)
    decreases |txs|
  {
    if txs != [] {
      ScanOutputsFrame(u, extra, spent, txs[0], 0);
      var s := ScanOutputs(UtxoScan(u, spent), txs[0], 0);
      forall j | 0 <= j < |txs[1..]| ensures txs[1..][j].id !in extra {
        assert txs[1..][j] == txs[j + 1];
      }
      ScanTxsFrame(s.utxos, extra, s.spent, txs[1..]);
    }
  }

  lemma {:induction false} ScanBlocksFrame(u: UtxoMap, extra: UtxoMap, spent: Spent, blocks: seq<Block>)
    requires forall k | k in extra :: FreshIn(k, blocks)
    ensures var r := ScanBlocks(UtxoScan(u, spent), blocks);
            ScanBlocks(UtxoScan(u + extra, spent), blocks) == UtxoScan(r.utxos + extra, r.spent)
    decreases |blocks|
  {
    if blocks != [] {
      var txs := blocks[0].transactions;
      forall j | 0 <= j < |txs| ensures txs[j].id !in extra {
        forall k | k in extra ensures txs[j].id != k {
          assert FreshIn(k, blocks);
          assert blocks[0].transactions[j].id != k;
        }
      }
      ScanTxsFrame(u, extra, spent, txs);
      var s := ScanTxs(UtxoScan(u, spent), txs);
      forall k | k in extra ensures FreshIn(k, blocks[1..]) {
        forall i, m | 0 <= i < |blocks[1..]| && 0 <= m < |blocks[1..][i].transactions|
          ensures blocks[1..][i].transactions[m].id != k
        {
          assert blocks[1..][i] == blocks[i + 1];
          assert FreshIn(k, blocks);
        }
      }
      ScanBlocksFrame(s.utxos, extra, s.spent, blocks[1..]);
    }
  }

  /** Scanning a coinbase whose outputs nothing has spent keeps all of
      them and records nothing. */
  lemma {:induction false} CoinbaseScan(u: UtxoMap, spent: Spent, tx: Transaction, index: nat)
    requires IsCoinbase(tx) && tx.id !in spent && index <= |tx.vout|
    ensures ScanOutputs(UtxoScan(u, spent), tx, index) == UtxoScan(Extend(u, tx.id, tx.vout[index..]), spent)
    decreases |tx.vout| - index
  {
    if index == |tx.vout| {
      assert tx.vout[index..] == [];
    } else {
      CoinbaseScan(Extend(u, tx.id, [tx.vout[index]]), spent, tx, index + 1);
      ExtendTwice(u, tx.id, [tx.vout[index]], tx.vout[index + 1..]);
      assert [tx.vout[index]] + tx.vout[index + 1..] == tx.vout[index..];
    }
  }

  /** Scanning a minting block from an empty spent map writes its outputs. */
  lemma {:induction false} MintScan(u: UtxoMap, txs: seq<Transaction>)
    requires OnlyMints(txs) && forall j | 0 <= j < |txs| :: txs[j].id !in u
    ensures ScanTxs(UtxoScan(u, map[]), txs) == UtxoScan(WithOutputs(u, txs), map[])
    decreases |txs|
  {
    if txs != [] {
      var tx := txs[0];
      CoinbaseScan(u, map[], tx, 0);
      assert tx.vout[0..] == tx.vout;
      assert [] + tx.vout == tx.vout;
      assert Extend(u, tx.id, tx.vout) == u[tx.id := tx.vout];
      var rest := txs[1..];
      forall j | 0 <= j < |rest| ensures IsCoinbase(rest[j]) && rest[j].vout != [] && rest[j].id !in u[tx.id := tx.vout] {
        assert rest[j] == txs[j + 1];
      }
      forall i, j | 0 <= i < j < |rest| ensures rest[i].id != rest[j].id {
        assert rest[i] == txs[i + 1] && rest[j] == txs[j + 1];
      }
      MintScan(u[tx.id := tx.vout], rest);
    }
  }

  /** `update` on a minting block writes its outputs and spends nothing. */
  lemma {:induction false} MintUpdate(store: Store, txs: seq<Transaction>)
    requires forall j | 0 <= j < |txs| :: IsCoinbase(txs[j])
    ensures TxsFound(store, txs) && UpdateTxs(store, txs) == WithOutputs(store, txs)
    decreases |txs|
  {
    if txs != [] {
      var tx := txs[0];
      assert IsCoinbase(tx);
      assert UpdateTx(store, tx) == store[tx.id := tx.vout];
      forall j | 0 <= j < |txs[1..]| ensures IsCoinbase(txs[1..][j]) {
        assert txs[1..][j] == txs[j + 1];
      }
      MintUpdate(store[tx.id := tx.vout], txs[1..]);
    }
  }

  lemma {:induction false} WithOutputsKeys(store: Store, txs: seq<Transaction>, k: string)
    requires k in WithOutputs(store, txs)
    ensures k in store || exists j | 0 <= j < |txs| :: txs[j].id == k
    decreases |txs|
  {
    if txs != [] && k !in store && k != txs[0].id {
      WithOutputsKeys(store[txs[0].id := txs[0].vout], txs[1..], k);
      var j :| 0 <= j < |txs[1..]| && txs[1..][j].id == k;
      assert txs[j + 1].id == k;
    }
  }

  /** A key that is no transaction's id on the chain is not in the map
      `find_UTXO` builds from it. */
  lemma {:induction false} ScanOutputsKeys(s: UtxoScan, tx: Transaction, index: nat, k: string)
    requires k != tx.id
    ensures k in ScanOutputs(s, tx, index).utxos <==> k in s.utxos
    decreases |tx.vout| - index
  {
    if index < |tx.vout| && !IsSpent(s.spent, tx.id, index) {
      var spent := if IsCoinbase(tx) then s.spent else RecordInputs(s.spent, tx.vin);
      ScanOutputsKeys(UtxoScan(Extend(s.utxos, tx.id, [tx.vout[index]]), spent), tx, index + 1, k);
    } else if index < |tx.vout| {
      ScanOutputsKeys(s, tx, index + 1, k);
    }
  }

  lemma {:induction false} ScanTxsKeys(s: UtxoScan, txs: seq<Transaction>, k: string)
    requires forall j | 0 <= j < |txs| :: txs[j].id != k
    ensures k in ScanTxs(s, txs).utxos <==> k in s.utxos
    decreases |txs|
  {
    if txs != [] {
      ScanOutputsKeys(s, txs[0], 0, k);
      forall j | 0 <= j < |txs[1..]| ensures txs[1..][j].id != k {
        assert txs[1..][j] == txs[j + 1];
      }
      ScanTxsKeys(ScanOutputs(s, txs[0], 0), txs[1..], k);
    }
  }

  lemma {:induction false} ScanBlocksKeys(s: UtxoScan, blocks: seq<Block>, k: string)
    requires FreshIn(k, blocks)
    ensures k in ScanBlocks(s, blocks).utxos <==> k in s.utxos
    decreases |blocks|
  {
    if blocks != [] {
      var txs := blocks[0].transactions;
      forall j | 0 <= j < |txs| ensures txs[j].id != k {
        assert FreshIn(k, blocks);
      }
      ScanTxsKeys(s, txs, k);
      forall i, m | 0 <= i < |blocks[1..]| && 0 <= m < |blocks[1..][i].transactions|
        ensures blocks[1..][i].transactions[m].id != k
      {
        assert blocks[1..][i] == blocks[i + 1];
      }
      ScanBlocksKeys(ScanTxs(s, txs), blocks[1..], k);
    }
  }

  /** A block that only mints fresh ids: `update` and `reindex` agree. */
  lemma MintingBlockAgrees(chain: seq<Block>, b: Block)
    requires OnlyMints(b.transactions)
    requires forall j | 0 <= j < |b.transactions| :: FreshIn(b.transactions[j].id, chain)
    ensures UpdateAgreesWithReindex(chain, b)
  {
    var txs := b.transactions;
    var before := FindUtxo(chain);
    MintUpdate(before, txs);
    MintScan(map[], txs);
    var extra := WithOutputs(map[], txs);
    assert forall k | k in extra :: FreshIn(k, chain) by {
      forall k | k in extra ensures FreshIn(k, chain) {
        WithOutputsKeys(map[], txs, k);
        var j :| 0 <= j < |txs| && txs[j].id == k;
        assert FreshIn(txs[j].id, chain);
      }
    }
    ScanBlocksFrame(map[], extra, map[], chain);
    assert map[] + extra == extra;
    ScanBlocksStep(EmptyScan, b, chain);
    assert FindUtxo([b] + chain) == before + extra;
    forall j | 0 <= j < |txs| ensures txs[j].id !in before {
      ScanBlocksKeys(EmptyScan, chain, txs[j].id);
    }
    WithOutputsIsUnion(map[], before, txs);
    assert map[] + before == before;
    assert extra + before == before + extra by {
      forall k | k in extra ensures k !in before {
        WithOutputsKeys(map[], txs, k);
      }
    }
  }

  /** A coinbase-shaped transaction: one input referring to no output. */
  function Mint(id: string, outs: TxOutputs): (tx: Transaction)
    ensures IsCoinbase(tx) && tx.id == id && tx.vout == outs
  {
    Transaction(id, [TxInput("", -1, [], [])], outs)
  }

  /** An input spending output `vout` of `txid`. */
  function SpendOf(txid: string, vout: i32): TxInput
  {
    TxInput(txid, vout, [], [])
  }

  function BlockOf(txs: seq<Transaction>): (b: Block)
    ensures b.transactions == txs
  {
    Block(0, txs, "", "", 0, 0)
  }

  // One step of each scan and of `update`, for the concrete chains below.

  lemma ScanBlocksStep(s: UtxoScan, b: Block, rest: seq<Block>)
    ensures ScanBlocks(s, [b] + rest) == ScanBlocks(ScanTxs(s, b.transactions), rest)
  {
    assert ([b] + rest)[1..] == rest;
  }

  lemma ScanTxsStep(s: UtxoScan, tx: Transaction, rest: seq<Transaction>)
    ensures ScanTxs(s, [tx] + rest) == ScanTxs(ScanOutputs(s, tx, 0), rest)
  {
    assert ([tx] + rest)[1..] == rest;
  }

  /** Scanning a one-output transaction. */
  lemma ScanSingleOutput(s: UtxoScan, tx: Transaction)
    requires |tx.vout| == 1
    ensures ScanOutputs(s, tx, 0)
            == if IsSpent(s.spent, tx.id, 0) then s
               else UtxoScan(Extend(s.utxos, tx.id, tx.vout), if IsCoinbase(tx) then s.spent else RecordInputs(s.spent, tx.vin))
  {
    assert [tx.vout[0]] == tx.vout;
  }

  lemma ScanBlocksLast(s: UtxoScan, b: Block)
    ensures ScanBlocks(s, [b]) == ScanTxs(s, b.transactions)
  {
    ScanBlocksStep(s, b, []);
    assert [b] + [] == [b];
  }

  lemma ScanTxsLast(s: UtxoScan, tx: Transaction)
    ensures ScanTxs(s, [tx]) == ScanOutputs(s, tx, 0)
  {
    ScanTxsStep(s, tx, []);
    assert [tx] + [] == [tx];
  }

  lemma UpdateTxsLast(store: Store, tx: Transaction)
    requires TxFound(store, tx)
    ensures TxsFound(store, [tx]) && UpdateTxs(store, [tx]) == UpdateTx(store, tx)
  {
    assert [tx][1..] == [];
  }

  /** Scanning a one-output transaction whose id the scan has not met. */
  lemma ScanFreshOutput(s: UtxoScan, tx: Transaction)
    requires |tx.vout| == 1 && tx.id !in s.utxos && tx.id !in s.spent
    ensures ScanOutputs(s, tx, 0)
            == UtxoScan(s.utxos[tx.id := tx.vout], if IsCoinbase(tx) then s.spent else RecordInputs(s.spent, tx.vin))
  {
    ScanSingleOutput(s, tx);
    assert [] + tx.vout == tx.vout;
  }

  lemma RecordInputsStep(spent: Spent, input: TxInput, rest: seq<TxInput>)
    ensures RecordInputs(spent, [input] + rest) == RecordInputs(RecordInput(spent, input), rest)
  {
    assert ([input] + rest)[1..] == rest;
  }

  /** Recording a single input into an empty spent map. */
  lemma RecordSingle(input: TxInput)
    ensures RecordInputs(map[], [input]) == map[input.txid := [input.vout as int]]
  {
    RecordInputsStep(map[], input, []);
    assert [input] + [] == [input];
    assert [] + [input.vout as int] == [input.vout as int];
  }

  lemma UpdateTxsStep(store: Store, tx: Transaction, rest: seq<Transaction>)
    requires TxFound(store, tx) && TxsFound(UpdateTx(store, tx), rest)
    ensures TxsFound(store, [tx] + rest) && UpdateTxs(store, [tx] + rest) == UpdateTxs(UpdateTx(store, tx), rest)
  {
    assert ([tx] + rest)[1..] == rest;
  }

  /** Spending the only output of a one-output entry removes the entry. */
  lemma SpendOnly(store: Store, txid: string, o: TxOutput)
    requires txid in store && store[txid] == [o]
    ensures InputsFound(store, [SpendOf(txid, 0)])
    ensures UpdateInputs(store, [SpendOf(txid, 0)]) == store - {txid}
  {
    WithoutRemovesPosition([o], 0);
    assert [o][..0] + [o][1..] == [];
    assert [SpendOf(txid, 0)][1..] == [];
  }

  /** A spender without outputs: `find_UTXO` records a transaction's
      inputs only while keeping one of its outputs, so the output it spent
      reappears on reindex, while `update` removes it. */
  lemma SpenderWithoutOutputsDisagrees(o: TxOutput)
    ensures var chain := [BlockOf([Mint("c", [o])])];
            var b := BlockOf([Transaction("s", [SpendOf("c", 0)], [])]);
            FindUtxo(chain) == map["c" := [o]]
            && FindUtxo([b] + chain) == map["c" := [o]]
            && TxsFound(FindUtxo(chain), b.transactions)
            && UpdateTxs(FindUtxo(chain), b.transactions) == map["s" := []]
            && !UpdateAgreesWithReindex(chain, b)
  {
    var c := Mint("c", [o]);
    var s := Transaction("s", [SpendOf("c", 0)], []);
    var g := BlockOf([c]);
    var b := BlockOf([s]);
    var minted := UtxoScan(map["c" := [o]], map[]);
    ScanFreshOutput(EmptyScan, c);
    assert ScanOutputs(EmptyScan, c, 0) == minted;
    ScanTxsLast(EmptyScan, c);
    ScanBlocksLast(EmptyScan, g);
    assert FindUtxo([g]) == map["c" := [o]];
    assert ScanOutputs(EmptyScan, s, 0) == EmptyScan;
    ScanTxsLast(EmptyScan, s);
    ScanBlocksStep(EmptyScan, b, [g]);
    assert FindUtxo([b] + [g]) == map["c" := [o]];
    var store := map["c" := [o]];
    SpendOnly(store, "c", o);
    assert store - {"c"} == map[];
    assert UpdateTx(store, s) == map["s" := []];
    UpdateTxsLast(store, s);
  }

  /** A spender whose outputs are all spent: scanning from the tip, its
      inputs are never recorded, so the output it spent reappears on
      reindex. */
  lemma FullySpentSpenderDisagrees(o: TxOutput, p: TxOutput, q: TxOutput)
    ensures var b1 := BlockOf([Transaction("s", [SpendOf("c", 0)], [p])]);
            var chain := [b1, BlockOf([Mint("c", [o])])];
            var b2 := BlockOf([Transaction("u", [SpendOf("s", 0)], [q])]);
            FindUtxo(chain) == map["s" := [p]]
            && FindUtxo([b2] + chain) == map["u" := [q], "c" := [o]]
            && TxsFound(FindUtxo(chain), b2.transactions)
            && UpdateTxs(FindUtxo(chain), b2.transactions) == map["u" := [q]]
            && !UpdateAgreesWithReindex(chain, b2)
  {
    var c := Mint("c", [o]);
    var s := Transaction("s", [SpendOf("c", 0)], [p]);
    var u := Transaction("u", [SpendOf("s", 0)], [q]);
    var g, b1, b2 := BlockOf([c]), BlockOf([s]), BlockOf([u]);
    // The chain alone: `s` keeps its output and marks `c`'s as spent.
    RecordSingle(SpendOf("c", 0));
    var x := UtxoScan(map["s" := [p]], map["c" := [0]]);
    ScanFreshOutput(EmptyScan, s);
    assert ScanOutputs(EmptyScan, s, 0) == x;
    ScanTxsLast(EmptyScan, s);
    ScanSingleOutput(x, c);
    ScanTxsLast(x, c);
    ScanBlocksLast(x, g);
    ScanBlocksStep(EmptyScan, b1, [g]);
    assert [b1, g] == [b1] + [g];
    assert FindUtxo([b1, g]) == map["s" := [p]];
    // With `b2` on top: `s`'s output is spent, so its input is not recorded.
    RecordSingle(SpendOf("s", 0));
    var y := UtxoScan(map["u" := [q]], map["s" := [0]]);
    ScanFreshOutput(EmptyScan, u);
    assert ScanOutputs(EmptyScan, u, 0) == y;
    ScanTxsLast(EmptyScan, u);
    ScanSingleOutput(y, s);
    ScanTxsLast(y, s);
    ScanFreshOutput(y, c);
    assert ScanOutputs(y, c, 0) == UtxoScan(map["u" := [q], "c" := [o]], y.spent);
    ScanTxsLast(y, c);
    ScanBlocksLast(y, g);
    ScanBlocksStep(y, b1, [g]);
    ScanBlocksStep(EmptyScan, b2, [b1, g]);
    assert FindUtxo([b2] + [b1, g]) == map["u" := [q], "c" := [o]];
    // `update` removes `s`'s emptied entry and adds `u`.
    var store := map["s" := [p]];
    SpendOnly(store, "s", p);
    assert store - {"s"} == map[];
    assert UpdateTx(store, u) == map["u" := [q]];
    UpdateTxsLast(store, u);
  }

  /** A spend inside the block that created the output: the scan meets the
      creating transaction before its spender, so the spent output survives
      reindex, while `update` removes it. */
  lemma InBlockSpendDisagrees(o: TxOutput, p: TxOutput)
    ensures var b := BlockOf([Mint("t", [o]), Transaction("s", [SpendOf("t", 0)], [p])]);
            FindUtxo([b]) == map["t" := [o], "s" := [p]]
            && TxsFound(FindUtxo([]), b.transactions)
            && UpdateTxs(FindUtxo([]), b.transactions) == map["s" := [p]]
            && !UpdateAgreesWithReindex([], b)
  {
    var t := Mint("t", [o]);
    var s := Transaction("s", [SpendOf("t", 0)], [p]);
    var b := BlockOf([t, s]);
    var x := UtxoScan(map["t" := [o]], map[]);
    ScanFreshOutput(EmptyScan, t);
    assert ScanOutputs(EmptyScan, t, 0) == x;
    RecordSingle(SpendOf("t", 0));
    ScanFreshOutput(x, s);
    assert ScanOutputs(x, s, 0) == UtxoScan(map["t" := [o], "s" := [p]], map["t" := [0]]);
    ScanTxsLast(x, s);
    ScanTxsStep(EmptyScan, t, [s]);
    assert [t, s] == [t] + [s];
    ScanBlocksLast(EmptyScan, b);
    assert [b] + [] == [b];
    assert FindUtxo([b]) == map["t" := [o], "s" := [p]];
    assert FindUtxo([]) == map[];
    var minted := map["t" := [o]];
    assert UpdateTx(map[], t) == minted;
    SpendOnly(minted, "t", o);
    assert minted - {"t"} == map[];
    assert UpdateTx(minted, s) == map["s" := [p]];
    UpdateTxsLast(minted, s);
    UpdateTxsStep(map[], t, [s]);
    assert "t" in FindUtxo([b] + []) && "t" !in UpdateTxs(map[], [t, s]);
  }

  /** Two coinbases with the same id in one block (two `new_coinbase`
      calls with the same recipient and data build the same transaction):
      reindex keeps both output lists, `update` keeps one. */
  lemma DuplicateIdsDisagree(o: TxOutput)
    ensures var b := BlockOf([Mint("c", [o]), Mint("c", [o])]);
            FindUtxo([b]) == map["c" := [o, o]]
            && TxsFound(FindUtxo([]), b.transactions)
            && UpdateTxs(FindUtxo([]), b.transactions) == map["c" := [o]]
            && !UpdateAgreesWithReindex([], b)
  {
    var c := Mint("c", [o]);
    var b := BlockOf([c, c]);
    var x := UtxoScan(map["c" := [o]], map[]);
    ScanFreshOutput(EmptyScan, c);
    assert ScanOutputs(EmptyScan, c, 0) == x;
    ScanSingleOutput(x, c);
    assert [o] + [o] == [o, o];
    assert Extend(x.utxos, "c", [o]) == map["c" := [o, o]];
    ScanTxsLast(x, c);
    ScanTxsStep(EmptyScan, c, [c]);
    assert [c, c] == [c] + [c];
    ScanBlocksLast(EmptyScan, b);
    assert [b] + [] == [b];
    assert FindUtxo([b]) == map["c" := [o, o]];
    assert FindUtxo([]) == map[];
    var minted := map["c" := [o]];
    assert UpdateTx(map[], c) == minted;
    assert UpdateTx(minted, c) == minted;
    UpdateTxsLast(minted, c);
    UpdateTxsStep(map[], c, [c]);
  }

  /** Ascending spends of one transaction's outputs (see
      `AscendingSpendsLeaveASpentOutput`): `update` keeps the second
      output, reindex drops both. */
  lemma AscendingSpendsDisagree(o0: TxOutput, o1: TxOutput, p: TxOutput)
    ensures var chain := [BlockOf([Mint("t", [o0, o1])])];
            var b := BlockOf([Transaction("s", [SpendOfT(0), SpendOfT(1)], [p])]);
            FindUtxo(chain) == map["t" := [o0, o1]]
            && FindUtxo([b] + chain) == map["s" := [p]]
            && TxsFound(FindUtxo(chain), b.transactions)
            && UpdateTxs(FindUtxo(chain), b.transactions) == map["t" := [o1], "s" := [p]]
            && !UpdateAgreesWithReindex(chain, b)
  {
    var t := Mint("t", [o0, o1]);
    var s := Transaction("s", [SpendOfT(0), SpendOfT(1)], [p]);
    var g := BlockOf([t]);
    var b := BlockOf([s]);
    CoinbaseScan(map[], map[], t, 0);
    assert t.vout[0..] == [o0, o1] && [] + [o0, o1] == [o0, o1];
    ScanTxsLast(EmptyScan, t);
    ScanBlocksLast(EmptyScan, g);
    assert FindUtxo([g]) == map["t" := [o0, o1]];
    RecordInputsStep(map[], SpendOfT(0), [SpendOfT(1)]);
    RecordInputsStep(map["t" := [0]], SpendOfT(1), []);
    assert s.vin == [SpendOfT(0)] + [SpendOfT(1)];
    assert [SpendOfT(1)] + [] == [SpendOfT(1)];
    assert [] + [0] == [0] && [0] + [1] == [0, 1];
    assert RecordInputs(map[], s.vin) == map["t" := [0, 1]];
    var y := UtxoScan(map["s" := [p]], map["t" := [0, 1]]);
    ScanFreshOutput(EmptyScan, s);
    assert ScanOutputs(EmptyScan, s, 0) == y;
    ScanTxsLast(EmptyScan, s);
    assert ScanOutputs(y, t, 2) == y;
    assert ScanOutputs(y, t, 1) == y;
    assert ScanOutputs(y, t, 0) == y;
    ScanTxsLast(y, t);
    ScanBlocksLast(y, g);
    ScanBlocksStep(EmptyScan, b, [g]);
    assert FindUtxo([b] + [g]) == map["s" := [p]];
    var store := map["t" := [o0, o1]];
    AscendingSpendsLeaveASpentOutput(o0, o1);
    assert UpdateTx(store, s) == map["t" := [o1], "s" := [p]];
    UpdateTxsLast(store, s);
    assert "t" !in FindUtxo([b] + [g]) && "t" in UpdateTxs(store, [s]);
  }
}
