/** The UTXO store (`src/utxoset.rs`): a second sled tree mapping each
    transaction id to the outputs of it still unspent. `reindex` rebuilds
    it from the chain; `update` applies one block to it in place. */
module Utxo {
  import opened Common
  import opened Tx
  import opened Transactions
  import opened Blocks
  import opened ChainScans
  import opened Chain

  /** The `data/utxos` tree: transaction id to `TXOutputs`. */
  type Store = map<string, TxOutputs>

  /** The outputs copied from position `from` on, skipping position `skip`
      (the loop at `utxoset.rs` that rebuilds `update_outputs`). */
  function Skipping(outs: TxOutputs, skip: int, from: nat): TxOutputs
    decreases |outs| - from
  {
    if from >= |outs| then []
    else (if from != skip then [outs[from]] else []) + Skipping(outs, skip, from + 1)
  }

  /** The stored list without the entry at position `vout`. The position is
      into the list as stored now, which earlier spends may have shortened;
      a negative `vout` becomes a huge `usize` and skips nothing. */
  function Without(outs: TxOutputs, vout: i32): TxOutputs
  {
    Skipping(outs, vout as int, 0)
  }

  lemma {:induction false} SkippingPosition(outs: TxOutputs, skip: int, from: nat)
    requires from <= |outs|
    ensures Skipping(outs, skip, from)
         == if from <= skip < |outs| then outs[from..skip] + outs[skip + 1..] else outs[from..]
    decreases |outs| - from
  {
    if from < |outs| {
      SkippingPosition(outs, skip, from + 1);
      if from == skip {
        assert outs[from..skip] == [];
      } else if from < skip < |outs| {
        assert outs[from..skip] == [outs[from]] + outs[from + 1..skip];
      } else {
        assert outs[from..] == [outs[from]] + outs[from + 1..];
      }
    }
  }

  /** Removal is by position: exactly the entry at `vout` goes when `vout`
      is a position of the list, otherwise nothing does. */
  lemma WithoutRemovesPosition(outs: TxOutputs, vout: i32)
    ensures 0 <= vout < |outs| ==> Without(outs, vout) == outs[..vout] + outs[vout + 1..]
    ensures 0 <= vout < |outs| ==> multiset(Without(outs, vout)) + multiset{outs[vout]} == multiset(outs)
    ensures !(0 <= vout < |outs|) ==> Without(outs, vout) == outs
  {
    SkippingPosition(outs, vout as int, 0);
    assert outs[0..] == outs;
    if 0 <= vout < |outs| {
      assert outs == outs[..vout] + [outs[vout]] + outs[vout + 1..];
    }
  }

  /** One input of a non-coinbase transaction: the referenced entry loses
      position `vout` and is removed once empty. */
  function UpdateInput(store: Store, input: TxInput): Store
    requires input.txid in store
  {
    var kept := Without(store[input.txid], input.vout);
    if kept == [] then store - {input.txid} else store[input.txid := kept]
  }

  /** Every input finds its entry when its turn comes (`unwrap` panics
      otherwise). */
  predicate InputsFound(store: Store, vin: seq<TxInput>)
    decreases |vin|
  {
    vin == [] || (vin[0].txid in store && InputsFound(UpdateInput(store, vin[0]), vin[1..]))
  }

  function UpdateInputs(store: Store, vin: seq<TxInput>): Store
    requires InputsFound(store, vin)
    decreases |vin|
  {
    if vin == [] then store else UpdateInputs(UpdateInput(store, vin[0]), vin[1..])
  }

  /** Whether `update` can process `tx` without panicking. */
  predicate TxFound(store: Store, tx: Transaction)
  {
    IsCoinbase(tx) || InputsFound(store, tx.vin)
  }

  /** One transaction: its inputs (unless coinbase), then its whole output
      list stored under its id. */
  function UpdateTx(store: Store, tx: Transaction): Store
    requires TxFound(store, tx)
  {
    (if IsCoinbase(tx) then store else UpdateInputs(store, tx.vin))[tx.id := tx.vout]
  }

  predicate TxsFound(store: Store, txs: seq<Transaction>)
    decreases |txs|
  {
    txs == [] || (TxFound(store, txs[0]) && TxsFound(UpdateTx(store, txs[0]), txs[1..]))
  }

  /** `UTXOSet::update` on the store, transactions in block order. */
  function UpdateTxs(store: Store, txs: seq<Transaction>): Store
    requires TxsFound(store, txs)
    decreases |txs|
  {
    if txs == [] then store else UpdateTxs(UpdateTx(store, txs[0]), txs[1..])
  }

  /** An input touches only the entry it names: that entry shrinks by the
      spent position or disappears when nothing is left. */
  lemma UpdateInputEffect(store: Store, input: TxInput)
    requires input.txid in store
    ensures var r := UpdateInput(store, input);
            (forall k | k != input.txid :: (k in r <==> k in store) && (k in r ==> r[k] == store[k]))
            && (input.txid in r <==> Without(store[input.txid], input.vout) != [])
            && (input.txid in r ==> r[input.txid] == Without(store[input.txid], input.vout))
  {
  }

  /** Entries no input names are left as they were. */
  lemma {:induction false} UpdateInputsFrame(store: Store, vin: seq<TxInput>, k: string)
    requires InputsFound(store, vin) && k !in Txids(vin)
    ensures k in UpdateInputs(store, vin) <==> k in store
    ensures k in store ==> UpdateInputs(store, vin)[k] == store[k]
    decreases |vin|
  {
    if vin != [] {
      assert k != vin[0].txid;
      UpdateInputsFrame(UpdateInput(store, vin[0]), vin[1..], k);
    }
  }

  /** Spending never leaves an empty entry behind. */
  lemma {:induction false} UpdateInputsKeepNonEmpty(store: Store, vin: seq<TxInput>)
    requires InputsFound(store, vin) && EntriesNonEmpty(store)
    ensures EntriesNonEmpty(UpdateInputs(store, vin))
    decreases |vin|
  {
    if vin != [] {
      UpdateInputsKeepNonEmpty(UpdateInput(store, vin[0]), vin[1..]);
    }
  }

  /** The store keeps no empty entry as long as every transaction applied
      has at least one output (an output-less transaction is stored with an
      empty list). */
  lemma {:induction false} UpdateTxsKeepNonEmpty(store: Store, txs: seq<Transaction>)
    requires TxsFound(store, txs) && EntriesNonEmpty(store)
    requires forall j | 0 <= j < |txs| :: txs[j].vout != []
    ensures EntriesNonEmpty(UpdateTxs(store, txs))
    decreases |txs|
  {
    if txs != [] {
      if !IsCoinbase(txs[0]) {
        UpdateInputsKeepNonEmpty(store, txs[0].vin);
      }
      UpdateTxsKeepNonEmpty(UpdateTx(store, txs[0]), txs[1..]);
    }
  }

  /** After a block, each of its transactions whose id no later transaction
      of the block rewrites or spends from holds its full output list. */
  lemma {:induction false} UpdateTxsStoresOutputs(store: Store, txs: seq<Transaction>, j: nat)
    requires TxsFound(store, txs) && j < |txs|
    requires forall m | j < m < |txs| :: txs[m].id != txs[j].id && (IsCoinbase(txs[m]) || txs[j].id !in Txids(txs[m].vin))
    ensures txs[j].id in UpdateTxs(store, txs) && UpdateTxs(store, txs)[txs[j].id] == txs[j].vout
    decreases |txs|
  {
    if j == 0 {
      UpdateTxsUntouched(UpdateTx(store, txs[0]), txs[1..], txs[0].id);
    } else {
      forall m | j - 1 < m < |txs[1..]|
        ensures txs[1..][m].id != txs[1..][j - 1].id
                && (IsCoinbase(txs[1..][m]) || txs[1..][j - 1].id !in Txids(txs[1..][m].vin))
      {
        assert txs[1..][m] == txs[m + 1];
      }
      UpdateTxsStoresOutputs(UpdateTx(store, txs[0]), txs[1..], j - 1);
    }
  }

  /** An id that no transaction writes or spends from keeps its entry. */
  lemma {:induction false} UpdateTxsUntouched(store: Store, txs: seq<Transaction>, k: string)
    requires TxsFound(store, txs)
    requires forall m | 0 <= m < |txs| :: txs[m].id != k && (IsCoinbase(txs[m]) || k !in Txids(txs[m].vin))
    ensures k in UpdateTxs(store, txs) <==> k in store
    ensures k in store ==> UpdateTxs(store, txs)[k] == store[k]
    decreases |txs|
  {
    if txs != [] {
      if !IsCoinbase(txs[0]) {
        UpdateInputsFrame(store, txs[0].vin, k);
      }
      forall m | 0 <= m < |txs[1..]| ensures txs[1..][m].id != k && (IsCoinbase(txs[1..][m]) || k !in Txids(txs[1..][m].vin)) {
        assert txs[1..][m] == txs[m + 1];
      }
      UpdateTxsUntouched(UpdateTx(store, txs[0]), txs[1..], k);
    }
  }

  /** An input of some later transaction spending output `vout` of "t". */
  function SpendOfT(vout: i32): TxInput
  {
    TxInput("t", vout, [], [])
  }

  /** Two inputs in a row are their two single steps. */
  lemma TwoInputs(store: Store, a: TxInput, b: TxInput)
    requires a.txid in store && b.txid in UpdateInput(store, a)
    ensures InputsFound(store, [a, b])
    ensures UpdateInputs(store, [a, b]) == UpdateInput(UpdateInput(store, a), b)
  {
    var s1 := UpdateInput(store, a);
    var s2 := UpdateInput(s1, b);
    assert [a, b][1..] == [b] && [b][1..] == [];
    assert InputsFound(s2, []) && UpdateInputs(s2, []) == s2;
    assert InputsFound(s1, [b]) && UpdateInputs(s1, [b]) == s2;
  }

  /** Spending position `vout` of a single-entry store. */
  lemma SpendStep(outs: TxOutputs, vout: i32)
    ensures UpdateInput(map["t" := outs], SpendOfT(vout))
         == (if Without(outs, vout) == [] then map[] else map["t" := Without(outs, vout)])
  {
    var store := map["t" := outs];
    if Without(outs, vout) == [] {
      assert store - {"t"} == map[];
    }
  }

  /** Spending outputs 0 then 1 of a two-output transaction leaves output 1
      in the store: after the first spend output 1 sits at position 0, so
      the second spend finds no position 1. */
  lemma AscendingSpendsLeaveASpentOutput(o0: TxOutput, o1: TxOutput)
    ensures InputsFound(map["t" := [o0, o1]], [SpendOfT(0), SpendOfT(1)])
    ensures UpdateInputs(map["t" := [o0, o1]], [SpendOfT(0), SpendOfT(1)]) == map["t" := [o1]]
  {
    WithoutRemovesPosition([o0, o1], 0);
    assert [o0, o1][..0] + [o0, o1][1..] == [o1];
    SpendStep([o0, o1], 0);
    WithoutRemovesPosition([o1], 1);
    SpendStep([o1], 1);
    TwoInputs(map["t" := [o0, o1]], SpendOfT(0), SpendOfT(1));
  }

  /** Spending outputs 1 then 0 of the same transaction empties its entry,
      which is then removed. */
  lemma DescendingSpendsRemoveTheEntry(o0: TxOutput, o1: TxOutput)
    ensures InputsFound(map["t" := [o0, o1]], [SpendOfT(1), SpendOfT(0)])
    ensures UpdateInputs(map["t" := [o0, o1]], [SpendOfT(1), SpendOfT(0)]) == map[]
  {
    WithoutRemovesPosition([o0, o1], 1);
    assert [o0, o1][..1] + [o0, o1][2..] == [o0];
    SpendStep([o0, o1], 1);
    WithoutRemovesPosition([o0], 0);
    assert [o0][..0] + [o0][1..] == [];
    SpendStep([o0], 0);
    TwoInputs(map["t" := [o0, o1]], SpendOfT(1), SpendOfT(0));
  }

  /** The copy loop of `update`: every position except `vout`, in order. */
  method CopyWithout(outs: TxOutputs, vout: i32) returns (updateOutputs: TxOutputs)
    ensures updateOutputs == Without(outs, vout)
  {
    updateOutputs := [];
    for outIdx := 0 to |outs|
      invariant updateOutputs + Skipping(outs, vout as int, outIdx) == Without(outs, vout)
    {
      if outIdx != vout as int {
        updateOutputs := updateOutputs + [outs[outIdx]];
      }
    }
  }

  /** `UTXOSet`: the chain it indexes and the contents of its tree. */
  class UTXOSet {
    const blockchain: Blockchain
    var store: Store

    constructor (blockchain: Blockchain, store: Store)
      ensures this.blockchain == blockchain && this.store == store
    {
      this.blockchain := blockchain;
      this.store := store;
    }

    /** `UTXOSet::reindex`: drops the tree and writes one entry per id that
        the chain scan reports. */
    method Reindex()
      requires blockchain.Valid()
      modifies this
      ensures store == ChainScans.FindUtxo(blockchain.chain)
    {
      var utxos := blockchain.FindUtxo();
      var db: Store := map[];
      var pending := utxos.Keys;
      while pending != {}
        invariant pending <= utxos.Keys
        invariant db.Keys == utxos.Keys - pending
        invariant forall k | k in db :: db[k] == utxos[k]
        decreases pending
      {
        var txid :| txid in pending;
        db := db[txid := utxos[txid]];
        pending := pending - {txid};
      }
      store := db;
    }

    /** `UTXOSet::update`: applies the block's transactions in order. */
    method Update(block: Block)
      requires TxsFound(store, block.transactions)
      modifies this
      ensures store == UpdateTxs(old(store), block.transactions)
    {
      var txs := block.transactions;
      for j := 0 to |txs|
        invariant TxsFound(store, txs[j..])
        invariant UpdateTxs(store, txs[j..]) == UpdateTxs(old(store), txs)
      {
        var tx := txs[j];
        assert txs[j..][1..] == txs[j + 1..];
        ghost var before := store;
        assert TxFound(before, tx) && TxsFound(UpdateTx(before, tx), txs[j + 1..]);
        if !IsCoinbase(tx) {
          for k := 0 to |tx.vin|
            invariant InputsFound(store, tx.vin[k..])
            invariant UpdateInputs(store, tx.vin[k..]) == UpdateInputs(before, tx.vin)
          {
            var input := tx.vin[k];
            assert tx.vin[k..][1..] == tx.vin[k + 1..];
            var outs := store[input.txid];
            var updateOutputs := CopyWithout(outs, input.vout);
            if updateOutputs == [] {
              store := store - {input.txid};
            } else {
              store := store[input.txid := updateOutputs];
            }
          }
        }
        var newOutputs: TxOutputs := [];
        for i := 0 to |tx.vout|
          invariant newOutputs == tx.vout[..i]
        {
          newOutputs := newOutputs + [tx.vout[i]];
        }
        assert newOutputs == tx.vout;
        store := store[tx.id := newOutputs];
        assert store == UpdateTx(before, tx);
      }
    }

    /** `UTXOSet::count_transactions`: the number of ids in the tree. */
    method CountTransactions() returns (counter: i32)
      requires |store| <= I32Max
      ensures counter as int == |store|
    {
      counter := 0;
      var pending := store.Keys;
      while pending != {}
        invariant pending <= store.Keys
        invariant counter as int + |pending| == |store|
        decreases pending
      {
        var k :| k in pending;
        pending := pending - {k};
        counter := counter + 1;
      }
    }
  }
}
