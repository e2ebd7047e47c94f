/** What the full-chain scans of `src/blockchain.rs` compute, as functions
    of the blocks in iteration order (tip first, genesis last): transaction
    lookup, `find_UTXO` and `find_unspent_transactions`. Each scan is a fold
    that carries a map of outputs already seen spent. */
module ChainScans {
  import opened Common
  import opened Tx
  import opened Transactions
  import opened Blocks

  // ---------------------------------------------------------------------
  // find_transaction / get_prev_txs

  /** The first transaction of `txs` whose id is `id`. */
  function FindInTxs(txs: seq<Transaction>, id: string): Option<Transaction>
  {
    if txs == [] then None
    else if txs[0].id == id then Some(txs[0])
    else FindInTxs(txs[1..], id)
  }

  /** `find_transaction` over the blocks in iteration order. */
  function FindTx(blocks: seq<Block>, id: string): Result<Transaction>
    decreases |blocks|
  {
    if blocks == [] then Err(TxNotFound)
    else match FindInTxs(blocks[0].transactions, id)
      case Some(tx) => Ok(tx)
      case None => FindTx(blocks[1..], id)
  }

  predicate ContainsId(blocks: seq<Block>, id: string)
  {
    exists i, j | 0 <= i < |blocks| && 0 <= j < |blocks[i].transactions| :: blocks[i].transactions[j].id == id
  }

  lemma {:induction false} FindInTxsFirst(txs: seq<Transaction>, id: string)
    ensures FindInTxs(txs, id).None? <==> forall j | 0 <= j < |txs| :: txs[j].id != id
    ensures FindInTxs(txs, id).Some? ==>
              exists j | 0 <= j < |txs| :: txs[j] == FindInTxs(txs, id).value && txs[j].id == id
                && forall k | 0 <= k < j :: txs[k].id != id
  {
    if txs != [] && txs[0].id != id {
      FindInTxsFirst(txs[1..], id);
      if FindInTxs(txs, id).Some? {
        var j :| 0 <= j < |txs[1..]| && txs[1..][j] == FindInTxs(txs, id).value && txs[1..][j].id == id
                 && forall k | 0 <= k < j :: txs[1..][k].id != id;
        assert txs[j + 1] == FindInTxs(txs, id).value;
        assert forall k | 0 <= k < j + 1 :: txs[k].id != id by {
          forall k | 0 <= k < j + 1 ensures txs[k].id != id {
            if k > 0 { assert txs[k] == txs[1..][k - 1]; }
          }
        }
      }
    } else if txs != [] {
      assert txs[0] == FindInTxs(txs, id).value;
    }
  }

  /** `find_transaction` errors iff no block holds a transaction with that
      id; otherwise it returns the first one met walking from the tip. */
  lemma {:induction false} FindTxFirstMatch(blocks: seq<Block>, id: string)
    ensures FindTx(blocks, id).Err? <==> !ContainsId(blocks, id)
    ensures FindTx(blocks, id).Err? ==> FindTx(blocks, id).error == TxNotFound
    ensures FindTx(blocks, id).Ok? ==>
              var tx := FindTx(blocks, id).value;
              tx.id == id &&
              exists i, j | 0 <= i < |blocks| && 0 <= j < |blocks[i].transactions| ::
                blocks[i].transactions[j] == tx
                && (forall i', j' | 0 <= i' < i && 0 <= j' < |blocks[i'].transactions| ::
                      blocks[i'].transactions[j'].id != id)
                && (forall j' | 0 <= j' < j :: blocks[i].transactions[j'].id != id)
  {
    if blocks != [] {
      FindInTxsFirst(blocks[0].transactions, id);
      if FindInTxs(blocks[0].transactions, id).Some? {
        assert ContainsId(blocks, id) by {
          var j :| 0 <= j < |blocks[0].transactions| && blocks[0].transactions[j].id == id;
        }
      } else {
        FindTxFirstMatch(blocks[1..], id);
        ContainsIdTail(blocks, id);
        if FindTx(blocks, id).Ok? {
          FirstMatchTail(blocks, id, FindTx(blocks, id).value);
        }
      }
    }
  }

  /** When the tip block lacks the id, the chain holds it iff the rest does. */
  lemma ContainsIdTail(blocks: seq<Block>, id: string)
    requires blocks != [] && forall j | 0 <= j < |blocks[0].transactions| :: blocks[0].transactions[j].id != id
    ensures ContainsId(blocks, id) <==> ContainsId(blocks[1..], id)
  {
    if ContainsId(blocks, id) {
      var i, j :| 0 <= i < |blocks| && 0 <= j < |blocks[i].transactions| && blocks[i].transactions[j].id == id;
      assert i > 0 && blocks[1..][i - 1] == blocks[i];
    }
    if ContainsId(blocks[1..], id) {
      var i, j :| 0 <= i < |blocks[1..]| && 0 <= j < |blocks[1..][i].transactions| && blocks[1..][i].transactions[j].id == id;
      assert blocks[i + 1] == blocks[1..][i];
    }
  }

  /** A first match in the rest of the chain is a first match in the whole
      chain when the tip block lacks the id. */
  lemma FirstMatchTail(blocks: seq<Block>, id: string, tx: Transaction)
    requires blocks != [] && forall j | 0 <= j < |blocks[0].transactions| :: blocks[0].transactions[j].id != id
    requires exists i, j | 0 <= i < |blocks[1..]| && 0 <= j < |blocks[1..][i].transactions| ::
                blocks[1..][i].transactions[j] == tx
                && (forall i', j' | 0 <= i' < i && 0 <= j' < |blocks[1..][i'].transactions| ::
                      blocks[1..][i'].transactions[j'].id != id)
                && (forall j' | 0 <= j' < j :: blocks[1..][i].transactions[j'].id != id)
    ensures exists i, j | 0 <= i < |blocks| && 0 <= j < |blocks[i].transactions| ::
                blocks[i].transactions[j] == tx
                && (forall i', j' | 0 <= i' < i && 0 <= j' < |blocks[i'].transactions| ::
                      blocks[i'].transactions[j'].id != id)
                && (forall j' | 0 <= j' < j :: blocks[i].transactions[j'].id != id)
  {
    var i, j :| 0 <= i < |blocks[1..]| && 0 <= j < |blocks[1..][i].transactions| &&
          blocks[1..][i].transactions[j] == tx
          && (forall i', j' | 0 <= i' < i && 0 <= j' < |blocks[1..][i'].transactions| ::
                blocks[1..][i'].transactions[j'].id != id)
          && (forall j' | 0 <= j' < j :: blocks[1..][i].transactions[j'].id != id);
    assert blocks[i + 1] == blocks[1..][i];
    forall i', j' | 0 <= i' < i + 1 && 0 <= j' < |blocks[i'].transactions|
      ensures blocks[i'].transactions[j'].id != id
    {
      if i' > 0 { assert blocks[i'] == blocks[1..][i' - 1]; }
    }
  }

  /** The part of `FindTxFirstMatch` that `get_prev_txs` relies on. */
  lemma FindTxFound(blocks: seq<Block>, id: string)
    ensures FindTx(blocks, id).Err? <==> !ContainsId(blocks, id)
    ensures FindTx(blocks, id).Ok? ==> FindTx(blocks, id).value.id == id
  {
    FindTxFirstMatch(blocks, id);
  }

  /** `get_prev_txs`: every input's previous transaction, keyed by id;
      the first input whose transaction is not found makes it fail. */
  function PrevTxs(blocks: seq<Block>, vin: seq<TxInput>, acc: map<string, Transaction>): Result<map<string, Transaction>>
    decreases |vin|
  {
    if vin == [] then Ok(acc)
    else match FindTx(blocks, vin[0].txid)
      case Err(e) => Err(e)
      case Ok(prev) => PrevTxs(blocks, vin[1..], acc[prev.id := prev])
  }

  /** The ids the inputs reference. */
  function Txids(vin: seq<TxInput>): (r: set<string>)
    ensures forall k | 0 <= k < |vin| :: vin[k].txid in r
    ensures forall t | t in r :: exists k | 0 <= k < |vin| :: vin[k].txid == t
  {
    if vin == [] then {}
    else
      var rest := Txids(vin[1..]);
      assert forall k | 1 <= k < |vin| :: vin[k] == vin[1..][k - 1];
      assert forall t | t in rest :: exists k | 0 <= k < |vin| :: vin[k].txid == t by {
        forall t | t in rest ensures exists k | 0 <= k < |vin| :: vin[k].txid == t {
          var k :| 0 <= k < |vin[1..]| && vin[1..][k].txid == t;
          assert vin[k + 1].txid == t;
        }
      }
      {vin[0].txid} + rest
  }

  /** `get_prev_txs` fails iff some input's transaction is not on the
      chain; otherwise it maps every referenced id to the transaction
      `find_transaction` returns for it, and keeps the rest of `acc`. */
  lemma {:induction false} PrevTxsFound(blocks: seq<Block>, vin: seq<TxInput>, acc: map<string, Transaction>)
    ensures PrevTxs(blocks, vin, acc).Err? <==> exists k | 0 <= k < |vin| :: !ContainsId(blocks, vin[k].txid)
    ensures PrevTxs(blocks, vin, acc).Ok? ==>
              var m := PrevTxs(blocks, vin, acc).value;
              && m.Keys == acc.Keys + Txids(vin)
              && (forall k | 0 <= k < |vin| :: FindTx(blocks, vin[k].txid) == Ok(m[vin[k].txid]))
              && (forall t | t in acc && t !in Txids(vin) :: m[t] == acc[t])
    decreases |vin|
  {
    PrevTxsFails(blocks, vin, acc);
    if PrevTxs(blocks, vin, acc).Ok? {
      PrevTxsMap(blocks, vin, acc);
    }
  }

  lemma {:induction false} PrevTxsFails(blocks: seq<Block>, vin: seq<TxInput>, acc: map<string, Transaction>)
    ensures PrevTxs(blocks, vin, acc).Err? <==> exists k | 0 <= k < |vin| :: !ContainsId(blocks, vin[k].txid)
    decreases |vin|
  {
    if vin != [] {
      FindTxFound(blocks, vin[0].txid);
      match FindTx(blocks, vin[0].txid)
      case Err(e) =>
        assert !ContainsId(blocks, vin[0].txid);
      case Ok(prev) =>
        PrevTxsFails(blocks, vin[1..], acc[prev.id := prev]);
        if exists k | 0 <= k < |vin[1..]| :: !ContainsId(blocks, vin[1..][k].txid) {
          var k :| 0 <= k < |vin[1..]| && !ContainsId(blocks, vin[1..][k].txid);
          assert vin[k + 1] == vin[1..][k];
        }
        if exists k | 0 <= k < |vin| :: !ContainsId(blocks, vin[k].txid) {
          var k :| 0 <= k < |vin| && !ContainsId(blocks, vin[k].txid);
          assert k > 0 && vin[1..][k - 1] == vin[k];
        }
    }
  }

  lemma {:induction false} PrevTxsMap(blocks: seq<Block>, vin: seq<TxInput>, acc: map<string, Transaction>)
    requires PrevTxs(blocks, vin, acc).Ok?
    ensures var m := PrevTxs(blocks, vin, acc).value;
            && m.Keys == acc.Keys + Txids(vin)
            && (forall k | 0 <= k < |vin| :: FindTx(blocks, vin[k].txid) == Ok(m[vin[k].txid]))
            && (forall t | t in acc && t !in Txids(vin) :: m[t] == acc[t])
    decreases |vin|
  {
    if vin != [] {
      FindTxFound(blocks, vin[0].txid);
      var prev := FindTx(blocks, vin[0].txid).value;
      var acc' := acc[prev.id := prev];
      PrevTxsMap(blocks, vin[1..], acc');
      var m := PrevTxs(blocks, vin, acc).value;
      assert m == PrevTxs(blocks, vin[1..], acc').value;
      assert forall k | 1 <= k < |vin| :: vin[k] == vin[1..][k - 1];
      if vin[0].txid in Txids(vin[1..]) {
        var k' :| 0 <= k' < |vin[1..]| && vin[1..][k'].txid == vin[0].txid;
        assert FindTx(blocks, vin[0].txid) == Ok(m[vin[0].txid]);
      } else {
        assert m[vin[0].txid] == prev;
      }
    }
  }

  // ---------------------------------------------------------------------
  // find_UTXO

  /** `spend_txos`: per transaction id, the output indices recorded as spent. */
  type Spent = map<string, seq<int>>

  /** The UTXO map: per transaction id, its outputs found unspent. */
  type UtxoMap = map<string, TxOutputs>

  predicate IsSpent(spent: Spent, id: string, index: int)
  {
    id in spent && index in spent[id]
  }

  /** Records one input's (txid, vout) as spent. */
  function RecordInput(spent: Spent, input: TxInput): Spent
  {
    spent[input.txid := (if input.txid in spent then spent[input.txid] else []) + [input.vout as int]]
  }

  /** Records every input of `vin`, in order. */
  function RecordInputs(spent: Spent, vin: seq<TxInput>): Spent
    decreases |vin|
  {
    if vin == [] then spent else RecordInputs(RecordInput(spent, vin[0]), vin[1..])
  }

  /** Appends `outs` to the entry of `id`, creating it if needed; an empty
      `outs` creates nothing. */
  function Extend(utxos: UtxoMap, id: string, outs: TxOutputs): UtxoMap
  {
    if outs == [] then utxos
    else utxos[id := (if id in utxos then utxos[id] else []) + outs]
  }

  datatype UtxoScan = UtxoScan(utxos: UtxoMap, spent: Spent)

  /** The body of `find_UTXO`'s per-output loop, from output `index` on.
      The input-recording loop sits inside it, after the `continue`: the
      inputs of `tx` are recorded once for every unspent output of `tx`. */
  function ScanOutputs(s: UtxoScan, tx: Transaction, index: nat): UtxoScan
    decreases |tx.vout| - index
  {
    if index >= |tx.vout| then s
    else if IsSpent(s.spent, tx.id, index) then ScanOutputs(s, tx, index + 1)
    else
      var utxos := Extend(s.utxos, tx.id, [tx.vout[index]]);
      var spent := if IsCoinbase(tx) then s.spent else RecordInputs(s.spent, tx.vin);
      ScanOutputs(UtxoScan(utxos, spent), tx, index + 1)
  }

  function ScanTxs(s: UtxoScan, txs: seq<Transaction>): UtxoScan
    decreases |txs|
  {
    if txs == [] then s else ScanTxs(ScanOutputs(s, txs[0], 0), txs[1..])
  }

  function ScanBlocks(s: UtxoScan, blocks: seq<Block>): UtxoScan
    decreases |blocks|
  {
    if blocks == [] then s else ScanBlocks(ScanTxs(s, blocks[0].transactions), blocks[1..])
  }

  const EmptyScan := UtxoScan(map[], map[])

  /** The map `find_UTXO` returns for a chain given in iteration order. */
  function FindUtxo(blocks: seq<Block>): UtxoMap
  {
    ScanBlocks(EmptyScan, blocks).utxos
  }

  /** The outputs of `tx` from `index` on whose index is not recorded as spent. */
  function Kept(tx: Transaction, spent: Spent, index: nat): TxOutputs
    decreases |tx.vout| - index
  {
    if index >= |tx.vout| then []
    else (if IsSpent(spent, tx.id, index) then [] else [tx.vout[index]]) + Kept(tx, spent, index + 1)
  }

  /** Records the inputs `n` times over. */
  function RecordTimes(spent: Spent, vin: seq<TxInput>, n: nat): Spent
    decreases n
  {
    if n == 0 then spent else RecordInputs(RecordTimes(spent, vin, n - 1), vin)
  }

  predicate NoSelfReference(tx: Transaction)
  {
    forall k | 0 <= k < |tx.vin| :: tx.vin[k].txid != tx.id
  }

  /** Recording inputs leaves the entries of other ids alone and adds
      exactly the inputs' pairs. */
  lemma {:induction false} RecordInputsEffect(spent: Spent, vin: seq<TxInput>, id: string, index: int)
    ensures IsSpent(RecordInputs(spent, vin), id, index)
        <==> IsSpent(spent, id, index) || exists k | 0 <= k < |vin| :: vin[k].txid == id && vin[k].vout as int == index
    ensures (forall k | 0 <= k < |vin| :: vin[k].txid != id) ==>
              (id in RecordInputs(spent, vin) <==> id in spent)
              && (id in spent ==> RecordInputs(spent, vin)[id] == spent[id])
    decreases |vin|
  {
    if vin != [] {
      RecordInputsEffect(RecordInput(spent, vin[0]), vin[1..], id, index);
      assert forall k | 1 <= k < |vin| :: vin[k] == vin[1..][k - 1];
      if exists k | 0 <= k < |vin[1..]| :: vin[1..][k].txid == id && vin[1..][k].vout as int == index {
        var k :| 0 <= k < |vin[1..]| && vin[1..][k].txid == id && vin[1..][k].vout as int == index;
        assert vin[k + 1].txid == id && vin[k + 1].vout as int == index;
      }
    }
  }

  lemma {:induction false} RecordTimesEffect(spent: Spent, vin: seq<TxInput>, n: nat, id: string, index: int)
    ensures IsSpent(RecordTimes(spent, vin, n), id, index)
        <==> IsSpent(spent, id, index)
             || (n > 0 && exists k | 0 <= k < |vin| :: vin[k].txid == id && vin[k].vout as int == index)
    ensures (forall k | 0 <= k < |vin| :: vin[k].txid != id) ==>
              (id in RecordTimes(spent, vin, n) <==> id in spent)
              && (id in spent ==> RecordTimes(spent, vin, n)[id] == spent[id])
    decreases n
  {
    if n > 0 {
      RecordTimesEffect(spent, vin, n - 1, id, index);
      RecordInputsEffect(RecordTimes(spent, vin, n - 1), vin, id, index);
    }
  }

  lemma ExtendTwice(utxos: UtxoMap, id: string, a: TxOutputs, b: TxOutputs)
    ensures Extend(Extend(utxos, id, a), id, b) == Extend(utxos, id, a + b)
  {
    if a == [] { assert a + b == b; }
    else if b == [] { assert a + b == a; }
    else {
      var old_ := if id in utxos then utxos[id] else [];
      assert (old_ + a) + b == old_ + (a + b);
    }
  }

  /** One transaction of `find_UTXO`, stated without the loop: the entry of
      `tx.id` grows by exactly the outputs whose index is not recorded as
      spent, in their original order; and the inputs of `tx` are recorded
      once per such output, so not at all when every output is spent. */
  lemma ScanOutputsRecordsOncePerUnspentOutput(s: UtxoScan, tx: Transaction)
    requires NoSelfReference(tx)
    ensures var k := Kept(tx, s.spent, 0);
            ScanOutputs(s, tx, 0) ==
              UtxoScan(Extend(s.utxos, tx.id, k),
                       if IsCoinbase(tx) then s.spent else RecordTimes(s.spent, tx.vin, |k|))
  {
    ScanOutputsFrom(s.utxos, s.spent, 0, tx, 0);
  }

  lemma {:induction false} ScanOutputsFrom(utxos: UtxoMap, spent: Spent, n: nat, tx: Transaction, index: nat)
    requires NoSelfReference(tx)
    requires IsCoinbase(tx) ==> n == 0
    ensures var k := Kept(tx, spent, index);
            ScanOutputs(UtxoScan(utxos, RecordTimes(spent, tx.vin, n)), tx, index) ==
              UtxoScan(Extend(utxos, tx.id, k),
                       if IsCoinbase(tx) then spent else RecordTimes(spent, tx.vin, n + |k|))
    decreases |tx.vout| - index
  {
    var s := UtxoScan(utxos, RecordTimes(spent, tx.vin, n));
    if index < |tx.vout| {
      RecordTimesEffect(spent, tx.vin, n, tx.id, index);
      if IsSpent(s.spent, tx.id, index) {
        ScanOutputsFrom(utxos, spent, n, tx, index + 1);
        assert Kept(tx, spent, index) == Kept(tx, spent, index + 1);
      } else {
        var rest := Kept(tx, spent, index + 1);
        var n' := if IsCoinbase(tx) then 0 else n + 1;
        var utxos' := Extend(utxos, tx.id, [tx.vout[index]]);
        ScanOutputsFrom(utxos', spent, n', tx, index + 1);
        ExtendTwice(utxos, tx.id, [tx.vout[index]], rest);
        if IsCoinbase(tx) {
          assert RecordTimes(spent, tx.vin, 0) == spent;
        }
      }
    } else {
      assert Kept(tx, spent, index) == [];
    }
  }

  /** Every entry `find_UTXO` creates holds at least one output. */
  predicate EntriesNonEmpty(utxos: UtxoMap)
  {
    forall id | id in utxos :: utxos[id] != []
  }

  lemma {:induction false} ScanOutputsNonEmpty(s: UtxoScan, tx: Transaction, index: nat)
    requires EntriesNonEmpty(s.utxos)
    ensures EntriesNonEmpty(ScanOutputs(s, tx, index).utxos)
    decreases |tx.vout| - index
  {
    if index < |tx.vout| {
      if IsSpent(s.spent, tx.id, index) {
        ScanOutputsNonEmpty(s, tx, index + 1);
      } else {
        var spent := if IsCoinbase(tx) then s.spent else RecordInputs(s.spent, tx.vin);
        ScanOutputsNonEmpty(UtxoScan(Extend(s.utxos, tx.id, [tx.vout[index]]), spent), tx, index + 1);
      }
    }
  }

  lemma {:induction false} ScanBlocksNonEmpty(s: UtxoScan, blocks: seq<Block>)
    requires EntriesNonEmpty(s.utxos)
    ensures EntriesNonEmpty(ScanBlocks(s, blocks).utxos)
    decreases |blocks|
  {
    if blocks != [] {
      ScanTxsNonEmpty(s, blocks[0].transactions);
      ScanBlocksNonEmpty(ScanTxs(s, blocks[0].transactions), blocks[1..]);
    }
  }

  lemma {:induction false} ScanTxsNonEmpty(s: UtxoScan, txs: seq<Transaction>)
    requires EntriesNonEmpty(s.utxos)
    ensures EntriesNonEmpty(ScanTxs(s, txs).utxos)
    decreases |txs|
  {
    if txs != [] {
      ScanOutputsNonEmpty(s, txs[0], 0);
      ScanTxsNonEmpty(ScanOutputs(s, txs[0], 0), txs[1..]);
    }
  }

  /** `find_UTXO` never maps an id to an empty list. */
  lemma FindUtxoEntriesNonEmpty(blocks: seq<Block>)
    ensures EntriesNonEmpty(FindUtxo(blocks))
  {
    ScanBlocksNonEmpty(EmptyScan, blocks);
  }

  /** The indices from `index` on that are not recorded as spent for `tx`. */
  function UnspentIndices(tx: Transaction, spent: Spent, index: nat): set<nat>
  {
    set i: nat | index <= i < |tx.vout| && !IsSpent(spent, tx.id, i)
  }

  lemma UnspentIndicesStep(tx: Transaction, spent: Spent, index: nat)
    requires index < |tx.vout|
    ensures index !in UnspentIndices(tx, spent, index + 1)
    ensures UnspentIndices(tx, spent, index)
         == (if IsSpent(spent, tx.id, index) then {} else {index}) + UnspentIndices(tx, spent, index + 1)
  {
  }

  /** The unspent indices from `index` on that come before `i`. */
  function Below(tx: Transaction, spent: Spent, index: nat, i: nat): set<nat>
  {
    set j | j in UnspentIndices(tx, spent, index) && j < i
  }

  /** The kept outputs are the outputs of `tx` at unspent indices, one per
      unspent index, in their original order: the output at unspent index
      `i` sits at the position given by the number of unspent indices
      before `i`. */
  lemma KeptAreTheUnspentOutputs(tx: Transaction, spent: Spent, index: nat)
    ensures |Kept(tx, spent, index)| == |UnspentIndices(tx, spent, index)|
    ensures forall p | 0 <= p < |Kept(tx, spent, index)| ::
              exists i | i in UnspentIndices(tx, spent, index) :: Kept(tx, spent, index)[p] == tx.vout[i]
    ensures forall i | i in UnspentIndices(tx, spent, index) ::
              |Below(tx, spent, index, i)| < |Kept(tx, spent, index)|
              && Kept(tx, spent, index)[|Below(tx, spent, index, i)|] == tx.vout[i]
  {
    KeptCount(tx, spent, index);
    KeptMembers(tx, spent, index);
    KeptInOrderAll(tx, spent, index);
  }

  lemma KeptInOrderAll(tx: Transaction, spent: Spent, index: nat)
    ensures forall i | i in UnspentIndices(tx, spent, index) ::
              |Below(tx, spent, index, i)| < |Kept(tx, spent, index)|
              && Kept(tx, spent, index)[|Below(tx, spent, index, i)|] == tx.vout[i]
  {
    forall i | i in UnspentIndices(tx, spent, index)
      ensures |Below(tx, spent, index, i)| < |Kept(tx, spent, index)|
              && Kept(tx, spent, index)[|Below(tx, spent, index, i)|] == tx.vout[i]
    {
      KeptInOrder(tx, spent, index, i);
    }
  }

  lemma BelowStep(tx: Transaction, spent: Spent, index: nat, i: nat)
    requires index < i
    ensures index !in Below(tx, spent, index + 1, i)
    ensures Below(tx, spent, index, i)
         == (if IsSpent(spent, tx.id, index) || index >= |tx.vout| then {} else {index}) + Below(tx, spent, index + 1, i)
  {
  }

  /** The output at unspent index `i` sits in the kept outputs at the number
      of unspent indices before it. */
  lemma {:induction false} KeptInOrder(tx: Transaction, spent: Spent, index: nat, i: nat)
    requires i in UnspentIndices(tx, spent, index)
    ensures |Below(tx, spent, index, i)| < |Kept(tx, spent, index)|
    ensures Kept(tx, spent, index)[|Below(tx, spent, index, i)|] == tx.vout[i]
    decreases |tx.vout| - index
  {
    var rest := Kept(tx, spent, index + 1);
    if i == index {
      assert Below(tx, spent, index, i) == {};
      assert Kept(tx, spent, index) == [tx.vout[index]] + rest;
    } else {
      BelowStep(tx, spent, index, i);
      KeptInOrder(tx, spent, index + 1, i);
      var skip := if IsSpent(spent, tx.id, index) then 0 else 1;
      var before := Below(tx, spent, index + 1, i);
      assert |Below(tx, spent, index, i)| == skip + |before|;
      assert Kept(tx, spent, index) == (if skip == 0 then [] else [tx.vout[index]]) + rest;
    }
  }

  lemma {:induction false} KeptCount(tx: Transaction, spent: Spent, index: nat)
    ensures |Kept(tx, spent, index)| == |UnspentIndices(tx, spent, index)|
    decreases |tx.vout| - index
  {
    if index >= |tx.vout| {
      assert UnspentIndices(tx, spent, index) == {};
    } else {
      KeptCount(tx, spent, index + 1);
      UnspentIndicesStep(tx, spent, index);
    }
  }

  lemma {:induction false} KeptMembers(tx: Transaction, spent: Spent, index: nat)
    ensures forall p | 0 <= p < |Kept(tx, spent, index)| ::
              exists i | i in UnspentIndices(tx, spent, index) :: Kept(tx, spent, index)[p] == tx.vout[i]
    decreases |tx.vout| - index
  {
    var k := Kept(tx, spent, index);
    if index >= |tx.vout| {
      assert k == [];
    } else {
      KeptMembers(tx, spent, index + 1);
      UnspentIndicesStep(tx, spent, index);
      var rest := Kept(tx, spent, index + 1);
      var skip := if IsSpent(spent, tx.id, index) then 0 else 1;
      assert k == (if skip == 0 then [] else [tx.vout[index]]) + rest;
      forall p | 0 <= p < |k| ensures exists i | i in UnspentIndices(tx, spent, index) :: k[p] == tx.vout[i] {
        if p < skip {
          assert index in UnspentIndices(tx, spent, index) && k[p] == tx.vout[index];
        } else {
          assert k[p] == rest[p - skip];
          var i :| i in UnspentIndices(tx, spent, index + 1) && rest[p - skip] == tx.vout[i];
          assert i in UnspentIndices(tx, spent, index);
        }
      }
    }
  }

  // ---------------------------------------------------------------------
  // find_unspent_transactions

  datatype UnspentScan = UnspentScan(txs: seq<Transaction>, spent: Spent)

  /** One copy of `tx` per output from `index` on that is unspent and
      locked to `address`. */
  function UnspentCopies(tx: Transaction, spent: Spent, address: Bytes, index: nat): seq<Transaction>
    decreases |tx.vout| - index
  {
    if index >= |tx.vout| then []
    else
      (if !IsSpent(spent, tx.id, index) && CanBeUnlockWith(tx.vout[index], address) then [tx] else [])
      + UnspentCopies(tx, spent, address, index + 1)
  }

  /** Records the inputs whose key hashes to `address`. */
  function RecordOwned(spent: Spent, vin: seq<TxInput>, address: Bytes, hashPubKey: Bytes -> Bytes): Spent
    decreases |vin|
  {
    if vin == [] then spent
    else RecordOwned(if CanUnlockOutputWith(vin[0], address, hashPubKey) then RecordInput(spent, vin[0]) else spent,
                     vin[1..], address, hashPubKey)
  }

  /** Recording owned inputs marks exactly the pairs referenced by inputs
      whose public key hashes to `address`, and keeps the earlier marks. */
  lemma {:induction false} RecordOwnedEffect(spent: Spent, vin: seq<TxInput>, address: Bytes,
                                             hashPubKey: Bytes -> Bytes, id: string, index: int)
    ensures IsSpent(RecordOwned(spent, vin, address, hashPubKey), id, index)
        <==> IsSpent(spent, id, index)
             || exists k | 0 <= k < |vin| :: CanUnlockOutputWith(vin[k], address, hashPubKey)
                                             && vin[k].txid == id && vin[k].vout as int == index
    decreases |vin|
  {
    if vin != [] {
      var next := if CanUnlockOutputWith(vin[0], address, hashPubKey) then RecordInput(spent, vin[0]) else spent;
      RecordOwnedEffect(next, vin[1..], address, hashPubKey, id, index);
      assert forall k | 1 <= k < |vin| :: vin[k] == vin[1..][k - 1];
      if exists k | 0 <= k < |vin[1..]| :: CanUnlockOutputWith(vin[1..][k], address, hashPubKey)
                                           && vin[1..][k].txid == id && vin[1..][k].vout as int == index {
        var k :| 0 <= k < |vin[1..]| && CanUnlockOutputWith(vin[1..][k], address, hashPubKey)
                 && vin[1..][k].txid == id && vin[1..][k].vout as int == index;
        assert CanUnlockOutputWith(vin[k + 1], address, hashPubKey)
               && vin[k + 1].txid == id && vin[k + 1].vout as int == index;
      }
    }
  }

  function UnspentTxs(s: UnspentScan, txs: seq<Transaction>, address: Bytes, hashPubKey: Bytes -> Bytes): UnspentScan
    decreases |txs|
  {
    if txs == [] then s
    else
      var tx := txs[0];
      var found := s.txs + UnspentCopies(tx, s.spent, address, 0);
      var spent := if IsCoinbase(tx) then s.spent else RecordOwned(s.spent, tx.vin, address, hashPubKey);
      UnspentTxs(UnspentScan(found, spent), txs[1..], address, hashPubKey)
  }

  function UnspentBlocks(s: UnspentScan, blocks: seq<Block>, address: Bytes, hashPubKey: Bytes -> Bytes): UnspentScan
    decreases |blocks|
  {
    if blocks == [] then s
    else UnspentBlocks(UnspentTxs(s, blocks[0].transactions, address, hashPubKey), blocks[1..], address, hashPubKey)
  }

  /** The list `find_unspent_transactions` returns for a chain in iteration order. */
  function FindUnspentTransactions(blocks: seq<Block>, address: Bytes, hashPubKey: Bytes -> Bytes): seq<Transaction>
  {
    UnspentBlocks(UnspentScan([], map[]), blocks, address, hashPubKey).txs
  }

  /** The indices from `index` on of outputs that are unspent and locked to `address`. */
  function OwnedUnspent(tx: Transaction, spent: Spent, address: Bytes, index: nat): set<nat>
  {
    set i: nat | index <= i < |tx.vout| && !IsSpent(spent, tx.id, i) && CanBeUnlockWith(tx.vout[i], address)
  }

  lemma OwnedUnspentStep(tx: Transaction, spent: Spent, address: Bytes, index: nat)
    requires index < |tx.vout|
    ensures index !in OwnedUnspent(tx, spent, address, index + 1)
    ensures OwnedUnspent(tx, spent, address, index)
         == (if !IsSpent(spent, tx.id, index) && CanBeUnlockWith(tx.vout[index], address) then {index} else {})
            + OwnedUnspent(tx, spent, address, index + 1)
  {
  }

  /** A transaction is listed once per output that is unspent and locked
      to the address, and nothing else is listed for it. */
  lemma {:induction false} UnspentCopiesCount(tx: Transaction, spent: Spent, address: Bytes, index: nat)
    ensures |UnspentCopies(tx, spent, address, index)| == |OwnedUnspent(tx, spent, address, index)|
    ensures forall p | 0 <= p < |UnspentCopies(tx, spent, address, index)| :: UnspentCopies(tx, spent, address, index)[p] == tx
    decreases |tx.vout| - index
  {
    if index >= |tx.vout| {
      assert OwnedUnspent(tx, spent, address, index) == {};
    } else {
      UnspentCopiesCount(tx, spent, address, index + 1);
      OwnedUnspentStep(tx, spent, address, index);
    }
  }
}
