/** Transactions (`src/transaction.rs`): the coinbase shape, spend
    construction from an already selected set of outputs, the trimmed copy
    used for signing, and `sign` as written (it computes one digest per
    input on a local copy and stores nothing on the transaction). */
module Transactions {
  import opened Common
  import opened Tx

  datatype Transaction = Transaction(id: string, vin: seq<TxInput>, vout: seq<TxOutput>)

  /** The value of the single output of every coinbase transaction. */
  const CoinbaseReward: i32 := 100

  /** The structural coinbase test: one input, empty referenced id, index -1. */
  predicate IsCoinbase(tx: Transaction)
  {
    |tx.vin| == 1 && tx.vin[0].txid == "" && tx.vin[0].vout == -1
  }

  /** `set_id`: the id becomes the digest of the serialized transaction
      (`txDigest` stands for SHA-256 over bincode); inputs and outputs stay. */
  function SetId(tx: Transaction, txDigest: Transaction -> HexDigest): (r: Transaction)
    ensures r.vin == tx.vin && r.vout == tx.vout
    ensures |r.id| == 64 && r.id == txDigest(tx)
  {
    tx.(id := txDigest(tx))
  }

  /** The unlocking data of a coinbase input: the caller's text, or a
      reward note naming the recipient when the text is empty. */
  function CoinbaseData(to: string, data: string): (r: string)
    ensures data != "" ==> r == data
    ensures data == "" ==> r == "Reward to '" + to + "'"
  {
    if data == "" then "Reward to '" + to + "'" else data
  }

  /** `Transaction::new_coinbase`: the sentinel input carries the data,
      the single output pays the fixed reward to `to`. */
  function NewCoinbase(to: string, data: string, txDigest: Transaction -> HexDigest): (r: Transaction)
    ensures IsCoinbase(r)
    ensures |r.vout| == 1 && r.vout[0].value == CoinbaseReward && r.vout[0].pubKeyHash == Utf8(to)
    ensures r.vin[0].pubKey == Utf8(CoinbaseData(to, data)) && r.vin[0].signature == []
    ensures r.id == txDigest(r.(id := ""))
  {
    SetId(Transaction("", [TxInput("", -1, [], Utf8(CoinbaseData(to, data)))],
                      [TxOutput(CoinbaseReward, Utf8(to))]), txDigest)
  }

  /** What `find_spendable_outputs` hands to `new_UTXO`: the accumulated
      value and, per transaction id, the chosen output indices. */
  datatype Spendable = Spendable(accumulated: i32, outputs: seq<(string, seq<i32>)>)

  /** The selected (txid, index) pairs, flattened in selection order. */
  function Pairs(sel: seq<(string, seq<i32>)>): seq<(string, i32)>
  {
    if sel == [] then [] else PairsOf(sel[0].0, sel[0].1) + Pairs(sel[1..])
  }

  function PairsOf(txid: string, indices: seq<i32>): (r: seq<(string, i32)>)
    ensures |r| == |indices|
    ensures forall k | 0 <= k < |r| :: r[k] == (txid, indices[k])
  {
    if indices == [] then [] else [(txid, indices[0])] + PairsOf(txid, indices[1..])
  }

  /** Number of selected output indices. */
  function Selected(sel: seq<(string, seq<i32>)>): nat
  {
    if sel == [] then 0 else |sel[0].1| + Selected(sel[1..])
  }

  /** One pair per selected index, and a pair is listed iff its index was
      selected for its transaction id. */
  lemma {:induction false} PairsOfSelection(sel: seq<(string, seq<i32>)>, p: (string, i32))
    ensures |Pairs(sel)| == Selected(sel)
    ensures p in Pairs(sel) <==> exists j | 0 <= j < |sel| :: sel[j].0 == p.0 && p.1 in sel[j].1
  {
    if sel != [] {
      PairsOfSelection(sel[1..], p);
      var head := PairsOf(sel[0].0, sel[0].1);
      assert Pairs(sel) == head + Pairs(sel[1..]);
      if p in head {
        assert sel[0].0 == p.0 && p.1 in sel[0].1;
      }
      if exists j | 0 <= j < |sel| :: sel[j].0 == p.0 && p.1 in sel[j].1 {
        var j :| 0 <= j < |sel| && sel[j].0 == p.0 && p.1 in sel[j].1;
        if j == 0 {
          var k :| 0 <= k < |sel[0].1| && sel[0].1[k] == p.1;
          assert head[k] == p;
        } else {
          assert sel[1..][j - 1] == sel[j];
        }
      }
    }
  }

  /** The pairs of a concatenated selection are the concatenated pairs. */
  lemma {:induction false} PairsAppend(s1: seq<(string, seq<i32>)>, s2: seq<(string, seq<i32>)>)
    ensures Pairs(s1 + s2) == Pairs(s1) + Pairs(s2)
  {
    if s1 == [] {
      assert s1 + s2 == s2;
    } else {
      assert (s1 + s2)[0] == s1[0];
      assert (s1 + s2)[1..] == s1[1..] + s2;
      PairsAppend(s1[1..], s2);
    }
  }

  function SumValues(outs: seq<TxOutput>): int
  {
    if outs == [] then 0 else outs[0].value + SumValues(outs[1..])
  }

  /** One unsigned input per (txid, vout) pair, carrying `key`. */
  function UnsignedInputs(pairs: seq<(string, i32)>, key: Bytes): (r: seq<TxInput>)
  {
    seq(|pairs|, k requires 0 <= k < |pairs| => TxInput(pairs[k].0, pairs[k].1, [], key))
  }

  lemma UnsignedInputsAppend(a: seq<(string, i32)>, b: seq<(string, i32)>, key: Bytes)
    ensures UnsignedInputs(a + b, key) == UnsignedInputs(a, key) + UnsignedInputs(b, key)
  {
  }

  /** The inner loop of `new_UTXO`: one input per selected index of `txid`. */
  method AppendInputs(vin: seq<TxInput>, txid: string, outs: seq<i32>, key: Bytes) returns (r: seq<TxInput>)
    ensures r == vin + UnsignedInputs(PairsOf(txid, outs), key)
  {
    r := vin;
    for i := 0 to |outs|
      invariant |r| == |vin| + i && r[..|vin|] == vin
      invariant forall k | 0 <= k < i :: r[|vin| + k] == TxInput(txid, outs[k], [], key)
    {
      r := r + [TxInput(txid, outs[i], [], key)];
    }
    assert r == vin + UnsignedInputs(PairsOf(txid, outs), key);
  }

  /** `Transaction::new_UTXO` with the spendable selection passed in.
      Fails, reporting the balance, iff the selection does not cover
      `amount`; otherwise one input per selected pair carrying the sender's
      key, a payment output and, when there is a remainder, a change output. */
  method NewUtxo(from: string, to: string, amount: i32, spendable: Spendable,
                 txDigest: Transaction -> HexDigest) returns (r: Result<Transaction>)
    requires spendable.accumulated < amount || spendable.accumulated - amount <= I32Max
    ensures r.Err? <==> spendable.accumulated < amount
    ensures r.Err? ==> r.error == NotEnoughBalance(spendable.accumulated)
    ensures r.Ok? ==> |r.value.vin| == |Pairs(spendable.outputs)|
    ensures r.Ok? ==> forall k | 0 <= k < |r.value.vin| ::
              r.value.vin[k] == TxInput(Pairs(spendable.outputs)[k].0, Pairs(spendable.outputs)[k].1, [], Utf8(from))
    ensures r.Ok? ==> (|r.value.vout| == 2 <==> spendable.accumulated > amount) && 1 <= |r.value.vout| <= 2
    ensures r.Ok? ==> r.value.vout[0] == TxOutput(amount, Utf8(to))
    ensures r.Ok? && |r.value.vout| == 2 ==> r.value.vout[1] == TxOutput(spendable.accumulated - amount, Utf8(from))
    ensures r.Ok? ==> SumValues(r.value.vout) == spendable.accumulated
    ensures r.Ok? ==> r.value.id == txDigest(r.value.(id := ""))
  {
    var acc := spendable.accumulated;
    if acc < amount {
      return Err(NotEnoughBalance(acc));
    }
    var fromKey := Utf8(from);
    var sel := spendable.outputs;
    var vin: seq<TxInput> := [];
    for j := 0 to |sel|
      invariant vin == UnsignedInputs(Pairs(sel[..j]), fromKey)
    {
      vin := AppendInputs(vin, sel[j].0, sel[j].1, fromKey);
      PairsAppend(sel[..j], [sel[j]]);
      assert sel[..j + 1] == sel[..j] + [sel[j]];
      var single: seq<(string, seq<i32>)> := [sel[j]];
      assert Pairs(single) == PairsOf(sel[j].0, sel[j].1) by {
        assert single[1..] == [];
      }
      UnsignedInputsAppend(Pairs(sel[..j]), PairsOf(sel[j].0, sel[j].1), fromKey);
    }
    assert sel[..|sel|] == sel;
    var vout := [TxOutput(amount, Utf8(to))];
    if acc > amount {
      vout := vout + [TxOutput(acc - amount, fromKey)];
    }
    assert SumValues(vout) == acc by {
      if acc > amount {
        assert vout[1..][1..] == [];
        assert SumValues(vout[1..]) == acc - amount;
      } else {
        assert vout[1..] == [];
      }
    }
    var tx := Transaction("", vin, vout);
    return Ok(SetId(tx, txDigest));
  }

  /** An input with its signature and public key cleared. */
  function TrimmedInput(input: TxInput): TxInput
  {
    TxInput(input.txid, input.vout, [], [])
  }

  /** The value `trim_copy` builds: same id and outputs, every input
      reduced to its (txid, vout) reference. */
  function Trimmed(tx: Transaction): (r: Transaction)
  {
    Transaction(tx.id, seq(|tx.vin|, k requires 0 <= k < |tx.vin| => TrimmedInput(tx.vin[k])), tx.vout)
  }

  /** Two transactions that differ only in their inputs' signatures and
      public keys have the same trimmed copy, so the signing digests cannot
      depend on the unlocking data; trimming twice changes nothing. */
  lemma TrimmedIgnoresUnlockingData(tx: Transaction, other: Transaction)
    requires other.id == tx.id && other.vout == tx.vout && |other.vin| == |tx.vin|
    requires forall k | 0 <= k < |tx.vin| ::
               other.vin[k].txid == tx.vin[k].txid && other.vin[k].vout == tx.vin[k].vout
    ensures Trimmed(other) == Trimmed(tx)
    ensures Trimmed(Trimmed(tx)) == Trimmed(tx)
  {
  }

  /** `Transaction::trim_copy`, built input by input and output by output. */
  method TrimCopy(tx: Transaction) returns (copy: Transaction)
    ensures copy.id == tx.id && copy.vout == tx.vout && |copy.vin| == |tx.vin|
    ensures forall k | 0 <= k < |tx.vin| ::
              copy.vin[k].txid == tx.vin[k].txid && copy.vin[k].vout == tx.vin[k].vout
              && copy.vin[k].signature == [] && copy.vin[k].pubKey == []
    ensures copy == Trimmed(tx)
  {
    var vin: seq<TxInput> := [];
    var vout: seq<TxOutput> := [];
    for k := 0 to |tx.vin|
      invariant |vin| == k
      invariant forall m | 0 <= m < k :: vin[m] == TrimmedInput(tx.vin[m])
    {
      vin := vin + [TxInput(tx.vin[k].txid, tx.vin[k].vout, [], [])];
    }
    for k := 0 to |tx.vout|
      invariant vout == tx.vout[..k]
    {
      vout := vout + [TxOutput(tx.vout[k].value, tx.vout[k].pubKeyHash)];
    }
    assert vout == tx.vout;
    copy := Transaction(tx.id, vin, vout);
  }

  /** Every input references a previous transaction with a non-empty id. */
  predicate PrevIdsNonEmpty(tx: Transaction, prevTxs: map<string, Transaction>)
    requires forall k | 0 <= k < |tx.vin| :: tx.vin[k].txid in prevTxs
  {
    forall k | 0 <= k < |tx.vin| :: prevTxs[tx.vin[k].txid].id != ""
  }

  /** Every input's index is a position in its previous transaction's outputs. */
  predicate PrevOutputsExist(tx: Transaction, prevTxs: map<string, Transaction>)
  {
    forall k | 0 <= k < |tx.vin| ::
      tx.vin[k].txid in prevTxs && 0 <= tx.vin[k].vout < |prevTxs[tx.vin[k].txid].vout|
  }

  /** The trimmed copy with input `k`'s public-key field set to the
      public-key hash of the output it spends, and `id` as its id. */
  function SigningCopy(base: Transaction, id: string, k: nat, prevTxs: map<string, Transaction>): Transaction
    requires PrevOutputsExist(base, prevTxs) && k < |base.vin|
  {
    var input := base.vin[k];
    var prevHash := prevTxs[input.txid].vout[input.vout].pubKeyHash;
    base.(id := id, vin := base.vin[k := input.(signature := [], pubKey := prevHash)])
  }

  /** The per-input digests `sign` computes from input `k` on, when the
      copy's id is `id`: each digest becomes the copy's id before the next. */
  function SigningDigests(base: Transaction, id: string, k: nat, prevTxs: map<string, Transaction>,
                          txHash: Transaction -> Result<HexDigest>): (r: Result<seq<HexDigest>>)
    requires PrevOutputsExist(base, prevTxs) && k <= |base.vin|
    ensures r.Ok? ==> |r.value| == |base.vin| - k
    decreases |base.vin| - k
  {
    if k == |base.vin| then Ok([])
    else match txHash(SigningCopy(base, id, k, prevTxs))
      case Err(e) => Err(e)
      case Ok(d) =>
        match SigningDigests(base, d, k + 1, prevTxs, txHash)
        case Err(e) => Err(e)
        case Ok(ds) => Ok([d] + ds)
  }

  function OutcomeOf<T>(r: Result<T>): Outcome
  {
    match r
    case Ok(_) => Pass
    case Err(e) => Fail(e)
  }

  /** `Transaction::sign` as written. A coinbase is left alone; an input
      whose previous transaction has an empty id is an error; otherwise a
      digest is computed per input on the trimmed copy and the outcome is
      that of those hash calls. The transaction itself is returned exactly
      as it came: no signature is stored. */
  method Sign(tx: Transaction, privateKey: Bytes, prevTxs: map<string, Transaction>,
              txHash: Transaction -> Result<HexDigest>) returns (r: Outcome, signed: Transaction)
    requires !IsCoinbase(tx) ==> forall k | 0 <= k < |tx.vin| :: tx.vin[k].txid in prevTxs
    requires !IsCoinbase(tx) && PrevIdsNonEmpty(tx, prevTxs) ==> PrevOutputsExist(tx, prevTxs)
    ensures signed == tx
    ensures IsCoinbase(tx) ==> r == Pass
    ensures !IsCoinbase(tx) && !PrevIdsNonEmpty(tx, prevTxs) ==> r == Fail(PrevTxIncorrect)
    ensures !IsCoinbase(tx) && PrevIdsNonEmpty(tx, prevTxs) ==>
              r == OutcomeOf(SigningDigests(Trimmed(tx), tx.id, 0, prevTxs, txHash))
  {
    signed := tx;
    if IsCoinbase(tx) {
      return Pass, signed;
    }
    var ok := CheckPrevIds(tx, prevTxs);
    if !ok {
      return Fail(PrevTxIncorrect), signed;
    }
    var copy := TrimCopy(tx);
    ghost var base := copy;
    assert PrevOutputsExist(base, prevTxs);
    r := Pass;
    var k := 0;
    while k < |copy.vin|
      invariant 0 <= k <= |copy.vin| && |copy.vin| == |base.vin|
      invariant copy == base.(id := copy.id)
      invariant OutcomeOf(SigningDigests(base, copy.id, k, prevTxs, txHash))
                  == OutcomeOf(SigningDigests(base, tx.id, 0, prevTxs, txHash))
    {
      var input := copy.vin[k];
      var prev := prevTxs[input.txid];
      copy := copy.(vin := copy.vin[k := input.(signature := [], pubKey := prev.vout[input.vout].pubKeyHash)]);
      assert copy == SigningCopy(base, copy.id, k, prevTxs);
      var h := txHash(copy);
      if h.Err? {
        return Fail(h.error), signed;
      }
      copy := copy.(id := h.value, vin := copy.vin[k := copy.vin[k].(pubKey := [])]);
      assert copy.vin == base.vin;
      k := k + 1;
    }
  }

  /** The transaction with input `k`'s signature replaced by `sigs[k]`. */
  function WithSignatures(tx: Transaction, sigs: seq<Bytes>): Transaction
    requires |sigs| == |tx.vin|
  {
    tx.(vin := seq(|tx.vin|, k requires 0 <= k < |tx.vin| => tx.vin[k].(signature := sigs[k])))
  }

  function Signatures(privateKey: Bytes, digests: seq<HexDigest>, signFn: (Bytes, HexDigest) -> Bytes): seq<Bytes>
  {
    seq(|digests|, k requires 0 <= k < |digests| => signFn(privateKey, digests[k]))
  }

  /** Every input carries the signature, under `privateKey`, of the digest
      `sign` computes for it. */
  predicate SignedBy(tx: Transaction, privateKey: Bytes, prevTxs: map<string, Transaction>,
                     txHash: Transaction -> Result<HexDigest>, signFn: (Bytes, HexDigest) -> Bytes)
    requires PrevOutputsExist(tx, prevTxs)
  {
    var r := SigningDigests(Trimmed(tx), tx.id, 0, prevTxs, txHash);
    r.Ok? && forall k | 0 <= k < |tx.vin| :: tx.vin[k].signature == signFn(privateKey, r.value[k])
  }

  /** A result whose digest list is extended at the front by `ds`. */
  function Prepend(ds: seq<HexDigest>, r: Result<seq<HexDigest>>): Result<seq<HexDigest>>
  {
    match r
    case Ok(v) => Ok(ds + v)
    case Err(e) => Err(e)
  }

  /** One step of the digest loop, seen from the digests collected so far. */
  lemma DigestStep(base: Transaction, id: string, k: nat, prevTxs: map<string, Transaction>,
                   txHash: Transaction -> Result<HexDigest>, ds: seq<HexDigest>)
    requires PrevOutputsExist(base, prevTxs) && k < |base.vin|
    ensures var h := txHash(SigningCopy(base, id, k, prevTxs));
            (h.Err? ==> Prepend(ds, SigningDigests(base, id, k, prevTxs, txHash)) == Err(h.error))
            && (h.Ok? ==> Prepend(ds, SigningDigests(base, id, k, prevTxs, txHash))
                          == Prepend(ds + [h.value], SigningDigests(base, h.value, k + 1, prevTxs, txHash)))
  {
    var h := txHash(SigningCopy(base, id, k, prevTxs));
    if h.Ok? {
      var rest := SigningDigests(base, h.value, k + 1, prevTxs, txHash);
      if rest.Ok? {
        assert ds + ([h.value] + rest.value) == ds + [h.value] + rest.value;
      }
    }
  }

  /** `sign` as evidently intended: the same digests, each signed with the
      private key and stored as the signature of its input. */
  method SignCorrected(tx: Transaction, privateKey: Bytes, prevTxs: map<string, Transaction>,
                       txHash: Transaction -> Result<HexDigest>, signFn: (Bytes, HexDigest) -> Bytes)
    returns (r: Outcome, signed: Transaction)
    requires !IsCoinbase(tx) ==> forall k | 0 <= k < |tx.vin| :: tx.vin[k].txid in prevTxs
    requires !IsCoinbase(tx) && PrevIdsNonEmpty(tx, prevTxs) ==> PrevOutputsExist(tx, prevTxs)
    ensures IsCoinbase(tx) ==> r == Pass && signed == tx
    ensures !IsCoinbase(tx) && !PrevIdsNonEmpty(tx, prevTxs) ==> r == Fail(PrevTxIncorrect) && signed == tx
    ensures !IsCoinbase(tx) && PrevIdsNonEmpty(tx, prevTxs) ==>
              match SigningDigests(Trimmed(tx), tx.id, 0, prevTxs, txHash)
              case Err(e) => r == Fail(e)
              case Ok(ds) => r == Pass && signed == WithSignatures(tx, Signatures(privateKey, ds, signFn))
  {
    if IsCoinbase(tx) {
      return Pass, tx;
    }
    var ok := CheckPrevIds(tx, prevTxs);
    if !ok {
      return Fail(PrevTxIncorrect), tx;
    }
    r, signed := SignInputs(tx, privateKey, prevTxs, txHash, signFn);
  }

  /** The check `sign` makes before hashing: every previous transaction
      has a non-empty id. */
  method CheckPrevIds(tx: Transaction, prevTxs: map<string, Transaction>) returns (ok: bool)
    requires forall k | 0 <= k < |tx.vin| :: tx.vin[k].txid in prevTxs
    ensures ok <==> PrevIdsNonEmpty(tx, prevTxs)
  {
    for k := 0 to |tx.vin|
      invariant forall m | 0 <= m < k :: prevTxs[tx.vin[m].txid].id != ""
    {
      if prevTxs[tx.vin[k].txid].id == "" {
        return false;
      }
    }
    return true;
  }

  /** The digest loop of the corrected `sign`: each input's digest is
      signed, and the signatures are stored in their inputs. */
  method SignInputs(tx: Transaction, privateKey: Bytes, prevTxs: map<string, Transaction>,
                    txHash: Transaction -> Result<HexDigest>, signFn: (Bytes, HexDigest) -> Bytes)
    returns (r: Outcome, signed: Transaction)
    requires PrevOutputsExist(tx, prevTxs)
    ensures match SigningDigests(Trimmed(tx), tx.id, 0, prevTxs, txHash)
            case Err(e) => r == Fail(e)
            case Ok(ds) => r == Pass && signed == WithSignatures(tx, Signatures(privateKey, ds, signFn))
  {
    var copy := TrimCopy(tx);
    ghost var base := copy;
    ghost var ds: seq<HexDigest> := [];
    var sigs: seq<Bytes> := [];
    assert PrevOutputsExist(base, prevTxs);
    assert Prepend(ds, SigningDigests(base, tx.id, 0, prevTxs, txHash)) == SigningDigests(base, tx.id, 0, prevTxs, txHash) by {
      var d := SigningDigests(base, tx.id, 0, prevTxs, txHash);
      if d.Ok? {
        assert [] + d.value == d.value;
      }
    }
    var k := 0;
    while k < |copy.vin|
      invariant 0 <= k <= |copy.vin| && |copy.vin| == |base.vin| == |tx.vin| && |ds| == k
      invariant copy == base.(id := copy.id)
      invariant Prepend(ds, SigningDigests(base, copy.id, k, prevTxs, txHash))
                  == SigningDigests(base, tx.id, 0, prevTxs, txHash)
      invariant sigs == Signatures(privateKey, ds, signFn)
    {
      var input := copy.vin[k];
      var prev := prevTxs[input.txid];
      copy := copy.(vin := copy.vin[k := input.(signature := [], pubKey := prev.vout[input.vout].pubKeyHash)]);
      assert copy == SigningCopy(base, copy.id, k, prevTxs);
      var h := txHash(copy);
      DigestStep(base, copy.id, k, prevTxs, txHash, ds);
      if h.Err? {
        return Fail(h.error), tx;
      }
      sigs := sigs + [signFn(privateKey, h.value)];
      ds := ds + [h.value];
      copy := copy.(id := h.value, vin := copy.vin[k := copy.vin[k].(pubKey := [])]);
      assert copy.vin == base.vin;
      k := k + 1;
    }
    assert ds + [] == ds;
    assert SigningDigests(base, tx.id, 0, prevTxs, txHash) == Ok(ds);
    r, signed := Pass, WithSignatures(tx, sigs);
  }

  /** Signing commits to the trimmed copy only, so a transaction signed by
      `SignCorrected` is `SignedBy` the key, and signing it again yields the
      same digests and the same transaction. */
  lemma SignaturesAreStable(tx: Transaction, privateKey: Bytes, prevTxs: map<string, Transaction>,
                            txHash: Transaction -> Result<HexDigest>, signFn: (Bytes, HexDigest) -> Bytes,
                            ds: seq<HexDigest>)
    requires PrevOutputsExist(tx, prevTxs)
    requires SigningDigests(Trimmed(tx), tx.id, 0, prevTxs, txHash) == Ok(ds)
    ensures var s := WithSignatures(tx, Signatures(privateKey, ds, signFn));
            PrevOutputsExist(s, prevTxs)
            && SigningDigests(Trimmed(s), s.id, 0, prevTxs, txHash) == Ok(ds)
            && SignedBy(s, privateKey, prevTxs, txHash, signFn)
            && WithSignatures(s, Signatures(privateKey, ds, signFn)) == s
  {
    var s := WithSignatures(tx, Signatures(privateKey, ds, signFn));
    TrimmedIgnoresUnlockingData(tx, s);
  }

  /** `sign` as written returns its transaction unchanged, so an input that
      was not already carrying the right signature is still not signed. */
  lemma SignAsWrittenLeavesInputUnsigned(tx: Transaction, privateKey: Bytes, prevTxs: map<string, Transaction>,
                                         txHash: Transaction -> Result<HexDigest>, signFn: (Bytes, HexDigest) -> Bytes,
                                         ds: seq<HexDigest>)
    requires PrevOutputsExist(tx, prevTxs) && |tx.vin| > 0
    requires SigningDigests(Trimmed(tx), tx.id, 0, prevTxs, txHash) == Ok(ds)
    requires tx.vin[0].signature != signFn(privateKey, ds[0])
    ensures !SignedBy(tx, privateKey, prevTxs, txHash, signFn)
  {
  }
}
