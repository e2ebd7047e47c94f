/** Transaction inputs and outputs (`src/tx.rs`): the records and the
    pay-to-public-key-hash ownership tests. The public-key hash and the
    address decoder belong to the wallet and are passed in as functions. */
module Tx {
  import opened Common

  /** A reference to output `vout` of transaction `txid`, with its unlocking data. */
  datatype TxInput = TxInput(txid: string, vout: i32, signature: Bytes, pubKey: Bytes)

  /** An amount locked to the holder of a public-key hash. */
  datatype TxOutput = TxOutput(value: i32, pubKeyHash: Bytes)

  /** `TXOutputs`: the value stored per transaction id in the UTXO store. */
  type TxOutputs = seq<TxOutput>

  /** `TXInput::can_unlock_output_with`: hashes a copy of the input's public
      key and compares it with the unlocking data. */
  predicate CanUnlockOutputWith(input: TxInput, unlockingData: Bytes, hashPubKey: Bytes -> Bytes)
  {
    hashPubKey(input.pubKey) == unlockingData
  }

  /** `TXOutput::can_be_unlock_with`. */
  predicate CanBeUnlockWith(output: TxOutput, unlockingData: Bytes)
  {
    output.pubKeyHash == unlockingData
  }

  /** `TXOutput::is_locked_with_key`. */
  predicate IsLockedWithKey(output: TxOutput, pubKeyHash: Bytes)
  {
    output.pubKeyHash == pubKeyHash
  }

  /** `TXOutput::lock`: locks the output to the body of the decoded address;
      `Address::decode(..).unwrap()` panics on an undecodable address. */
  function Lock(output: TxOutput, address: string, decodeAddress: string -> Option<Bytes>): (r: TxOutput)
    requires decodeAddress(address).Some?
    ensures r.value == output.value
    ensures IsLockedWithKey(r, decodeAddress(address).value)
  {
    output.(pubKeyHash := decodeAddress(address).value)
  }

  /** `TXOutput::new`: an output of `value` locked to `address`. */
  function NewOutput(value: i32, address: string, decodeAddress: string -> Option<Bytes>): (r: TxOutput)
    requires decodeAddress(address).Some?
    ensures r.value == value && r.pubKeyHash == decodeAddress(address).value
  {
    Lock(TxOutput(value, []), address, decodeAddress)
  }

  /** The two output tests are the same relation, and a locked output
      answers yes to exactly one key: the one it was locked with. */
  lemma LockedOutputOpensOnlyWithItsKey(output: TxOutput, address: string,
                                         decodeAddress: string -> Option<Bytes>, key: Bytes)
    requires decodeAddress(address).Some?
    ensures CanBeUnlockWith(Lock(output, address, decodeAddress), key)
        == IsLockedWithKey(Lock(output, address, decodeAddress), key)
    ensures IsLockedWithKey(Lock(output, address, decodeAddress), key) <==> key == decodeAddress(address).value
  {
  }
}
