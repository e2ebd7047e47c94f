# Ledger core of a small Rust blockchain, in Dafny

This project models the ledger core of a small proof-of-work blockchain and
proves properties of the model. The original is written in Rust.

- **Transactions** (`src/tx.rs`, `src/transaction.rs`):
  - the input and output records and their ownership tests;
  - the structural coinbase test and coinbase construction;
  - spend construction from an already selected set of outputs;
  - the trimmed copy;
  - `sign` as written. It hashes one signing copy per input and stores
    nothing.
- **Blocks** (`src/block.rs`): the hashed tuple and the target test. The
  nonce search counts up to the first nonce whose digest starts with
  `TARGET_HEXT` (4) `'0'` characters.
- **The block store** (`src/blockchain.rs`):
  - a map from keys to entries, with each block under its hash and the tip
    hash under `"LAST"`;
  - a `Blockchain` class: open, create with the genesis block, append;
  - an iterator that walks back through predecessor hashes;
  - transaction lookup;
  - the two full-chain scans, `find_UTXO` and `find_unspent_transactions`.
    Each is specified by a fold over the blocks in walk order (tip first)
    and proved equal to the loops.
- **The UTXO store** (`src/utxoset.rs`): a `UTXOSet` class holding a map
  from transaction id to outputs. It supports rebuild from `find_UTXO`,
  in-place `update` with one block, and key counting.
- **The node** (`src/server.rs`):
  - the 12-byte zero-padded command header;
  - decoding of a request into the seven-variant `Message`;
  - a `Server` class whose handlers change the peer registry and the queue
    of blocks in transit. Sends go to an effect log.

Hashing, serialization, address decoding, public-key hashing, the clock
and the network are function or boolean parameters.

Where the Rust code behaves unexpectedly, the model follows it, and a lemma
shows the effect:

- `find_UTXO` records a transaction's inputs inside the loop over its
  outputs, after the `continue` for spent outputs. So the inputs are
  recorded once per unspent output, and not at all when every output is
  spent (`ChainScans.ScanOutputsRecordsOncePerUnspentOutput`).
- `update` removes by position in the already shortened stored list. So
  spending outputs 0 and then 1 leaves output 1 behind
  (`Utxo.AscendingSpendsLeaveASpentOutput`).
- `add_block` passes `TARGET_HEXT` as the height. Every appended block has
  height 4 (`Chain.Blockchain.AddBlock`).
- `bytes_to_cmd` drops every zero byte of the header, including interior
  ones (`Node.InteriorZeroIsIgnored`).

Rebuilding the UTXO store from the whole chain and applying `update` with
the newest block agree only on special blocks.
`Consistency.MintingBlockAgrees` proves they agree on a block that only
mints outputs under fresh ids. Five lemmas exhibit blocks where they
disagree, each for its own reason:

- `SpenderWithoutOutputsDisagrees` and `FullySpentSpenderDisagrees` come
  from the first quirk. `find_UTXO` never records the inputs of a
  transaction that has no unspent output, so the rebuild brings back the
  output it spent; `update` removed it.
- `AscendingSpendsDisagree` comes from the second quirk: `update` keeps a
  spent output that the rebuild drops.
- `InBlockSpendDisagrees` comes from the scan order of `find_UTXO`. It
  walks a block's transactions from first to last, so a spend later in the
  same block is recorded only after the spent output was collected, and the
  rebuild keeps that output. `update` removes it.
- `DuplicateIdsDisagree` comes from `update` writing each transaction's
  outputs with `insert`. A second transaction with the same id replaces
  the first one's entry, while the rebuild appends both.

The height quirk of `add_block` plays no part in any of them.

Two places where the sources are inconsistent are resolved as follows:

- `src/transaction.rs` builds inputs and outputs with `script_sig` and
  `script_pub_key`, but `src/tx.rs` declares `signature`/`pub_key` and
  `pub_key_hash`. The model uses the `src/tx.rs` records. `script_sig`
  becomes the input's `pubKey` bytes and `script_pub_key` becomes the
  output's `pubKeyHash` bytes: the UTF-8 encoding of the string.
- `for in_id in ..tx_copy.vin.len()` in `sign` is read as `0..len`.

## Model

| member | source | states |
|---|---|---|
| Tx.Lock | src/tx.rs:47-52 | the value is kept and the output becomes locked to the body of the decoded address |
| Tx.NewOutput | src/tx.rs:54-62 | the new output has the given value and the decoded address body as its public-key hash |
| Tx.LockedOutputOpensOnlyWithItsKey | src/tx.rs:43-66 | `can_be_unlock_with` and `is_locked_with_key` agree on every key, and a locked output accepts exactly the key it was locked with |
| Tx.CanUnlockOutputWith | src/tx.rs:33-37 | definition, no contract: the hash of the input's public key equals the unlocking data; `ChainScans.RecordOwnedEffect` states what it selects |
| Tx.CanBeUnlockWith | src/tx.rs:43-45 | definition, no contract: the output's public-key hash equals the data; `Tx.LockedOutputOpensOnlyWithItsKey` proves it is `is_locked_with_key` |
| Tx.IsLockedWithKey | src/tx.rs:64-66 | definition, no contract: the output's public-key hash equals the key; `Tx.Lock` ensures a locked output satisfies it |
| Transactions.IsCoinbase | src/transaction.rs:104-106 | definition, no contract: one input, with an empty referenced id and index -1; `Transactions.NewCoinbase` ensures its result satisfies it |
| Transactions.SetId | src/transaction.rs:95-101 | inputs and outputs are kept and the id becomes the 64-character digest of the transaction |
| Transactions.CoinbaseData | src/transaction.rs:71-73 | empty data is replaced by `Reward to '<to>'` and non-empty data is kept verbatim |
| Transactions.NewCoinbase | src/transaction.rs:69-91 | the result is a coinbase with one output of 100 paid to `to`, unlocking data as above, and its id is the digest of the id-less transaction |
| Transactions.PairsOfSelection | src/transaction.rs:36-45 | the flattened selection has one pair per selected index, and a pair is in it iff its index was selected under its txid |
| Transactions.PairsAppend | src/transaction.rs:36-45 | flattening distributes over concatenation of selections, so the selection order is preserved |
| Transactions.AppendInputs | src/transaction.rs:37-44 | the inner loop appends one unsigned input per selected index of the transaction, in order, carrying the sender's key |
| Transactions.NewUtxo | src/transaction.rs:26-67 | fails iff the selection's value is below the amount, reporting that balance; otherwise one input per selected pair in order, a payment output, a change output iff there is a remainder, outputs summing to the selection's value, and the id is the digest |
| Transactions.TrimCopy | src/transaction.rs:136-165 | the copy keeps id, outputs and each input's reference, and clears every signature and public key: it equals `Trimmed(tx)` |
| Transactions.TrimmedIgnoresUnlockingData | src/transaction.rs:136-165 | transactions differing only in signatures and public keys have the same trimmed copy, and trimming is idempotent |
| Transactions.Sign | src/transaction.rs:109-134 | a coinbase passes untouched; an empty previous id fails with "previous transaction is not correct"; otherwise the outcome is that of the per-input digests; the transaction itself is returned unchanged |
| Transactions.CheckPrevIds | src/transaction.rs:114-118 | the check passes iff every input's previous transaction has a non-empty id |
| Transactions.SignCorrected | src/transaction.rs:109-134 | as `Sign`, but on success every input carries the signature of its own digest and nothing else changes |
| Transactions.SignInputs | src/transaction.rs:120-131 | the corrected digest loop: the first failing hash is the outcome; otherwise it passes and input `k` carries the signature of digest `k` |
| Transactions.SignaturesAreStable | src/transaction.rs:120-131 | signatures commit to the trimmed copy only, so a transaction signed by `SignCorrected` is signed by the key, and signing it again yields the same digests and the same transaction |
| Transactions.SignAsWrittenLeavesInputUnsigned | src/transaction.rs:120-133 | when an input does not already carry the signature of its digest, the transaction `sign` returns is not signed |
| Blocks.PrepareHashData | src/block.rs:72-84 | the hashed tuple holds the predecessor hash, transactions, timestamp, nonce and the constant `TARGET_HEXT` |
| Blocks.Validate | src/block.rs:86-96 | definition, no contract: the digest of the hashed tuple starts with `TARGET_HEXT` zeros; `Blocks.RunProofOfWork` ensures a mined block validates |
| Blocks.HeightDoesNotAffectHash | src/block.rs:72-96 | the height and the stored hash take no part in the hashed tuple or in validation |
| Blocks.RunProofOfWork | src/block.rs:54-70 | only nonce and hash change; the result validates; its hash is the digest at the final nonce and meets the target; no smaller nonce from the start validates |
| Blocks.NewBlock | src/block.rs:31-48 | the block keeps the given contents, validates, its hash meets the target, and its nonce is the least non-negative winning nonce |
| Blocks.NewGenesisBlock | src/block.rs:27-29 | the genesis block has an empty predecessor hash, height 0 and transactions `[coinbase]`, and it is mined as above |
| ChainScans.FindInTxsFirst | src/blockchain.rs:81-85 | the search fails iff no transaction has the id, and otherwise returns the first one that has it |
| ChainScans.FindTxFirstMatch | src/blockchain.rs:79-88 | `find_transaction` errors iff no block on the walk holds the id, and otherwise returns the first match in walk order |
| ChainScans.PrevTxsFound | src/blockchain.rs:90-97 | `get_prev_txs` fails iff some input's transaction is not on the chain; otherwise its keys are exactly the referenced ids, each mapped to the transaction `find_transaction` returns |
| ChainScans.RecordInputsEffect | src/blockchain.rs:159-168 | after recording inputs, a pair is marked spent iff it was before or some input references it; other ids' entries are unchanged |
| ChainScans.RecordTimesEffect | src/blockchain.rs:137-170 | recording the inputs `n` times marks the same pairs as once, when `n > 0` |
| ChainScans.ExtendTwice | src/blockchain.rs:144-156 | appending to an entry twice is appending the concatenation |
| ChainScans.ScanOutputsRecordsOncePerUnspentOutput | src/blockchain.rs:137-170 | per transaction, the entry grows by exactly the outputs whose index is not marked spent, in order, and the inputs are recorded once per such output, so never when all outputs are spent |
| ChainScans.FindUtxoEntriesNonEmpty | src/blockchain.rs:130-176 | every key of the `find_UTXO` map holds at least one output |
| ChainScans.KeptAreTheUnspentOutputs | src/blockchain.rs:137-156 | the kept outputs are the outputs at unspent indices, one per such index, in their original order: the output at unspent index `i` sits at the position counting the unspent indices before `i` |
| ChainScans.KeptInOrder | src/blockchain.rs:137-156 | for one unspent index `i`, the kept outputs hold `vout[i]` at the position counting the unspent indices before `i` |
| ChainScans.UnspentCopiesCount | src/blockchain.rs:185-194 | a transaction is listed once per output that is unspent and locked to the address, and only that transaction is listed |
| Chain.Lookup | src/blockchain.rs:225-241 | an iterator step finds a block iff the key holds a decodable block, and then returns that block |
| Chain.WalkIsUnique | src/blockchain.rs:222-244 | the walk from a hash is determined by the store |
| Chain.WalkFrame | src/blockchain.rs:111-121 | a store that agrees on the walk's keys has the same walk |
| Chain.WalkFollowsPrevHashes | src/blockchain.rs:222-244 | iteration starts at the given hash, each next block is the one under the previous block's predecessor hash, and the walk ends at the first key without a block |
| Chain.LinkedWhenKeyedByHash | src/blockchain.rs:111-121 | in a store where each block sits under its own hash, each block's predecessor hash is the hash of the next block of the walk |
| Chain.GenesisWalk | src/blockchain.rs:57-70 | the genesis store walks to exactly the genesis block and keys each block by its hash |
| Chain.BlockchainIter.constructor | src/blockchain.rs:23-26 | the iterator starts at the given hash over the given store, with the given walk still to come |
| Chain.BlockchainIter.Next | src/blockchain.rs:225-242 | returns what the store holds under the current hash; returns nothing iff the walk is exhausted; otherwise advances to the block's predecessor hash |
| Chain.Blockchain.Open | src/blockchain.rs:29-48 | the current hash is the value under `"LAST"` and the chain is the walk from it |
| Chain.Blockchain.Create | src/blockchain.rs:50-75 | the store holds exactly the genesis block under its hash and `"LAST"` naming it; the current hash is the genesis hash; the genesis block holds one coinbase paying 100 to the address |
| Chain.Blockchain.AddBlock | src/blockchain.rs:111-121 | the new block's predecessor is the old tip and its height is `TARGET_HEXT`; it is written under its hash and `"LAST"` names it; no other key changes; the chain grows by that block at the front |
| Chain.Blockchain.Iter | src/blockchain.rs:123-128 | a fresh iterator over the chain's store, starting at the tip, with the whole chain still to come |
| Chain.Blockchain.FindTransaction | src/blockchain.rs:79-88 | the result is the first match along the walk, or the not-found error |
| Chain.Blockchain.GetPrevTxs | src/blockchain.rs:90-97 | the result is `get_prev_txs`'s fold over the walk |
| Chain.Blockchain.FindUtxo | src/blockchain.rs:130-176 | the loops compute the `find_UTXO` fold over the walk |
| Chain.Blockchain.FindUnspentTransactions | src/blockchain.rs:179-217 | the loops compute the `find_unspent_transactions` fold over the walk |
| Chain.ScanBlockTxs | src/blockchain.rs:136-171 | the loop over one block's transactions computes the fold over them |
| Chain.ScanTxOutputs | src/blockchain.rs:137-170 | the loop over one transaction's outputs computes the per-output fold |
| Chain.RecordAllInputs | src/blockchain.rs:158-169 | the input loop records every input in order |
| Chain.CollectUnspentTxs | src/blockchain.rs:184-212 | the loop over a block's transactions computes the unspent-transactions fold |
| Chain.CollectUnspentCopies | src/blockchain.rs:185-194 | one copy per unspent output locked to the address |
| Chain.RecordOwnedInputs | src/blockchain.rs:197-210 | the input loop computes the owned-inputs fold, whose effect `ChainScans.RecordOwnedEffect` states |
| ChainScans.RecordOwnedEffect | src/blockchain.rs:196-210 | afterwards a pair is marked spent iff it was before or an input whose public key hashes to the address references it |
| Utxo.SkippingPosition | src/utxoset.rs:40-44 | the copy loop keeps every position except the skipped one, in order |
| Utxo.WithoutRemovesPosition | src/utxoset.rs:40-44 | for an index in range, exactly that element is removed and the rest keep their order; otherwise the list is unchanged |
| Utxo.CopyWithout | src/utxoset.rs:36-44 | the loop builds the list without position `vout` |
| Utxo.UpdateInputEffect | src/utxoset.rs:39-50 | an input touches only its own entry, which loses position `vout` and is removed once empty |
| Utxo.UpdateInputsFrame | src/utxoset.rs:35-51 | keys no input references are unchanged by the input loop |
| Utxo.UpdateInputsKeepNonEmpty | src/utxoset.rs:46-50 | the input loop never leaves an empty entry |
| Utxo.UpdateTxsKeepNonEmpty | src/utxoset.rs:33-64 | `update` never leaves an empty entry when every transaction has outputs |
| Utxo.UpdateTxsStoresOutputs | src/utxoset.rs:54-62 | after `update`, a transaction's id holds its full output list unless a later transaction overwrites or spends from it |
| Utxo.UpdateTxsUntouched | src/utxoset.rs:30-68 | keys that are neither a transaction's id nor referenced by a non-coinbase input are unchanged |
| Utxo.AscendingSpendsLeaveASpentOutput | src/utxoset.rs:40-44 | spending outputs 0 then 1 of a two-output entry leaves output 1 in the store |
| Utxo.DescendingSpendsRemoveTheEntry | src/utxoset.rs:40-50 | spending outputs 1 then 0 empties and removes the entry |
| Utxo.UTXOSet.constructor | src/utxoset.rs:8-10 | the set indexes the given chain and holds the given tree contents |
| Utxo.UTXOSet.Reindex | src/utxoset.rs:17-28 | the store becomes exactly the `find_UTXO` map of the chain |
| Utxo.UTXOSet.Update | src/utxoset.rs:30-68 | the store becomes the fold of `update` over the block's transactions, with coinbase inputs skipped |
| Utxo.UTXOSet.CountTransactions | src/utxoset.rs:71-80 | the counter is the number of keys in the store |
| Consistency.MintingBlockAgrees | src/utxoset.rs:17-68 | for a block of coinbases with outputs and ids new to the chain, `update` on the rebuilt store equals rebuilding with the block |
| Consistency.SpenderWithoutOutputsDisagrees | src/blockchain.rs:137-170 | a spender with no outputs: the rebuild keeps the output it spent, `update` removes it |
| Consistency.FullySpentSpenderDisagrees | src/blockchain.rs:137-170 | a spender whose outputs are spent later: the rebuild brings back the output it spent, `update` does not |
| Consistency.InBlockSpendDisagrees | src/blockchain.rs:136-170 | a spend inside the block that created the output: the rebuild keeps the spent output, `update` removes it |
| Consistency.DuplicateIdsDisagree | src/utxoset.rs:54-62 | two coinbases with the same id in one block: the rebuild keeps both outputs, `update` keeps one |
| Consistency.AscendingSpendsDisagree | src/utxoset.rs:40-44 | ascending spends of one transaction: `update` keeps a spent output that the rebuild drops |
| Node.Padded | src/server.rs:277-283 | the header is 12 bytes: the command's bytes, then zeros |
| Node.CmdToBytes | src/server.rs:277-283 | for a command of at most 12 bytes, the loop builds the zero-padded header |
| Node.StripZerosKeepsNonZero | src/server.rs:290-294 | the stripped tag has no zero byte and keeps every non-zero byte as often as it occurs |
| Node.StripZerosOfZeroFree | src/server.rs:290-294 | a zero-free tag is unchanged by stripping |
| Node.StripZerosAppend | src/server.rs:290-294 | stripping distributes over concatenation |
| Node.HeaderRoundTrip | src/server.rs:277-294 | stripping the padded header of a zero-free tag of at most 12 bytes gives the tag back |
| Node.HeaderTag | src/server.rs:287-294 | the loop keeps exactly the non-zero bytes of the first 12 |
| Node.Wrap | src/server.rs:297-317 | a decoded payload becomes its variant, and a decoding error is passed on |
| Node.BytesToCmd | src/server.rs:286-321 | the request is dispatched on the stripped header with the rest as payload |
| Node.FrameTag | src/server.rs:277-294 | a framed ASCII command without NUL reads back as its own bytes, and the payload follows the header |
| Node.AsciiEncoding | src/server.rs:297-315 | an ASCII string's bytes are its character codes |
| Node.TagsAreTheCommandNames | src/server.rs:297-315 | the seven tags are the bytes of `addr`, `block`, `inv`, `getblocks`, `getdata`, `tx` and `version` |
| Node.CommandSelectsItsVariant | src/server.rs:277-317 | each of the seven commands, framed, is dispatched to its own variant |
| Node.UnknownTagIsRefused | src/server.rs:318-320 | any other tag is an unknown-command error |
| Node.InteriorZeroIsIgnored | src/server.rs:290-299 | a header with a zero inside `addr` still selects `Addr` |
| Node.Delivery | src/server.rs:250-268 | something is sent iff the target is not the node itself and accepts the connection |
| Node.AfterSend | src/server.rs:250-272 | a send forgets at most the target, and only when it is another node that refuses the connection |
| Node.Advertised | src/server.rs:120-127 | the advertised set holds exactly the listed addresses |
| Node.Handled | src/server.rs:106-148 | the effect log only grows; `addr` adds the advertised peers and changes nothing else; `block` records `add_block`, then either requests the queue's head from the sender, drops it from the queue and forgets a refusing sender, or with an empty queue records a reindex; the other five record a handler call and change nothing else |
| Node.HandledBlockIsAdded | src/server.rs:106-148 | every block request reaches `add_block`, and no other request shortens the queue or forgets a peer |
| Node.Server.New | src/server.rs:81-97 | the registry is {`localhost:3000`}, the node address is `localhost:` + port, and the queue and mempool are empty |
| Node.Server.AddNodes | src/server.rs:150-156 | the registry gains the address and nothing else changes |
| Node.Server.RemoveNode | src/server.rs:270-272 | the registry loses the address and nothing else changes |
| Node.Server.HandleAddr | src/server.rs:120-127 | the registry becomes the old one plus the advertised addresses |
| Node.Server.SendData | src/server.rs:250-268 | the registry and the effect log change as `AfterSend` and `Delivery` say |
| Node.Server.SendGetData | src/server.rs:170-184 | sends a getdata for (kind, id) from this node through `send_data` |
| Node.Server.HandleBlock | src/server.rs:129-148 | the block goes to `add_block`; with a non-empty queue, its head is requested from the sender and the queue loses exactly its head; with an empty queue, a reindex is triggered and nothing is sent |
| Node.Server.HandleMessage | src/server.rs:106-114 | the registry, queue and effect log change exactly as `Handled` says for the message, and the mempool is unchanged |
| Node.Server.HandleConnection | src/server.rs:99-118 | a request that does not decode is an error and changes nothing; a decoded one passes, and the state changes exactly as `Handled` says for the decoded message |

## Left out

- The sockets (`read_to_end`, `TcpStream::connect`, `write`) and the `Arc<Mutex<…>>` around the node's inner state. A send is an entry in the effect log. Whether the peer accepts the connection is a boolean parameter. The node's fields are plain fields.
- SHA-256 and bincode. Each is a function parameter: the block digest, the transaction digest, `Transaction::hash` and the seven payload decoders. A serialization failure when storing is not modelled.
- The sled trees and the filesystem (`sled::open`, `remove_dir_all`, `flush`, the `?` on each database call). Each tree is an in-memory map.
- The wall clock. The timestamp is a parameter.
- `hash_pub_key` and `Address::decode`. Both are parameters; an undecodable address is a precondition, because the source unwraps it.
- Functions that are called but defined nowhere in the sources. `find_spendable_outputs` becomes the selection passed to `NewUtxo`, and `Transaction::hash` becomes a parameter. `Server::add_block`, `utxo_reindex` and the `inv`, `getblocks`, `getdata`, `tx` and `version` handlers are recorded as calls in the effect log. `get_in_transit`/`replace_in_transit` read and write the queue field.
- `verify`, `Blockchain::verify_transaction` and `Blockchain::sign_transaction`: `verify` is defined nowhere, and `sign_transaction` only chains `get_prev_txs` into `sign`.
- The senders other than `send_get_data` (`send_get_blocks`, `send_version`, `send_tx`, `send_inv`, `send_block`, `send_addr`): each serializes a payload and calls `send_data`, which is modelled.
- The block getters (`get_hash`, `get_prev_hash`, `get_transactions`): they are field selectors of the `Block` datatype.
- `src/cli.rs` and `src/main.rs`: argument parsing and printing.
- Logging (`info!`, `debug!`, `error!`).
- Blocks.RunProofOfWork: requires a winning nonce at or above the start within `i32`. Without one, the source's `nonce += 1` overflows; the overflow is not modelled.
- Transactions.NewUtxo: requires the change `acc - amount` to fit in `i32`. Output values are summed as unbounded integers.
- Transactions.Sign: an input whose txid is missing from `prev_TXs`, or whose index is outside its previous transaction's outputs, makes the source panic on `unwrap` or indexing. Both cases are excluded by preconditions; `get_prev_txs` supplies every referenced txid.
- Chain.Blockchain.Open: requires `"LAST"` to hold a tip whose walk is given. The source panics on a missing key and errors on a non-UTF-8 value. A given walk is finite, so the precondition also excludes a store whose predecessor hashes form a cycle; on such a store the source's iterator (src/blockchain.rs:222-244) never yields `None` and every scan of the chain loops forever.
- ChainScans.ScanOutputsRecordsOncePerUnspentOutput: requires `NoSelfReference(tx)`, that no input of a transaction names the transaction's own id. The id is a digest over the inputs, so such a transaction cannot be built short of a digest collision; the model does not carry the digest into this lemma.
- Chain.Blockchain.AddBlock: requires that no candidate hash up to the winning nonce collides with a key on the current walk. A colliding write would overwrite a block of the chain, which the model does not follow.
- Utxo.UTXOSet.Update: requires every input's entry to be present when its turn comes. The source unwraps the lookup and panics otherwise.
- Utxo.UTXOSet.CountTransactions: requires at most `i32::MAX` keys. The counter's overflow is not modelled.
- Node.Server.HandleConnection: errors returned by the handlers (from `add_block` or a failed `write`) are not modelled, so a decoded request always passes.
- Node.BytesToCmd: a header that is not UTF-8 is an error in the source (`String::from_utf8`). Here it is the unknown-command error, because such a tag equals none of the seven names.
- The property "rebuild equals folding `update` over blocks in append order" is not proved in general. It fails on the five blocks in `Consistency`. It is proved for a block that only mints fresh outputs.

## Findings

| source | as written | input that shows it | evidently intended | confidence | as-written member | corrected member |
|---|---|---|---|---|---|---|
| src/transaction.rs:109-134 | `sign` computes each input's digest on a local trimmed copy and never writes a signature to `self`; it takes `&mut self` and returns `Ok(())` | any non-coinbase transaction with one unsigned input whose previous transaction is found and whose digest succeeds: it comes back with an empty signature | each input's signature is the signature, under the private key, of the digest computed for that input | not executed | Transactions.SignAsWrittenLeavesInputUnsigned | Transactions.SignaturesAreStable |
