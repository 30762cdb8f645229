# State diffs of the Alpen reth fork, modelled in Dafny

This project models how the Alpen fork of reth handles per-block state diffs, in three parts.

- **The diff and its storage form** (`state_diff/mod.rs`, `state_diff/db.rs`).
  - A revm `BundleState` is narrowed to a `StateDiff`: the accounts, plus new contract code wrapped as reth `Bytecode`.
  - A `StateDiff` is converted to the storable `DbStateDiff` and back. The storable form has lists instead of hash maps, and the account status is stored as a `u64` code.
  - The status code comes from a closed eight-entry table. Reading an unknown code panics.
- **The state-diff execution extension** (`state_diff_exex.rs`). It is a loop over chain notifications.
  - Commit: one `Put` per new block that has an execution outcome.
  - Reorg: a `Del` for every old block first, then the `Put`s.
  - Revert: the `Del`s only.
  - After a commit or a reorg it acknowledges the new tip with a `FinishedHeight` event.
  - Any failed send ends the loop with that error.
- **The prover-input execution extension** (`prover_input_exex.rs`). It is the same loop with only the height acknowledgements.

## Modules

| file | module | models |
|---|---|---|
| `collections.dfy` | `Collections` | sequences that enumerate a set (one iteration order of a hash map) |
| `primitives.dfy` | `Primitives` | the reth/revm types the code uses: bounded words and hashes, `AccountInfo`, `AccountStatus`, `StorageSlot`, `BundleAccount`, `BundleState`, `Option`, `Result` |
| `state_diff.dfy` | `StateDiffs` | `state_diff/mod.rs` |
| `state_diff_db.dfy` | `StateDiffDb` | `state_diff/db.rs` |
| `exex.dfy` | `ExEx` | what both extensions share: chain segments, notifications, events, channel senders, and the meaning of a run |
| `state_diff_exex.dfy` | `StateDiffExEx` | `state_diff_exex.rs` |
| `prover_input_exex.dfy` | `ProverInputExEx` | `prover_input_exex.rs` |

### How the model is built

- **Hash-map iteration order.** Rust's `HashMap` iterates in an unspecified order.
  - Each conversion that iterates a map takes an extra `order` argument: any sequence listing every key exactly once (`Enumerates`).
  - Every property about such a conversion is proved for every such order.
- **Collecting into a map.** `collect()` into a `HashMap` is modelled as a fold in list order. A later entry with the same key overwrites an earlier one.
- **The status panic.** `to_account_status` panics on a code outside 0..7.
  - The model returns `None` for such a code.
  - The conversion that uses it returns `Err(InvalidStatus(code))` for the first stored account that has such a code.
- **Channels.** A channel sender is a `Sender<T>` class.
  - `delivered` is the sequence the receiver has been handed.
  - The receiver is dropped after `dropAfter` deliveries, or never when that is `None`. `dropAfter` stands for whatever the receiving task does.
  - A send fails exactly when the receiver is gone, and then hands over nothing.
- **Loop semantics.**
  - Each extension's handling of a notification is a pure list of sends, built by `NotificationActions` or `ProverActions`.
  - `Execute` performs a list of sends and stops at the first one that fails.
  - Each loop method is proved to leave both receivers, and to return, exactly what `Execute` gives for the plan of the whole stream.
  - The ordering, signalling and abort properties are proved about the plans and about `Execute`.

## Model

| member | source | states |
|---|---|---|
| `StateDiffs.FromBundleState` | crates/alpen/primitives/src/state_diff/mod.rs:22-33 | The account map is kept unchanged. The contract map has exactly the bundle's code-hash keys, and each value is the bundle's bytes wrapped as `Bytecode`. |
| `StateDiffs.ContractsUnwrap` | crates/alpen/primitives/src/state_diff/mod.rs:27-30 | Unwrapping every contract of the diff gives back exactly the bundle's contract map: no code is lost and none is invented. |
| `StateDiffs.FromBundleStateIgnoresReverts` | crates/alpen/primitives/src/state_diff/mod.rs:24 | Two bundles with the same accounts and contracts give the same diff, whatever their reverts and size counters. |
| `StateDiffDb.FromAccountStatus` | crates/alpen/primitives/src/state_diff/db.rs:191-202 | Every status is encoded as a code below 8. |
| `StateDiffDb.ToAccountStatus` | crates/alpen/primitives/src/state_diff/db.rs:204-216 | Decoding fails (the panic) exactly for codes 8 and above; no such code is coerced to a status. |
| `StateDiffDb.StatusRoundTrip` | crates/alpen/primitives/src/state_diff/db.rs:191-216 | For each of the eight statuses, decoding its code gives the status back. |
| `StateDiffDb.StatusCodeRoundTrip` | crates/alpen/primitives/src/state_diff/db.rs:191-216 | Every code that decodes re-encodes to itself. |
| `StateDiffDb.FromAccountStatusInjective` | crates/alpen/primitives/src/state_diff/db.rs:191-202 | Distinct statuses get distinct codes. |
| `StateDiffDb.StatusCodeRange` | crates/alpen/primitives/src/state_diff/db.rs:191-202 | A code is the encoding of some status exactly when it is below 8. |
| `StateDiffDb.AccountInfoRoundTrip` | crates/alpen/primitives/src/state_diff/db.rs:105-125 | `AccountInfo` to `DbAccountInfo` and back is the identity on balance, nonce, code hash and code. |
| `StateDiffDb.DbAccountInfoRoundTrip` | crates/alpen/primitives/src/state_diff/db.rs:105-125 | `DbAccountInfo` to `AccountInfo` and back is the identity too, so the two types are in bijection. |
| `StateDiffDb.FromAccountInfo` | crates/alpen/primitives/src/state_diff/db.rs:127-134 | Balance, nonce and code hash are kept. The code is the account's own code when it has one, and otherwise the code supplied. |
| `StateDiffDb.FromAccountInfoRoundTrip` | crates/alpen/primitives/src/state_diff/db.rs:42-44 | Storing an account info with its code-pool fallback and reading it back gives the info with the pool's code filled in where it had none. With inline code, or no pool entry for the hash, the info comes back unchanged. |
| `StateDiffDb.ToDbStorageDiff` | crates/alpen/primitives/src/state_diff/db.rs:147-162 | There is exactly one entry per storage slot, whatever the iteration order: slots whose value did not change are kept. Each entry carries the slot's previous-or-original and present values. |
| `StateDiffDb.CollectSlotsKeys` | crates/alpen/primitives/src/state_diff/db.rs:164-173 | Reading a storage diff back gives a map whose keys are exactly the entries' slots. |
| `StateDiffDb.CollectSlotsAt` | crates/alpen/primitives/src/state_diff/db.rs:164-173 | An entry with no later entry for the same slot reads back as `new_changed(previous, current)` for its slot. |
| `StateDiffDb.StorageRoundTrip` | crates/alpen/primitives/src/state_diff/db.rs:147-173 | Storing a storage map and reading it back gives the same map, for every iteration order. |
| `StateDiffDb.ToDbStateDiff` | crates/alpen/primitives/src/state_diff/db.rs:34-53 | There is one stored account per address of the diff, each address exactly once, in any iteration order. |
| `StateDiffDb.StoredAccountFields` | crates/alpen/primitives/src/state_diff/db.rs:39-48 | Each stored account has the account's original info as `prev_info` and its status's code as `status`. Its storage reads back as the account's storage. Its current info is present exactly when the account's is, and then it is `from_account_info` with the pool code for its hash. |
| `StateDiffDb.CollectAccounts` | crates/alpen/primitives/src/state_diff/db.rs:58-71 | Collecting the stored accounts succeeds exactly when every stored status is a known code. |
| `StateDiffDb.CollectAccountsKeys` | crates/alpen/primitives/src/state_diff/db.rs:58-71 | The collected map's keys are exactly the stored accounts' addresses. |
| `StateDiffDb.CollectAccountsFirstError` | crates/alpen/primitives/src/state_diff/db.rs:58-71 | A failed collection reports the first stored account, in list order, whose status code is unknown. |
| `StateDiffDb.CollectAccountsAt` | crates/alpen/primitives/src/state_diff/db.rs:58-71 | A stored account with no later account for the same address is collected, under its address, as its own conversion. |
| `StateDiffDb.FromDbStateDiff` | crates/alpen/primitives/src/state_diff/db.rs:55-75 | Reading a stored diff succeeds exactly when every status code is known, and the code pool it gives is always empty. |
| `StateDiffDb.BundleAccountRoundTrip` | crates/alpen/primitives/src/state_diff/db.rs:39-67 | Storing one account and reading it back restores its status, original info and storage. Its current info comes back with the pool's code folded in. |
| `StateDiffDb.StateDiffRoundTrip` | crates/alpen/primitives/src/state_diff/db.rs:34-75 | Storing a diff and reading it back, in any iteration order, never fails. It gives the same address set, and each account has the same status, original info and storage, with pool code folded into its current info. The code pool comes back empty. |
| `ExEx.Range` | crates/alpen/utils/src/state_diff_exex.rs:64 | `chain.range()` lists, in strictly ascending order, exactly the numbers from the first block to the tip. |
| `ExEx.Filter` | crates/alpen/utils/src/state_diff_exex.rs:65-70 | Filtering keeps exactly the numbers that pass, and an ascending input gives an ascending result. `range()` is always ascending. |
| `ExEx.Sender.Send` | crates/alpen/utils/src/state_diff_exex.rs:29 | A send succeeds exactly when the receiver is still there. On success it appends the value to what the receiver got; on failure it hands over nothing. |
| `ExEx.SendEvent` | crates/alpen/utils/src/state_diff_exex.rs:32 | Sending an event leaves the operation receiver untouched and does what `Execute` does for that one send. |
| `ExEx.ExecuteAppend` | crates/alpen/utils/src/state_diff_exex.rs:28-32 | Running two lists of sends one after the other is running the second from where the first stopped, and nothing more once the first failed (the `?` operator). |
| `ExEx.ExecuteEmitsPrefix` | crates/alpen/utils/src/state_diff_exex.rs:19-59 | Every run hands the receivers exactly the sends of a prefix of its plan. It returns `Ok` exactly when that prefix is the whole plan. Otherwise it returns the error of the first send that failed, and nothing after that send is handed over. |
| `ExEx.ExecuteWithLiveReceivers` | crates/alpen/utils/src/state_diff_exex.rs:19-59 | While both receivers stay alive, a run hands over every send of its plan and returns `Ok`. |
| `ExEx.ExecuteEventsOnly` | crates/alpen/utils/src/prover_input_exex.rs:14-26 | A plan with no operation sends runs to `Ok` while the event receiver stays alive, whatever the operation receiver does, and hands over all its events and no operation. |
| `ExEx.PlanOfSignalsHeights` | crates/alpen/utils/src/state_diff_exex.rs:32-47 | Suppose a handler sends its notification's new tip as its only event on a commit or reorg, and no event on a revert. Then over a stream it acknowledges exactly `FinishedHeights`. |
| `StateDiffExEx.DiffBlockNumbers` | crates/alpen/utils/src/state_diff_exex.rs:62-73 | The block numbers whose diffs are extracted are strictly ascending. They are exactly the range numbers that have both a block and an execution outcome; the others are skipped. |
| `StateDiffExEx.ExtractNewDiffs` | crates/alpen/utils/src/state_diff_exex.rs:62-73 | There is one pair per such number, in range order: the block's hash and the diff of that block's execution outcome. |
| `StateDiffExEx.BlockNumbersPresent` | crates/alpen/utils/src/state_diff_exex.rs:75-80 | The numbers whose hashes are extracted are strictly ascending, and are exactly the range numbers that have a block. |
| `StateDiffExEx.ExtractOldBlockHashes` | crates/alpen/utils/src/state_diff_exex.rs:75-80 | There is one hash per such number, in range order. |
| `StateDiffExEx.OldBlockHashesPerBlock` | crates/alpen/utils/src/state_diff_exex.rs:75-80 | When all of a segment's blocks lie in its range, there is exactly one old hash per block. |
| `StateDiffExEx.CommitSends` | crates/alpen/utils/src/state_diff_exex.rs:21-33 | On a commit: one `Put` per range number with a block and an outcome, in ascending order. Then exactly one event, `FinishedHeight(new tip)`, sent last. |
| `StateDiffExEx.ReorgSends` | crates/alpen/utils/src/state_diff_exex.rs:34-48 | On a reorg: a `Del` per old block and then a `Put` per new block with an outcome, so no `Del` follows a `Put`. Then exactly one event, `FinishedHeight(new tip)`, sent last. |
| `StateDiffExEx.DelsBeforePuts` | crates/alpen/utils/src/state_diff_exex.rs:40-45 | In deletions followed by puts, nothing after a put is a deletion. |
| `StateDiffExEx.RevertSends` | crates/alpen/utils/src/state_diff_exex.rs:49-55 | On a revert: only `Del`s, one per old block present, and no event. |
| `StateDiffExEx.SignalsFinishedHeights` | crates/alpen/utils/src/state_diff_exex.rs:15-60 | Over a whole stream the extension acknowledges exactly one height per commit or reorg, the new tip, in stream order. |
| `StateDiffExEx.RunWithLiveReceivers` | crates/alpen/utils/src/state_diff_exex.rs:19-59 | While both receivers stay alive the loop runs through the whole stream, sends every operation of the plan, acknowledges every height and returns `Ok`. |
| `StateDiffExEx.SendOps` | crates/alpen/utils/src/state_diff_exex.rs:28-30 | A `for` loop of operation sends with `?` does to the operation receiver, and returns, what `Execute` gives for those sends. It never touches the event receiver. |
| `StateDiffExEx.HandleNotification` | crates/alpen/utils/src/state_diff_exex.rs:20-56 | One turn of the loop does to both receivers, and returns, what `Execute` gives for that notification's sends. |
| `StateDiffExEx.StateDiffExEx` | crates/alpen/utils/src/state_diff_exex.rs:15-60 | The whole loop leaves both receivers with, and returns, what `Execute` gives for the plan of the whole stream. |
| `ProverInputExEx.ProverSendsNoOps` | crates/alpen/utils/src/prover_input_exex.rs:12-26 | No operation is ever sent on `tx`. |
| `ProverInputExEx.ProverSignalsFinishedHeights` | crates/alpen/utils/src/prover_input_exex.rs:15-25 | One `FinishedHeight(new tip)` per commit and per reorg, in stream order, and nothing for a revert. |
| `ProverInputExEx.SameFinishedHeights` | crates/alpen/utils/src/prover_input_exex.rs:14-25 | For the same stream, the prover-input extension acknowledges the same heights as the state-diff extension. |
| `ProverInputExEx.ProverRunWithLiveReceivers` | crates/alpen/utils/src/prover_input_exex.rs:14-28 | While the event receiver stays alive, the loop acknowledges every height and returns `Ok`, whether or not the operation receiver is still there, and leaves the operation receiver as it was. |
| `ProverInputExEx.ProverInputExEx` | crates/alpen/utils/src/prover_input_exex.rs:10-29 | The loop never changes `tx`. It leaves the event receiver with, and returns, what `Execute` gives for the plan of the whole stream: stopping at the first failed event send, `Ok` at the end of the stream. |

## Left out

- `Compress`/`Decompress` for `DbStateDiff` (`db.rs` lines 221-234) are left out. Their byte format comes from the `Compact` derive macro, which is not part of this model. For the same reason, the byte-level encode/decode round trip of a stored diff is not modelled.
- Async and tokio mechanics are left out: awaiting the next notification, and the unbounded channels. A stream is a finite sequence, and a channel is a `Sender` whose receiver may go away after a fixed number of messages.
- The `println!` in the commit branch of `state_diff_exex.rs` has no effect on the model's state and is left out.
- `HashMap` iteration order is not fixed. Conversions take the order as an argument and are proved for every order, so the order of stored accounts and entries is not modelled.
- `B256`, `U256` and `Address` are bounded naturals, and bytecode is an opaque byte sequence. A block's hash is data stored in the chain segment; hashing is not modelled.
- `execution_outcome_at_block` is a lookup in a map from block number to outcome. How reth derives a block's outcome from the segment's combined outcome is not modelled.
- The model does not require a `Chain` to be well formed (for example, all blocks inside `first..=tip`). Every property holds without that, except `OldBlockHashesPerBlock`, which states it as its precondition.
- `ExEx.Chain`: `first` and `tip` are free fields. They are not tied to the lowest and highest block the segment holds. reth's `tip()` fails on a segment with no blocks; here such a segment still has a `tip`, and a commit or reorg of it acknowledges `FinishedHeight(tip)`.
- revm's revert records are reduced to an account's previous info, status and a wipe flag. They only matter because the conversion drops them.
- `bin/reth/src/alpen.rs` (node bootstrap, signal handling, the task that drains the operation channel) is not part of this model.
- `crates/alpen/guests/guest-reth-stf/src/main.rs` (the zkVM guest harness) is not part of this model.
- The witness assembler and the execution-input packager are not modelled.
- The `new` constructors of `DbStateDiff`, `DbStorageDiff` and `DbStorageDiffEntry` are the datatype constructors.
- `StateDiffDb.ToAccountStatus`: `to_account_status` panics on an unknown status code instead of returning an error. The model follows the code: an unknown code yields `None`, and the conversion using it yields `Err(InvalidStatus(code))`, which stands for the panic.
- `StateDiffExEx.ExtractNewDiffs`: `extract_new_diffs` skips a range number that lacks an execution outcome and also one that lacks a block; both are modelled.
