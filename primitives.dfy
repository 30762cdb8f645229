/** The external types the state-diff code is written against: the fixed-width
    numbers and hashes of reth, and the execution-state records of revm
    (`AccountInfo`, `AccountStatus`, `StorageSlot`, `BundleAccount`, `BundleState`).
    Hashes, addresses and words are opaque bounded naturals; nothing here
    computes on them. */
module Primitives {

  datatype Option<+T> = None | Some(value: T) {
    /** `Option::or`: this value if present, otherwise `other`. */
    function Or(other: Option<T>): Option<T> {
      if Some? then this else other
    }
  }

  datatype Result<+T, +E> = Ok(value: T) | Err(error: E)

  /** `u64`. */
  type U64 = x: nat | x < 0x1_0000_0000_0000_0000
  /** `U256`, used for balances, storage slots and storage values. */
  type U256 = x: nat | x < 0x1_0000_0000_0000_0000_0000_0000_0000_0000_0000_0000_0000_0000_0000_0000_0000_0000_0000_0000
  /** `B256`, a 32-byte hash (code hash, block hash). */
  type B256 = x: nat | x < 0x1_0000_0000_0000_0000_0000_0000_0000_0000_0000_0000_0000_0000_0000_0000_0000_0000_0000_0000
  /** `Address`, 20 bytes. */
  type Address = x: nat | x < 0x1_0000_0000_0000_0000_0000_0000_0000_0000_0000
  type BlockNumber = U64

  /** revm's bytecode value: an opaque byte string. */
  datatype RevmBytecode = RevmBytecode(bytes: seq<bv8>)

  /** reth's `Bytecode`, a newtype around revm's; `inner` is its field `.0`. */
  datatype Bytecode = Bytecode(inner: RevmBytecode)

  /** revm `AccountStatus`: the eight states an account can be in within a bundle. */
  datatype AccountStatus =
    | LoadedNotExisting
    | Loaded
    | LoadedEmptyEIP161
    | InMemoryChange
    | Changed
    | Destroyed
    | DestroyedChanged
    | DestroyedAgain

  /** revm `AccountInfo`. */
  datatype AccountInfo = AccountInfo(balance: U256, nonce: U64, codeHash: B256, code: Option<RevmBytecode>)

  /** revm `StorageSlot`: the value before the bundle and the value now. */
  datatype StorageSlot = StorageSlot(previousOrOriginalValue: U256, presentValue: U256)

  /** revm `StorageSlot::new_changed`. */
  function NewChanged(previousOrOriginalValue: U256, presentValue: U256): StorageSlot {
    StorageSlot(previousOrOriginalValue, presentValue)
  }

  /** revm `StorageWithOriginalValues`: slot -> slot values. */
  type StorageWithOriginalValues = map<U256, StorageSlot>

  /** revm `BundleAccount`. */
  datatype BundleAccount = BundleAccount(
    info: Option<AccountInfo>,
    originalInfo: Option<AccountInfo>,
    storage: StorageWithOriginalValues,
    status: AccountStatus)

  /** The per-account part of revm's revert record, reduced to what an account reverts to. */
  datatype AccountRevert = AccountRevert(previousInfo: Option<AccountInfo>, previousStatus: AccountStatus, wipeStorage: bool)

  /** revm `BundleState`: the account changes and new contract code of executing some
      blocks, plus per-block reverts and size bookkeeping. */
  datatype BundleState = BundleState(
    state: map<Address, BundleAccount>,
    contracts: map<B256, RevmBytecode>,
    reverts: seq<seq<(Address, AccountRevert)>>,
    stateSize: nat,
    revertsSize: nat)
}
