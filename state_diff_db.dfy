/** The storage form of a state diff (`state_diff/db.rs`): records without hash
    maps, the conversions to and from the in-memory `StateDiff`, and the closed
    table that encodes an `AccountStatus` as a `u64`. */
module StateDiffDb {
  import opened Primitives
  import opened Collections
  import opened StateDiffs

  /** One storage slot's change: slot, value before, value after. */
  datatype DbStorageDiffEntry = DbStorageDiffEntry(address: U256, previousValue: U256, currentValue: U256)

  /** All storage changes of one account, as a list. */
  datatype DbStorageDiff = DbStorageDiff(entries: seq<DbStorageDiffEntry>)

  /** `AccountInfo` with its code as reth `Bytecode`; `code` is present when the
      account's code is new. */
  datatype DbAccountInfo = DbAccountInfo(balance: U256, nonce: U64, codeHash: B256, code: Option<Bytecode>)

  /** `BundleAccount` in storable form; `status` holds the code of an `AccountStatus`. */
  datatype DbBundleAccount = DbBundleAccount(
    address: Address,
    prevInfo: Option<DbAccountInfo>,
    info: Option<DbAccountInfo>,
    status: U64,
    storage: DbStorageDiff)

  /** The state diff of one block in storable form. */
  datatype DbStateDiff = DbStateDiff(accountDiffs: seq<DbBundleAccount>)

  /** The panic `to_account_status` raises ("invalid status") on an unknown code. */
  datatype ConversionPanic = InvalidStatus(code: U64)

  // ---------------------------------------------------------------------------
  // Account status table

  /** `from_account_status`: the code of each of the eight statuses. */
  function FromAccountStatus(status: AccountStatus): (code: U64)
    ensures code < 8
  {
    match status
    case LoadedNotExisting => 0
    case Loaded => 1
    case LoadedEmptyEIP161 => 2
    case InMemoryChange => 3
    case Changed => 4
    case Destroyed => 5
    case DestroyedChanged => 6
    case DestroyedAgain => 7
  }

  /** `to_account_status`: the status of a code; `None` is the panic on a code
      outside the table. */
  function ToAccountStatus(code: U64): (r: Option<AccountStatus>)
    ensures r.None? <==> code >= 8
  {
    match code
    case 0 => Some(LoadedNotExisting)
    case 1 => Some(Loaded)
    case 2 => Some(LoadedEmptyEIP161)
    case 3 => Some(InMemoryChange)
    case 4 => Some(Changed)
    case 5 => Some(Destroyed)
    case 6 => Some(DestroyedChanged)
    case 7 => Some(DestroyedAgain)
    case _ => None
  }

  /** Decoding the code of a status gives the status back. */
  lemma StatusRoundTrip(status: AccountStatus)
    ensures ToAccountStatus(FromAccountStatus(status)) == Some(status)
  {
  }

  /** Encoding the status a code decodes to gives the code back. */
  lemma StatusCodeRoundTrip(code: U64)
    requires ToAccountStatus(code).Some?
    ensures FromAccountStatus(ToAccountStatus(code).value) == code
  {
  }

  /** Distinct statuses have distinct codes. */
  lemma FromAccountStatusInjective(s1: AccountStatus, s2: AccountStatus)
    ensures FromAccountStatus(s1) == FromAccountStatus(s2) ==> s1 == s2
  {
    StatusRoundTrip(s1);
    StatusRoundTrip(s2);
  }

  /** The codes in use are exactly 0 through 7. */
  lemma StatusCodeRange(code: U64)
    ensures (exists s :: FromAccountStatus(s) == code) <==> code < 8
  {
    if code < 8 {
      StatusCodeRoundTrip(code);
    }
  }

  // ---------------------------------------------------------------------------
  // Account info

  /** `Into<DbAccountInfo> for AccountInfo`. */
  function ToDbAccountInfo(info: AccountInfo): DbAccountInfo {
    DbAccountInfo(info.balance, info.nonce, info.codeHash,
                  if info.code.Some? then Some(Bytecode(info.code.value)) else None)
  }

  /** `Into<AccountInfo> for DbAccountInfo`. */
  function ToAccountInfo(info: DbAccountInfo): AccountInfo {
    AccountInfo(info.balance, info.nonce, info.codeHash,
                if info.code.Some? then Some(info.code.value.inner) else None)
  }

  /** `AccountInfo` -> `DbAccountInfo` -> `AccountInfo` is the identity. */
  lemma AccountInfoRoundTrip(info: AccountInfo)
    ensures ToAccountInfo(ToDbAccountInfo(info)) == info
  {
  }

  /** `DbAccountInfo` -> `AccountInfo` -> `DbAccountInfo` is the identity. */
  lemma DbAccountInfoRoundTrip(info: DbAccountInfo)
    ensures ToDbAccountInfo(ToAccountInfo(info)) == info
  {
  }

  /** `DbAccountInfo::from_account_info`: convert, then fall back on `code` when the
      account carries no code of its own. */
  function FromAccountInfo(info: AccountInfo, code: Option<Bytecode>): (r: DbAccountInfo)
    ensures r.balance == info.balance && r.nonce == info.nonce && r.codeHash == info.codeHash
    ensures info.code.Some? ==> r.code == Some(Bytecode(info.code.value))
    ensures info.code.None? ==> r.code == code
  {
    var converted := ToDbAccountInfo(info);
    converted.(code := converted.code.Or(code))
  }

  /** `self.contracts.get(&code_hash).cloned()`: the pool's code for a hash. */
  function PoolCode(contracts: map<B256, Bytecode>, codeHash: B256): Option<Bytecode> {
    if codeHash in contracts then Some(contracts[codeHash]) else None
  }

  /** `info` with its code filled in from the pool when it has none. */
  function WithPoolCode(info: AccountInfo, contracts: map<B256, Bytecode>): AccountInfo {
    var pooled := PoolCode(contracts, info.codeHash);
    info.(code := info.code.Or(if pooled.Some? then Some(pooled.value.inner) else None))
  }

  /** Reading back a `from_account_info` record gives the account info with its code
      taken from the pool where it had none; with inline code, or no pool entry, it
      gives the info back unchanged. */
  lemma FromAccountInfoRoundTrip(info: AccountInfo, contracts: map<B256, Bytecode>)
    ensures ToAccountInfo(FromAccountInfo(info, PoolCode(contracts, info.codeHash))) == WithPoolCode(info, contracts)
    ensures info.code.Some? || info.codeHash !in contracts ==>
              ToAccountInfo(FromAccountInfo(info, PoolCode(contracts, info.codeHash))) == info
  {
  }

  /** `.map(Into::into)` on an optional account info. */
  function InfoToDb(info: Option<AccountInfo>): Option<DbAccountInfo> {
    if info.Some? then Some(ToDbAccountInfo(info.value)) else None
  }

  /** `.map(Into::into)` on an optional stored account info. */
  function InfoFromDb(info: Option<DbAccountInfo>): Option<AccountInfo> {
    if info.Some? then Some(ToAccountInfo(info.value)) else None
  }

  // ---------------------------------------------------------------------------
  // Storage

  /** The slots of a list of entries, in list order. */
  function EntrySlots(entries: seq<DbStorageDiffEntry>): seq<U256> {
    seq(|entries|, i requires 0 <= i < |entries| => entries[i].address)
  }

  /** `Into<DbStorageDiff> for StorageWithOriginalValues`, iterating the slots in
      `order` (the hash map's iteration order). */
  function ToDbStorageDiff(storage: StorageWithOriginalValues, order: seq<U256>): (r: DbStorageDiff)
    requires Enumerates(order, storage.Keys)
    ensures |r.entries| == |storage|
    ensures Enumerates(EntrySlots(r.entries), storage.Keys)
    ensures forall i :: 0 <= i < |r.entries| ==>
              && r.entries[i].address in storage
              && r.entries[i].previousValue == storage[r.entries[i].address].previousOrOriginalValue
              && r.entries[i].currentValue == storage[r.entries[i].address].presentValue
  {
    EnumerationSize(order, storage.Keys);
    var r := DbStorageDiff(seq(|order|, i requires 0 <= i < |order| =>
      DbStorageDiffEntry(order[i], storage[order[i]].previousOrOriginalValue, storage[order[i]].presentValue)));
    assert EntrySlots(r.entries) == order;
    r
  }

  /** Collecting `(slot, new_changed(prev, cur))` pairs into a map; a later entry for
      the same slot overwrites an earlier one. */
  function CollectSlots(entries: seq<DbStorageDiffEntry>): StorageWithOriginalValues
    decreases |entries|
  {
    if entries == [] then map[]
    else
      var last := entries[|entries| - 1];
      CollectSlots(entries[..|entries| - 1])[last.address := NewChanged(last.previousValue, last.currentValue)]
  }

  /** The collected map has exactly the entries' slots as keys. */
  lemma {:induction false} CollectSlotsKeys(entries: seq<DbStorageDiffEntry>)
    ensures forall slot :: slot in CollectSlots(entries) <==> slot in EntrySlots(entries)
    decreases |entries|
  {
    if entries != [] {
      var front := entries[..|entries| - 1];
      assert EntrySlots(entries) == EntrySlots(front) + [entries[|entries| - 1].address];
      CollectSlotsKeys(front);
    }
  }

  /** The value collected for the slot of an entry that no later entry overrides. */
  lemma {:induction false} CollectSlotsAt(entries: seq<DbStorageDiffEntry>, i: nat)
    requires i < |entries|
    requires forall j :: i < j < |entries| ==> entries[j].address != entries[i].address
    ensures entries[i].address in CollectSlots(entries)
    ensures CollectSlots(entries)[entries[i].address]
            == NewChanged(entries[i].previousValue, entries[i].currentValue)
    decreases |entries|
  {
    if i < |entries| - 1 {
      CollectSlotsAt(entries[..|entries| - 1], i);
    }
  }

  /** `Into<StorageWithOriginalValues> for DbStorageDiff`. */
  function FromDbStorageDiff(diff: DbStorageDiff): StorageWithOriginalValues {
    CollectSlots(diff.entries)
  }

  /** Storing a storage map and reading it back gives the same map, in whatever
      order the slots were stored; slots whose value did not change are kept too. */
  lemma StorageRoundTrip(storage: StorageWithOriginalValues, order: seq<U256>)
    requires Enumerates(order, storage.Keys)
    ensures FromDbStorageDiff(ToDbStorageDiff(storage, order)) == storage
  {
    var entries := ToDbStorageDiff(storage, order).entries;
    var back := CollectSlots(entries);
    assert EntrySlots(entries) == order;
    CollectSlotsKeys(entries);
    forall slot | slot in storage ensures back[slot] == storage[slot] {
      var i :| 0 <= i < |order| && order[i] == slot;
      CollectSlotsAt(entries, i);
    }
    assert back.Keys == storage.Keys;
  }

  // ---------------------------------------------------------------------------
  // Accounts and whole diffs

  /** The closure of `Into<DbStateDiff> for StateDiff` for one account. */
  function ToDbBundleAccount(address: Address, account: BundleAccount, contracts: map<B256, Bytecode>,
                             slotOrder: seq<U256>): DbBundleAccount
    requires Enumerates(slotOrder, account.storage.Keys)
  {
    DbBundleAccount(
      address,
      InfoToDb(account.originalInfo),
      if account.info.Some?
      then Some(FromAccountInfo(account.info.value, PoolCode(contracts, account.info.value.codeHash)))
      else None,
      FromAccountStatus(account.status),
      ToDbStorageDiff(account.storage, slotOrder))
  }

  /** The addresses of a list of stored accounts, in list order. */
  function AccountAddresses(diffs: seq<DbBundleAccount>): seq<Address> {
    seq(|diffs|, i requires 0 <= i < |diffs| => diffs[i].address)
  }

  /** The iteration orders a conversion of `diff` runs in: `accountOrder` for the
      account map and `slotOrders[a]` for the storage map of account `a`. */
  predicate IterationOrders(diff: StateDiff, accountOrder: seq<Address>, slotOrders: map<Address, seq<U256>>) {
    && Enumerates(accountOrder, diff.state.Keys)
    && forall a :: a in diff.state ==> a in slotOrders && Enumerates(slotOrders[a], diff.state[a].storage.Keys)
  }

  /** `Into<DbStateDiff> for StateDiff`: one stored account per address of `state`,
      in the map's iteration order. */
  function ToDbStateDiff(diff: StateDiff, accountOrder: seq<Address>, slotOrders: map<Address, seq<U256>>): (r: DbStateDiff)
    requires IterationOrders(diff, accountOrder, slotOrders)
    ensures |r.accountDiffs| == |diff.state|
    ensures Enumerates(AccountAddresses(r.accountDiffs), diff.state.Keys)
  {
    EnumerationSize(accountOrder, diff.state.Keys);
    var r := DbStateDiff(seq(|accountOrder|, i requires 0 <= i < |accountOrder| =>
      ToDbBundleAccount(accountOrder[i], diff.state[accountOrder[i]], diff.contracts, slotOrders[accountOrder[i]])));
    assert AccountAddresses(r.accountDiffs) == accountOrder;
    r
  }

  /** The stored account at position `i` of a converted diff. */
  lemma StoredAccountAt(diff: StateDiff, accountOrder: seq<Address>, slotOrders: map<Address, seq<U256>>, i: nat)
    requires IterationOrders(diff, accountOrder, slotOrders)
    requires i < |accountOrder|
    ensures var diffs := ToDbStateDiff(diff, accountOrder, slotOrders).accountDiffs;
            && |diffs| == |accountOrder|
            && diffs[i] == ToDbBundleAccount(accountOrder[i], diff.state[accountOrder[i]], diff.contracts, slotOrders[accountOrder[i]])
  {
  }

  /** What each stored account of a converted diff holds: its previous info is the
      account's original info, its status the code of the account's status, its
      storage reads back as the account's storage, and its current info is present
      exactly when the account's is, with the pool's code as fallback. */
  lemma StoredAccountFields(diff: StateDiff, accountOrder: seq<Address>, slotOrders: map<Address, seq<U256>>, i: nat)
    requires IterationOrders(diff, accountOrder, slotOrders)
    requires i < |diff.state|
    ensures var d := ToDbStateDiff(diff, accountOrder, slotOrders).accountDiffs[i];
            var account := diff.state[d.address];
            && d.prevInfo == InfoToDb(account.originalInfo)
            && d.status == FromAccountStatus(account.status)
            && FromDbStorageDiff(d.storage) == account.storage
            && (d.info.Some? <==> account.info.Some?)
            && (d.info.Some? ==>
                  d.info.value == FromAccountInfo(account.info.value, PoolCode(diff.contracts, account.info.value.codeHash)))
  {
    EnumerationSize(accountOrder, diff.state.Keys);
    StoredAccountAt(diff, accountOrder, slotOrders, i);
    StorageRoundTrip(diff.state[accountOrder[i]].storage, slotOrders[accountOrder[i]]);
  }

  /** The per-account closure of `Into<StateDiff> for DbStateDiff`; it panics on an
      unknown status code. */
  function FromDbBundleAccount(d: DbBundleAccount): (r: Result<BundleAccount, ConversionPanic>)
  {
    var status := ToAccountStatus(d.status);
    if status.None? then Err(InvalidStatus(d.status))
    else Ok(BundleAccount(InfoFromDb(d.info), InfoFromDb(d.prevInfo), FromDbStorageDiff(d.storage), status.value))
  }

  /** Every stored status is one of the eight known codes. */
  predicate KnownStatuses(diffs: seq<DbBundleAccount>) {
    forall i :: 0 <= i < |diffs| ==> diffs[i].status < 8
  }

  /** Collecting `(address, account)` pairs into a map in list order; a later
      account with the same address overwrites an earlier one, and the first
      unknown status code aborts the whole collection. */
  function CollectAccounts(diffs: seq<DbBundleAccount>): (r: Result<map<Address, BundleAccount>, ConversionPanic>)
    ensures r.Ok? <==> KnownStatuses(diffs)
    decreases |diffs|
  {
    if diffs == [] then Ok(map[])
    else
      var last := diffs[|diffs| - 1];
      var collected := CollectAccounts(diffs[..|diffs| - 1]);
      if collected.Err? then collected
      else
        var account := FromDbBundleAccount(last);
        if account.Err? then Err(account.error)
        else Ok(collected.value[last.address := account.value])
  }

  /** The collected map has exactly the stored accounts' addresses as keys. */
  lemma {:induction false} CollectAccountsKeys(diffs: seq<DbBundleAccount>)
    requires KnownStatuses(diffs)
    ensures forall a :: a in CollectAccounts(diffs).value <==> a in AccountAddresses(diffs)
    decreases |diffs|
  {
    if diffs != [] {
      var front := diffs[..|diffs| - 1];
      assert AccountAddresses(diffs) == AccountAddresses(front) + [diffs[|diffs| - 1].address];
      CollectAccountsKeys(front);
    }
  }

  /** A failed collection reports the first unknown status code of the list. */
  lemma {:induction false} CollectAccountsFirstError(diffs: seq<DbBundleAccount>)
    requires !KnownStatuses(diffs)
    ensures exists k :: 0 <= k < |diffs| && KnownStatuses(diffs[..k]) && diffs[k].status >= 8
                        && CollectAccounts(diffs).error == InvalidStatus(diffs[k].status)
    decreases |diffs|
  {
    var front := diffs[..|diffs| - 1];
    if KnownStatuses(front) {
      assert diffs[..|diffs| - 1] == front;
    } else {
      CollectAccountsFirstError(front);
      var k :| 0 <= k < |front| && KnownStatuses(front[..k]) && front[k].status >= 8
               && CollectAccounts(front).error == InvalidStatus(front[k].status);
      assert diffs[..k] == front[..k];
    }
  }

  /** The account collected for the address of a stored account that no later one
      overrides. */
  lemma {:induction false} CollectAccountsAt(diffs: seq<DbBundleAccount>, i: nat)
    requires i < |diffs| && KnownStatuses(diffs)
    requires forall j :: i < j < |diffs| ==> diffs[j].address != diffs[i].address
    ensures diffs[i].address in CollectAccounts(diffs).value
    ensures CollectAccounts(diffs).value[diffs[i].address] == FromDbBundleAccount(diffs[i]).value
    decreases |diffs|
  {
    if i < |diffs| - 1 {
      CollectAccountsAt(diffs[..|diffs| - 1], i);
    }
  }

  /** `Into<StateDiff> for DbStateDiff`: the accounts by address and an empty code
      pool; panics when a stored status is unknown. */
  function FromDbStateDiff(db: DbStateDiff): (r: Result<StateDiff, ConversionPanic>)
    ensures r.Ok? <==> KnownStatuses(db.accountDiffs)
    ensures r.Ok? ==> r.value.contracts == map[]
  {
    var state := CollectAccounts(db.accountDiffs);
    if state.Err? then Err(state.error) else Ok(StateDiff(state.value, map[]))
  }

  /** An account as it reads back from storage: the same, except that its current
      info carries the pool's code where it had none of its own. */
  function RestoredAccount(account: BundleAccount, contracts: map<B256, Bytecode>): BundleAccount {
    account.(info := if account.info.Some? then Some(WithPoolCode(account.info.value, contracts)) else None)
  }

  /** Storing one account and reading it back restores it, up to pool code. */
  lemma BundleAccountRoundTrip(address: Address, account: BundleAccount, contracts: map<B256, Bytecode>, slotOrder: seq<U256>)
    requires Enumerates(slotOrder, account.storage.Keys)
    ensures FromDbBundleAccount(ToDbBundleAccount(address, account, contracts, slotOrder))
            == Ok(RestoredAccount(account, contracts))
  {
    StatusRoundTrip(account.status);
    StorageRoundTrip(account.storage, slotOrder);
    if account.originalInfo.Some? {
      AccountInfoRoundTrip(account.originalInfo.value);
    }
    if account.info.Some? {
      FromAccountInfoRoundTrip(account.info.value, contracts);
    }
  }

  /** The accounts of `diff` as they read back from storage. */
  function RestoredState(diff: StateDiff): (r: map<Address, BundleAccount>)
    ensures r.Keys == diff.state.Keys
  {
    map a | a in diff.state :: RestoredAccount(diff.state[a], diff.contracts)
  }

  /** Storing a state diff and reading it back: the same addresses, each with the
      same status, previous info and storage and with the pool's code folded into
      its current info; the code pool itself comes back empty. */
  lemma StateDiffRoundTrip(diff: StateDiff, accountOrder: seq<Address>, slotOrders: map<Address, seq<U256>>)
    requires IterationOrders(diff, accountOrder, slotOrders)
    ensures FromDbStateDiff(ToDbStateDiff(diff, accountOrder, slotOrders)) == Ok(StateDiff(RestoredState(diff), map[]))
  {
    AccountsRoundTrip(diff, accountOrder, slotOrders);
  }

  /** The account part of `StateDiffRoundTrip`. */
  lemma AccountsRoundTrip(diff: StateDiff, accountOrder: seq<Address>, slotOrders: map<Address, seq<U256>>)
    requires IterationOrders(diff, accountOrder, slotOrders)
    ensures CollectAccounts(ToDbStateDiff(diff, accountOrder, slotOrders).accountDiffs) == Ok(RestoredState(diff))
  {
    var diffs := ToDbStateDiff(diff, accountOrder, slotOrders).accountDiffs;
    RestoredKeys(diff, accountOrder, slotOrders);
    var back := CollectAccounts(diffs).value;
    var restored := RestoredState(diff);
    forall a | a in restored ensures a in back && back[a] == restored[a] {
      RestoreAccount(diff, accountOrder, slotOrders, a);
    }
    MapsAgree(back, restored);
  }

  lemma RestoredKeys(diff: StateDiff, accountOrder: seq<Address>, slotOrders: map<Address, seq<U256>>)
    requires IterationOrders(diff, accountOrder, slotOrders)
    ensures var collected := CollectAccounts(ToDbStateDiff(diff, accountOrder, slotOrders).accountDiffs);
            collected.Ok? && collected.value.Keys == RestoredState(diff).Keys
  {
    var diffs := ToDbStateDiff(diff, accountOrder, slotOrders).accountDiffs;
    StoredStatusesKnown(diff, accountOrder, slotOrders);
    CollectAccountsKeys(diffs);
  }

  lemma StoredStatusesKnown(diff: StateDiff, accountOrder: seq<Address>, slotOrders: map<Address, seq<U256>>)
    requires IterationOrders(diff, accountOrder, slotOrders)
    ensures KnownStatuses(ToDbStateDiff(diff, accountOrder, slotOrders).accountDiffs)
  {
    var diffs := ToDbStateDiff(diff, accountOrder, slotOrders).accountDiffs;
    forall i | 0 <= i < |diffs| ensures diffs[i].status < 8 {
      StoredAccountAt(diff, accountOrder, slotOrders, i);
    }
  }

  /** One address of the round trip of `StateDiffRoundTrip`. */
  lemma RestoreAccount(diff: StateDiff, accountOrder: seq<Address>, slotOrders: map<Address, seq<U256>>, a: Address)
    requires IterationOrders(diff, accountOrder, slotOrders)
    requires a in diff.state
    ensures var diffs := ToDbStateDiff(diff, accountOrder, slotOrders).accountDiffs;
            && CollectAccounts(diffs).Ok?
            && a in CollectAccounts(diffs).value
            && CollectAccounts(diffs).value[a] == RestoredAccount(diff.state[a], diff.contracts)
  {
    var diffs := ToDbStateDiff(diff, accountOrder, slotOrders).accountDiffs;
    var i :| 0 <= i < |accountOrder| && accountOrder[i] == a;
    StoredAccountAt(diff, accountOrder, slotOrders, i);
    assert AccountAddresses(diffs)[i] == a;
    assert diffs[i] in diffs;
    forall j | i < j < |diffs| ensures diffs[j].address != a {
      assert AccountAddresses(diffs)[j] != AccountAddresses(diffs)[i];
    }
    CollectAccountsAt(diffs, i);
    BundleAccountRoundTrip(a, diff.state[a], diff.contracts, slotOrders[a]);
  }
}
