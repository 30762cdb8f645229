/** The state diff of one block (`state_diff/mod.rs`): the part of a revm
    `BundleState` that is kept, and the insert/delete operations sent to storage. */
module StateDiffs {
  import opened Primitives

  /** The state diff for a single block: a subset of `BundleState`. */
  datatype StateDiff = StateDiff(state: map<Address, BundleAccount>, contracts: map<B256, Bytecode>)

  /** A storage operation on the diff of one block, keyed by block hash. The type is
      closed: every operation is a `Put` or a `Del`. */
  datatype StateDiffOp = Put(blockHash: B256, diff: StateDiff) | Del(blockHash: B256)

  /** `Into<StateDiff> for BundleState`: keep the accounts as they are, wrap every
      contract's bytes as reth `Bytecode`, and drop the reverts and size counters. */
  function FromBundleState(bundle: BundleState): (r: StateDiff)
    ensures r.state == bundle.state
    ensures r.contracts.Keys == bundle.contracts.Keys
    ensures forall h :: h in r.contracts ==> r.contracts[h] == Bytecode(bundle.contracts[h])
  {
    StateDiff(bundle.state, map h | h in bundle.contracts :: Bytecode(bundle.contracts[h]))
  }

  /** Unwrapping every contract of the result gives back the bundle's contract map:
      the conversion loses no code and invents none. */
  lemma ContractsUnwrap(bundle: BundleState)
    ensures (map h | h in FromBundleState(bundle).contracts :: FromBundleState(bundle).contracts[h].inner)
            == bundle.contracts
  {
  }

  /** The result depends only on `state` and `contracts`: two bundles that differ in
      their reverts or size bookkeeping give the same diff. */
  lemma FromBundleStateIgnoresReverts(b1: BundleState, b2: BundleState)
    requires b1.state == b2.state && b1.contracts == b2.contracts
    ensures FromBundleState(b1) == FromBundleState(b2)
  {
  }
}
