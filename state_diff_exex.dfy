/** The state-diff execution extension (`state_diff_exex.rs`): for every chain
    notification it sends `Put`/`Del` operations for the blocks concerned and,
    after a commit or a reorg, acknowledges the new tip with `FinishedHeight`. */
module StateDiffExEx {
  import opened Primitives
  import opened Collections
  import opened StateDiffs
  import opened ExEx

  /** The numbers of `chain.range()` that have both a block and an execution
      outcome, ascending. */
  function DiffBlockNumbers(chain: Chain): (r: seq<BlockNumber>)
    ensures StrictlyIncreasing(r)
    ensures forall n :: n in r <==> chain.first <= n <= chain.tip && n in chain.blocks && n in chain.outcomes
  {
    Filter(Range(chain), chain.blocks.Keys * chain.outcomes.Keys)
  }

  /** `extract_new_diffs`: the block hash and state diff of each number of the
      range that has both a block and an execution outcome, in range order; the
      other numbers are skipped. */
  function ExtractNewDiffs(chain: Chain): (r: seq<(B256, StateDiff)>)
    ensures |r| == |DiffBlockNumbers(chain)|
    ensures forall i :: 0 <= i < |r| ==>
              var n := DiffBlockNumbers(chain)[i];
              r[i] == (chain.blocks[n], FromBundleState(chain.outcomes[n].bundle))
  {
    var numbers := DiffBlockNumbers(chain);
    seq(|numbers|, i requires 0 <= i < |numbers| =>
      (chain.blocks[numbers[i]], FromBundleState(chain.outcomes[numbers[i]].bundle)))
  }

  /** The numbers of `chain.range()` that have a block, ascending. */
  function BlockNumbersPresent(chain: Chain): (r: seq<BlockNumber>)
    ensures StrictlyIncreasing(r)
    ensures forall n :: n in r <==> chain.first <= n <= chain.tip && n in chain.blocks
  {
    Filter(Range(chain), chain.blocks.Keys)
  }

  /** `extract_old_block_hashes`: the hash of each number of the range that has a
      block, in range order. */
  function ExtractOldBlockHashes(chain: Chain): (r: seq<B256>)
    ensures |r| == |BlockNumbersPresent(chain)|
    ensures forall i :: 0 <= i < |r| ==> r[i] == chain.blocks[BlockNumbersPresent(chain)[i]]
  {
    var numbers := BlockNumbersPresent(chain);
    seq(|numbers|, i requires 0 <= i < |numbers| => chain.blocks[numbers[i]])
  }

  /** When every block of a segment lies in its range (as reth's `Chain` keeps
      it), there is exactly one old hash per block. */
  lemma OldBlockHashesPerBlock(chain: Chain)
    requires forall n :: n in chain.blocks ==> chain.first <= n <= chain.tip
    ensures |ExtractOldBlockHashes(chain)| == |chain.blocks|
  {
    var numbers := BlockNumbersPresent(chain);
    StrictlyIncreasingIsDistinct(numbers);
    EnumerationSize(numbers, chain.blocks.Keys);
  }

  /** `Put(hash, diff)` for each extracted diff. */
  function PutOps(diffs: seq<(B256, StateDiff)>): seq<StateDiffOp> {
    seq(|diffs|, i requires 0 <= i < |diffs| => Put(diffs[i].0, diffs[i].1))
  }

  /** `Del(hash)` for each old block hash. */
  function DelOps(hashes: seq<B256>): seq<StateDiffOp> {
    seq(|hashes|, i requires 0 <= i < |hashes| => Del(hashes[i]))
  }

  /** The sends one notification causes, in the order the loop body makes them. */
  function NotificationActions(notification: Notification): seq<Action> {
    match notification
    case ChainCommitted(newChain) =>
      OpActions(PutOps(ExtractNewDiffs(newChain))) + [EventSend(FinishedHeight(newChain.tip))]
    case ChainReorged(oldChain, newChain) =>
      OpActions(DelOps(ExtractOldBlockHashes(oldChain))) + OpActions(PutOps(ExtractNewDiffs(newChain)))
        + [EventSend(FinishedHeight(newChain.tip))]
    case ChainReverted(oldChain) =>
      OpActions(DelOps(ExtractOldBlockHashes(oldChain)))
  }

  /** The sends of a whole notification stream. */
  function Plan(notifications: seq<Notification>): seq<Action> {
    PlanOf(notifications, NotificationActions)
  }

  /** On a commit: one `Put` per block of the new segment that has an outcome, in
      ascending block order, then exactly one `FinishedHeight` with the new tip,
      sent after every operation. */
  lemma CommitSends(newChain: Chain)
    ensures var actions := NotificationActions(ChainCommitted(newChain));
            && OpsOf(actions) == PutOps(ExtractNewDiffs(newChain))
            && |OpsOf(actions)| == |DiffBlockNumbers(newChain)|
            && EventsOf(actions) == [FinishedHeight(newChain.tip)]
            && actions[|actions| - 1] == EventSend(FinishedHeight(newChain.tip))
  {
    var puts := OpActions(PutOps(ExtractNewDiffs(newChain)));
    var last := [EventSend(FinishedHeight(newChain.tip))];
    OpActionsSend(PutOps(ExtractNewDiffs(newChain)));
    OpsOfAppend(puts, last);
    EventsOfAppend(puts, last);
  }

  /** On a reorg: a `Del` for every old block, all of them before the first
      `Put`, then one `Put` per new block with an outcome, then exactly one
      `FinishedHeight` with the new segment's tip, sent last. */
  lemma ReorgSends(oldChain: Chain, newChain: Chain)
    ensures var actions := NotificationActions(ChainReorged(oldChain, newChain));
            var ops := OpsOf(actions);
            && ops == DelOps(ExtractOldBlockHashes(oldChain)) + PutOps(ExtractNewDiffs(newChain))
            && (forall i, j :: 0 <= i < j < |ops| && ops[i].Put? ==> ops[j].Put?)
            && EventsOf(actions) == [FinishedHeight(newChain.tip)]
            && actions[|actions| - 1] == EventSend(FinishedHeight(newChain.tip))
  {
    var dels := OpActions(DelOps(ExtractOldBlockHashes(oldChain)));
    var puts := OpActions(PutOps(ExtractNewDiffs(newChain)));
    var last := [EventSend(FinishedHeight(newChain.tip))];
    OpActionsSend(DelOps(ExtractOldBlockHashes(oldChain)));
    OpActionsSend(PutOps(ExtractNewDiffs(newChain)));
    OpsOfAppend(dels, puts);
    OpsOfAppend(dels + puts, last);
    EventsOfAppend(dels, puts);
    EventsOfAppend(dels + puts, last);
    DelsBeforePuts(ExtractOldBlockHashes(oldChain), ExtractNewDiffs(newChain));
  }

  /** In a list of deletions followed by puts, nothing after a put is a deletion. */
  lemma DelsBeforePuts(hashes: seq<B256>, diffs: seq<(B256, StateDiff)>)
    ensures var ops := DelOps(hashes) + PutOps(diffs);
            forall i, j :: 0 <= i < j < |ops| && ops[i].Put? ==> ops[j].Put?
  {
    var ops := DelOps(hashes) + PutOps(diffs);
    forall i, j | 0 <= i < j < |ops| && ops[i].Put? ensures ops[j].Put? {
      assert i >= |hashes|;
    }
  }

  /** On a revert: a `Del` for every old block present and nothing else; no
      height is acknowledged. */
  lemma RevertSends(oldChain: Chain)
    ensures var actions := NotificationActions(ChainReverted(oldChain));
            && OpsOf(actions) == DelOps(ExtractOldBlockHashes(oldChain))
            && (forall op :: op in OpsOf(actions) ==> op.Del?)
            && EventsOf(actions) == []
  {
    OpActionsSend(DelOps(ExtractOldBlockHashes(oldChain)));
  }

  /** Over a whole stream the extension acknowledges exactly one height per commit
      or reorg, the new tip, in stream order. */
  lemma SignalsFinishedHeights(notifications: seq<Notification>)
    ensures EventsOf(Plan(notifications)) == FinishedHeights(notifications)
  {
    forall n ensures EventsOf(NotificationActions(n)) == (if n.ChainReverted? then [] else [FinishedHeight(n.newChain.tip)]) {
      match n
      case ChainCommitted(newChain) => CommitSends(newChain);
      case ChainReorged(oldChain, newChain) => ReorgSends(oldChain, newChain);
      case ChainReverted(oldChain) => RevertSends(oldChain);
    }
    PlanOfSignalsHeights(notifications, NotificationActions);
  }

  /** While both receivers stay alive the extension runs through the whole
      stream, sends every operation of `Plan`, acknowledges every height and
      returns `Ok`. */
  lemma RunWithLiveReceivers(notifications: seq<Notification>, out: Outputs)
    ensures Execute(Plan(notifications), out, Receivers(None, None))
            == Trace(Outputs(out.ops + OpsOf(Plan(notifications)), out.events + FinishedHeights(notifications)), Ok(()))
  {
    ExecuteWithLiveReceivers(Plan(notifications), out);
    SignalsFinishedHeights(notifications);
  }

  /** `for op in ops { tx.send(op)?; }`. */
  method SendOps(tx: Sender<StateDiffOp>, events: Sender<ExExEvent>, ops: seq<StateDiffOp>) returns (r: Result<(), ExExError>)
    modifies tx
    ensures Trace(Outputs(tx.delivered, events.delivered), r)
            == Execute(OpActions(ops), Outputs(old(tx.delivered), events.delivered), Receivers(tx.dropAfter, events.dropAfter))
  {
    ghost var rx := Receivers(tx.dropAfter, events.dropAfter);
    ghost var start := Outputs(tx.delivered, events.delivered);
    var j := 0;
    while j < |ops|
      invariant j <= |ops|
      invariant Execute(OpActions(ops[..j]), start, rx) == Trace(Outputs(tx.delivered, events.delivered), Ok(()))
    {
      ghost var before := Outputs(tx.delivered, events.delivered);
      var ok := tx.Send(ops[j]);
      ExecuteOne(OpSend(ops[j]), before, rx);
      ExecuteAppend(OpActions(ops[..j]), [OpSend(ops[j])], start, rx);
      assert OpActions(ops[..j + 1]) == OpActions(ops[..j]) + [OpSend(ops[j])];
      if !ok {
        ExecuteAppend(OpActions(ops[..j + 1]), OpActions(ops[j + 1..]), start, rx);
        assert OpActions(ops) == OpActions(ops[..j + 1]) + OpActions(ops[j + 1..]);
        return Err(OpSendError(ops[j]));
      }
      j := j + 1;
    }
    assert ops[..j] == ops;
    r := Ok(());
  }

  /** The body of the loop: handle one notification, stopping at the first send
      that fails. */
  method HandleNotification(notification: Notification, tx: Sender<StateDiffOp>, events: Sender<ExExEvent>)
    returns (r: Result<(), ExExError>)
    modifies tx, events
    ensures Trace(Outputs(tx.delivered, events.delivered), r)
            == Execute(NotificationActions(notification), Outputs(old(tx.delivered), old(events.delivered)), Receivers(tx.dropAfter, events.dropAfter))
  {
    ghost var rx := Receivers(tx.dropAfter, events.dropAfter);
    ghost var start := Outputs(tx.delivered, events.delivered);
    match notification {
      case ChainCommitted(newChain) =>
        var tipHeight := newChain.tip;
        var newDiffs := ExtractNewDiffs(newChain);
        r := SendOps(tx, events, PutOps(newDiffs));
        if r.Ok? {
          r := SendEvent(events, tx, FinishedHeight(tipHeight));
        }
        ExecuteAppend(OpActions(PutOps(newDiffs)), [EventSend(FinishedHeight(tipHeight))], start, rx);
      case ChainReorged(oldChain, newChain) =>
        var tipHeight := newChain.tip;
        var newDiffs := ExtractNewDiffs(newChain);
        var oldBlockHashes := ExtractOldBlockHashes(oldChain);
        ghost var dels := OpActions(DelOps(oldBlockHashes));
        ghost var puts := OpActions(PutOps(newDiffs));
        r := SendOps(tx, events, DelOps(oldBlockHashes));
        if r.Ok? {
          r := SendOps(tx, events, PutOps(newDiffs));
        }
        ExecuteAppend(dels, puts, start, rx);
        if r.Ok? {
          r := SendEvent(events, tx, FinishedHeight(tipHeight));
        }
        ExecuteAppend(dels + puts, [EventSend(FinishedHeight(tipHeight))], start, rx);
      case ChainReverted(oldChain) =>
        var oldBlockHashes := ExtractOldBlockHashes(oldChain);
        r := SendOps(tx, events, DelOps(oldBlockHashes));
    }
  }

  /** `state_diff_exex`: handle the notifications in order until the stream ends
      (`Ok`) or a send fails (its error). What the receivers end up with and what
      is returned are those of running `Plan(notifications)`. */
  method StateDiffExEx(notifications: seq<Notification>, tx: Sender<StateDiffOp>, events: Sender<ExExEvent>)
    returns (r: Result<(), ExExError>)
    modifies tx, events
    ensures Trace(Outputs(tx.delivered, events.delivered), r)
            == Execute(Plan(notifications), Outputs(old(tx.delivered), old(events.delivered)), Receivers(tx.dropAfter, events.dropAfter))
  {
    ghost var rx := Receivers(tx.dropAfter, events.dropAfter);
    ghost var start := Outputs(tx.delivered, events.delivered);
    var i := 0;
    assert Plan(notifications[..0]) == [] by {
      assert notifications[..0] == [];
    }
    while i < |notifications|
      invariant i <= |notifications|
      invariant Execute(Plan(notifications[..i]), start, rx) == Trace(Outputs(tx.delivered, events.delivered), Ok(()))
    {
      ghost var before := Outputs(tx.delivered, events.delivered);
      var res := HandleNotification(notifications[i], tx, events);
      RunNext(notifications, i, NotificationActions, start, rx, before, Trace(Outputs(tx.delivered, events.delivered), res));
      if res.Err? {
        return res;
      }
      ghost var unit: () := res.value;
      assert unit == ();
      i := i + 1;
    }
    assert notifications[..i] == notifications;
    r := Ok(());
  }
}
