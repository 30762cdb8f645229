/** The prover-input execution extension (`prover_input_exex.rs`): it listens to
    the same notifications as the state-diff extension but sends no operation;
    it only acknowledges the new tip of each committed or reorged chain. */
module ProverInputExEx {
  import opened Primitives
  import opened StateDiffs
  import opened ExEx
  import StateDiffExEx

  /** The sends one notification causes. */
  function ProverActions(notification: Notification): seq<Action> {
    match notification
    case ChainCommitted(newChain) => [EventSend(FinishedHeight(newChain.tip))]
    case ChainReorged(_, newChain) => [EventSend(FinishedHeight(newChain.tip))]
    case ChainReverted(_) => []
  }

  /** The sends of a whole notification stream. */
  function ProverPlan(notifications: seq<Notification>): seq<Action> {
    PlanOf(notifications, ProverActions)
  }

  /** The extension never sends on its operation channel. */
  lemma {:induction false} ProverSendsNoOps(notifications: seq<Notification>)
    ensures OpsOf(ProverPlan(notifications)) == []
    decreases |notifications|
  {
    if notifications != [] {
      var front := notifications[..|notifications| - 1];
      ProverSendsNoOps(front);
      OpsOfAppend(ProverPlan(front), ProverActions(notifications[|notifications| - 1]));
    }
  }

  /** It acknowledges one height per commit or reorg, the new tip, in stream
      order; a revert acknowledges nothing. */
  lemma ProverSignalsFinishedHeights(notifications: seq<Notification>)
    ensures EventsOf(ProverPlan(notifications)) == FinishedHeights(notifications)
  {
    PlanOfSignalsHeights(notifications, ProverActions);
  }

  /** Both extensions acknowledge the same heights for the same stream. */
  lemma SameFinishedHeights(notifications: seq<Notification>)
    ensures EventsOf(ProverPlan(notifications)) == EventsOf(StateDiffExEx.Plan(notifications))
  {
    ProverSignalsFinishedHeights(notifications);
    StateDiffExEx.SignalsFinishedHeights(notifications);
  }

  /** While the event receiver stays alive the extension runs through the whole
      stream, acknowledges every height and returns `Ok`, whatever becomes of the
      operation receiver, which it never uses. */
  lemma ProverRunWithLiveReceivers(notifications: seq<Notification>, out: Outputs, opsDropAfter: Option<nat>)
    ensures Execute(ProverPlan(notifications), out, Receivers(opsDropAfter, None))
            == Trace(Outputs(out.ops, out.events + FinishedHeights(notifications)), Ok(()))
  {
    ProverSendsNoOps(notifications);
    ExecuteEventsOnly(ProverPlan(notifications), out, opsDropAfter);
    ProverSendsNoOps(notifications);
    ProverSignalsFinishedHeights(notifications);
  }

  /** `prover_input_exex`: handle the notifications in order until the stream ends
      (`Ok`) or sending an event fails (its error); `tx` is never used. */
  method ProverInputExEx(notifications: seq<Notification>, tx: Sender<StateDiffOp>, events: Sender<ExExEvent>)
    returns (r: Result<(), ExExError>)
    modifies events
    ensures Trace(Outputs(tx.delivered, events.delivered), r)
            == Execute(ProverPlan(notifications), Outputs(tx.delivered, old(events.delivered)), Receivers(tx.dropAfter, events.dropAfter))
  {
    ghost var rx := Receivers(tx.dropAfter, events.dropAfter);
    ghost var start := Outputs(tx.delivered, events.delivered);
    var i := 0;
    assert ProverPlan(notifications[..0]) == [] by {
      assert notifications[..0] == [];
    }
    while i < |notifications|
      invariant i <= |notifications|
      invariant Execute(ProverPlan(notifications[..i]), start, rx) == Trace(Outputs(tx.delivered, events.delivered), Ok(()))
    {
      ghost var before := Outputs(tx.delivered, events.delivered);
      var res: Result<(), ExExError> := Ok(());
      match notifications[i] {
        case ChainCommitted(newChain) =>
          var tipHeight := newChain.tip;
          res := SendEvent(events, tx, FinishedHeight(tipHeight));
        case ChainReorged(_, newChain) =>
          var tipHeight := newChain.tip;
          res := SendEvent(events, tx, FinishedHeight(tipHeight));
        case ChainReverted(_) =>
      }
      RunNext(notifications, i, ProverActions, start, rx, before, Trace(Outputs(tx.delivered, events.delivered), res));
      if res.Err? {
        return res;
      }
      ghost var unit: () := res.value;
      assert unit == ();
      i := i + 1;
    }
    assert notifications[..i] == notifications;
    r := Ok(());
  }
}
