/** What the two execution extensions share: reth's chain segments and
    notifications, the `FinishedHeight` event, unbounded channel senders whose
    receiver may go away, and the meaning of a run as a plan of sends that stops
    at the first send that fails. */
module ExEx {
  import opened Primitives
  import opened Collections
  import opened StateDiffs

  /** The execution outcome recorded for a block; only its bundle is used here. */
  datatype ExecutionOutcome = ExecutionOutcome(bundle: BundleState)

  /** A reth `Chain` segment: `range()` is `first..=tip`, `blocks` gives the hash of
      each block the segment holds, and `outcomes` the execution outcome recorded
      for a block number (`execution_outcome_at_block`), where there is one. */
  datatype Chain = Chain(
    first: BlockNumber,
    tip: BlockNumber,
    blocks: map<BlockNumber, B256>,
    outcomes: map<BlockNumber, ExecutionOutcome>)

  /** reth `ExExNotification`. */
  datatype Notification =
    | ChainCommitted(newChain: Chain)
    | ChainReorged(oldChain: Chain, newChain: Chain)
    | ChainReverted(oldChain: Chain)

  /** reth `ExExEvent`. */
  datatype ExExEvent = FinishedHeight(height: BlockNumber)

  // ---------------------------------------------------------------------------
  // Block ranges

  /** `chain.range()`: the block numbers `first..=tip`, ascending. */
  function Range(chain: Chain): (r: seq<BlockNumber>)
    ensures StrictlyIncreasing(r)
    ensures forall n :: n in r <==> chain.first <= n <= chain.tip
  {
    var len := if chain.first <= chain.tip then chain.tip - chain.first + 1 else 0;
    var r: seq<BlockNumber> := seq(len, i requires 0 <= i < len => chain.first + i);
    forall n | chain.first <= n <= chain.tip ensures n in r {
      assert r[n - chain.first] == n;
    }
    r
  }

  /** The numbers of `ns` that are in `keep`, in the order of `ns` (`filter`). */
  function Filter(ns: seq<BlockNumber>, keep: set<BlockNumber>): (r: seq<BlockNumber>)
    ensures forall n :: n in r <==> n in ns && n in keep
    ensures StrictlyIncreasing(ns) ==> StrictlyIncreasing(r)
  {
    if ns == [] then []
    else
      var rest := Filter(ns[1..], keep);
      if ns[0] in keep then
        PrependIncreasing(ns, rest);
        [ns[0]] + rest
      else rest
  }

  /** Putting the head of an ascending sequence in front of an ascending selection
      of its tail keeps it ascending. */
  lemma PrependIncreasing(ns: seq<BlockNumber>, rest: seq<BlockNumber>)
    requires ns != []
    requires forall n :: n in rest ==> n in ns[1..]
    requires StrictlyIncreasing(ns) ==> StrictlyIncreasing(rest)
    ensures StrictlyIncreasing(ns) ==> StrictlyIncreasing([ns[0]] + rest)
  {
    if StrictlyIncreasing(ns) {
      var r := [ns[0]] + rest;
      forall i, j | 0 <= i < j < |r| ensures r[i] < r[j] {
        assert r[j] == rest[j - 1] && r[j] in ns[1..];
      }
    }
  }

  // ---------------------------------------------------------------------------
  // Channels

  /** `Some(k)`: the receiver is dropped once it has been handed `k` messages;
      `None`: it is never dropped. */
  predicate Accepts(dropAfter: Option<nat>, delivered: nat) {
    dropAfter.None? || delivered < dropAfter.value
  }

  /** The sending half of an unbounded channel. `delivered` is what the receiver has
      been handed so far; a send fails, and hands over nothing, once the receiver
      is gone. When the receiver goes is up to the task that owns it, and is fixed
      here by `dropAfter`. */
  class Sender<T> {
    var delivered: seq<T>
    const dropAfter: Option<nat>

    constructor (dropAfter: Option<nat>)
      ensures delivered == [] && this.dropAfter == dropAfter
    {
      delivered := [];
      this.dropAfter := dropAfter;
    }

    predicate ReceiverAlive()
      reads this
    {
      Accepts(dropAfter, |delivered|)
    }

    /** `send`: hand `x` to the receiver, or fail if it is gone. */
    method Send(x: T) returns (ok: bool)
      modifies this
      ensures ok == old(ReceiverAlive())
      ensures delivered == if ok then old(delivered) + [x] else old(delivered)
    {
      ok := ReceiverAlive();
      if ok {
        delivered := delivered + [x];
      }
    }
  }

  // ---------------------------------------------------------------------------
  // Runs as plans of sends

  /** One send a notification handler performs: an operation on `tx` or an event on
      `ctx.events`. */
  datatype Action = OpSend(op: StateDiffOp) | EventSend(event: ExExEvent)

  /** The error a failed send returns through `?`, carrying the unsent value. */
  datatype ExExError = OpSendError(op: StateDiffOp) | EventSendError(event: ExExEvent)

  /** What the two receivers have been handed. */
  datatype Outputs = Outputs(ops: seq<StateDiffOp>, events: seq<ExExEvent>)

  /** When each receiver goes away (see `Accepts`). */
  datatype Receivers = Receivers(opsDropAfter: Option<nat>, eventsDropAfter: Option<nat>)

  /** The outputs at the end of a run and what the task returned. */
  datatype Trace = Trace(out: Outputs, result: Result<(), ExExError>)

  /** One send: the new outputs, or `None` when the receiver is gone. */
  function Step(action: Action, out: Outputs, rx: Receivers): (r: Option<Outputs>)
  {
    match action
    case OpSend(op) =>
      if Accepts(rx.opsDropAfter, |out.ops|) then Some(out.(ops := out.ops + [op])) else None
    case EventSend(event) =>
      if Accepts(rx.eventsDropAfter, |out.events|) then Some(out.(events := out.events + [event])) else None
  }

  function ErrorOf(action: Action): ExExError {
    match action
    case OpSend(op) => OpSendError(op)
    case EventSend(event) => EventSendError(event)
  }

  /** Perform the sends of `plan` in order, stopping with an error at the first
      one that fails. */
  function Execute(plan: seq<Action>, out: Outputs, rx: Receivers): Trace
    decreases |plan|
  {
    if plan == [] then Trace(out, Ok(()))
    else
      var next := Step(plan[0], out, rx);
      if next.None? then Trace(out, Err(ErrorOf(plan[0])))
      else Execute(plan[1..], next.value, rx)
  }

  /** Carry on with `rest` after a run that ended in `t`, unless it failed. */
  function Continue(t: Trace, rest: seq<Action>, rx: Receivers): Trace {
    if t.result.Err? then t else Execute(rest, t.out, rx)
  }

  /** The operations among the sends of a plan, in order. */
  function OpsOf(plan: seq<Action>): seq<StateDiffOp> {
    if plan == [] then []
    else (if plan[0].OpSend? then [plan[0].op] else []) + OpsOf(plan[1..])
  }

  /** The events among the sends of a plan, in order. */
  function EventsOf(plan: seq<Action>): seq<ExExEvent> {
    if plan == [] then []
    else (if plan[0].EventSend? then [plan[0].event] else []) + EventsOf(plan[1..])
  }

  /** Sending each of `ops` on `tx`. */
  function OpActions(ops: seq<StateDiffOp>): seq<Action> {
    seq(|ops|, i requires 0 <= i < |ops| => OpSend(ops[i]))
  }

  /** Sending a list of operations sends those operations and no event. */
  lemma {:induction false} OpActionsSend(ops: seq<StateDiffOp>)
    ensures OpsOf(OpActions(ops)) == ops
    ensures EventsOf(OpActions(ops)) == []
    decreases |ops|
  {
    if ops != [] {
      assert OpActions(ops)[1..] == OpActions(ops[1..]);
      OpActionsSend(ops[1..]);
    }
  }

  /** Running two plans one after the other is running the second from where the
      first stopped, unless the first failed, in which case nothing more happens. */
  lemma {:induction false} ExecuteAppend(p: seq<Action>, q: seq<Action>, out: Outputs, rx: Receivers)
    ensures Execute(p + q, out, rx) == Continue(Execute(p, out, rx), q, rx)
    decreases |p|
  {
    if p == [] {
      assert p + q == q;
    } else {
      assert (p + q)[0] == p[0];
      assert (p + q)[1..] == p[1..] + q;
      var next := Step(p[0], out, rx);
      if next.Some? {
        ExecuteAppend(p[1..], q, next.value, rx);
      }
    }
  }

  lemma {:induction false} OpsOfAppend(p: seq<Action>, q: seq<Action>)
    ensures OpsOf(p + q) == OpsOf(p) + OpsOf(q)
    decreases |p|
  {
    if p == [] {
      assert p + q == q;
    } else {
      assert (p + q)[0] == p[0];
      assert (p + q)[1..] == p[1..] + q;
      OpsOfAppend(p[1..], q);
    }
  }

  lemma {:induction false} EventsOfAppend(p: seq<Action>, q: seq<Action>)
    ensures EventsOf(p + q) == EventsOf(p) + EventsOf(q)
    decreases |p|
  {
    if p == [] {
      assert p + q == q;
    } else {
      assert (p + q)[0] == p[0];
      assert (p + q)[1..] == p[1..] + q;
      EventsOfAppend(p[1..], q);
    }
  }

  /** A send that goes through adds exactly its own value to its receiver. */
  lemma StepOutputs(action: Action, out: Outputs, rx: Receivers)
    requires Step(action, out, rx).Some?
    ensures Step(action, out, rx).value == Outputs(out.ops + OpsOf([action]), out.events + EventsOf([action]))
  {
    assert [action][1..] == [];
  }

  /** A one-send run: the send goes through and the run returns `Ok`, or it fails
      and nothing is handed over. */
  lemma ExecuteOne(action: Action, out: Outputs, rx: Receivers)
    ensures var next := Step(action, out, rx);
            Execute([action], out, rx)
            == if next.None? then Trace(out, Err(ErrorOf(action))) else Trace(next.value, Ok(()))
  {
    assert [action][1..] == [];
  }

  /** A run from `out` stopped after handing over the first `k` sends of `plan`:
      the receivers got exactly those, the run returned `Ok` precisely when they
      are the whole plan, and otherwise failed on send `k`, with its value in the
      error. */
  predicate StopsAt(plan: seq<Action>, out: Outputs, rx: Receivers, k: nat) {
    var t := Execute(plan, out, rx);
    && k <= |plan|
    && t.out == Outputs(out.ops + OpsOf(plan[..k]), out.events + EventsOf(plan[..k]))
    && (t.result.Ok? <==> k == |plan|)
    && (t.result.Err? ==> k < |plan| && Step(plan[k], t.out, rx).None? && t.result.error == ErrorOf(plan[k]))
  }

  /** Every run hands the receivers exactly the sends of some prefix of its plan,
      and nothing after the first send that fails. */
  lemma {:induction false} ExecuteEmitsPrefix(plan: seq<Action>, out: Outputs, rx: Receivers)
    ensures exists k :: StopsAt(plan, out, rx, k)
    decreases |plan|
  {
    if plan == [] {
      assert plan[..0] == [];
      assert StopsAt(plan, out, rx, 0);
    } else if Step(plan[0], out, rx).None? {
      assert plan[..0] == [];
      assert StopsAt(plan, out, rx, 0);
    } else {
      var next := Step(plan[0], out, rx).value;
      ExecuteEmitsPrefix(plan[1..], next, rx);
      var k :| StopsAt(plan[1..], next, rx, k);
      StopsAtStep(plan, out, rx, k);
    }
  }

  /** A successful first send extends where the rest of the run stops by one. */
  lemma StopsAtStep(plan: seq<Action>, out: Outputs, rx: Receivers, k: nat)
    requires plan != [] && Step(plan[0], out, rx).Some?
    requires StopsAt(plan[1..], Step(plan[0], out, rx).value, rx, k)
    ensures StopsAt(plan, out, rx, k + 1)
  {
    var next := Step(plan[0], out, rx).value;
    assert plan[..k + 1] == [plan[0]] + plan[1..][..k];
    OpsOfAppend([plan[0]], plan[1..][..k]);
    EventsOfAppend([plan[0]], plan[1..][..k]);
    StepOutputs(plan[0], out, rx);
    assert next.ops + OpsOf(plan[1..][..k]) == out.ops + OpsOf(plan[..k + 1]);
    assert next.events + EventsOf(plan[1..][..k]) == out.events + EventsOf(plan[..k + 1]);
  }

  /** While both receivers stay alive a run hands over every send of its plan and
      returns `Ok`. */
  lemma {:induction false} ExecuteWithLiveReceivers(plan: seq<Action>, out: Outputs)
    ensures Execute(plan, out, Receivers(None, None))
            == Trace(Outputs(out.ops + OpsOf(plan), out.events + EventsOf(plan)), Ok(()))
    decreases |plan|
  {
    if plan != [] {
      var next := Step(plan[0], out, Receivers(None, None)).value;
      ExecuteWithLiveReceivers(plan[1..], next);
    }
  }

  /** A plan that sends no operation runs to `Ok` while the event receiver stays
      alive, whatever becomes of the operation receiver, and hands over all its
      events. */
  lemma {:induction false} ExecuteEventsOnly(plan: seq<Action>, out: Outputs, opsDropAfter: Option<nat>)
    requires OpsOf(plan) == []
    ensures Execute(plan, out, Receivers(opsDropAfter, None))
            == Trace(Outputs(out.ops, out.events + EventsOf(plan)), Ok(()))
    decreases |plan|
  {
    if plan != [] {
      assert plan[0].EventSend?;
      var next := Step(plan[0], out, Receivers(opsDropAfter, None)).value;
      ExecuteEventsOnly(plan[1..], next, opsDropAfter);
    }
  }

  // ---------------------------------------------------------------------------
  // Notification streams

  /** The sends of a whole notification stream, handled one notification after
      the other by `handler`. */
  function PlanOf(notifications: seq<Notification>, handler: Notification -> seq<Action>): seq<Action>
    decreases |notifications|
  {
    if notifications == [] then []
    else PlanOf(notifications[..|notifications| - 1], handler) + handler(notifications[|notifications| - 1])
  }

  lemma {:induction false} PlanOfAppend(xs: seq<Notification>, ys: seq<Notification>, handler: Notification -> seq<Action>)
    ensures PlanOf(xs + ys, handler) == PlanOf(xs, handler) + PlanOf(ys, handler)
    decreases |ys|
  {
    if ys == [] {
      assert xs + ys == xs;
    } else {
      var front := ys[..|ys| - 1];
      assert (xs + ys)[..|xs + ys| - 1] == xs + front;
      PlanOfAppend(xs, front, handler);
    }
  }

  /** Handling one more notification of a stream appends its sends. */
  lemma PlanOfPrefix(notifications: seq<Notification>, i: nat, handler: Notification -> seq<Action>)
    requires i < |notifications|
    ensures PlanOf(notifications[..i + 1], handler) == PlanOf(notifications[..i], handler) + handler(notifications[i])
  {
    assert notifications[..i + 1][..i] == notifications[..i];
  }

  /** One more turn of a dispatcher loop: if the notifications so far ran to
      completion and the next one's sends end in `t`, the longer prefix ends in
      `t`; and if `t` is an error, so does the whole stream. */
  lemma RunNext(notifications: seq<Notification>, i: nat, handler: Notification -> seq<Action>,
                start: Outputs, rx: Receivers, before: Outputs, t: Trace)
    requires i < |notifications|
    requires Execute(PlanOf(notifications[..i], handler), start, rx) == Trace(before, Ok(()))
    requires Execute(handler(notifications[i]), before, rx) == t
    ensures Execute(PlanOf(notifications[..i + 1], handler), start, rx) == t
    ensures t.result.Err? ==> Execute(PlanOf(notifications, handler), start, rx) == t
  {
    PlanOfPrefix(notifications, i, handler);
    ExecuteAppend(PlanOf(notifications[..i], handler), handler(notifications[i]), start, rx);
    if t.result.Err? {
      assert notifications == notifications[..i + 1] + notifications[i + 1..];
      PlanOfAppend(notifications[..i + 1], notifications[i + 1..], handler);
      ExecuteAppend(PlanOf(notifications[..i + 1], handler), PlanOf(notifications[i + 1..], handler), start, rx);
    }
  }

  /** The heights a stream should acknowledge: the new tip of each committed or
      reorged chain, in stream order; a revert acknowledges nothing. */
  function FinishedHeights(notifications: seq<Notification>): seq<ExExEvent>
    decreases |notifications|
  {
    if notifications == [] then []
    else
      var last := notifications[|notifications| - 1];
      FinishedHeights(notifications[..|notifications| - 1])
        + (if last.ChainReverted? then [] else [FinishedHeight(last.newChain.tip)])
  }

  /** A handler whose every notification sends its finished height last, if at
      all, signals exactly `FinishedHeights` over a whole stream. */
  lemma {:induction false} PlanOfSignalsHeights(notifications: seq<Notification>, handler: Notification -> seq<Action>)
    requires forall n :: EventsOf(handler(n)) == (if n.ChainReverted? then [] else [FinishedHeight(n.newChain.tip)])
    ensures EventsOf(PlanOf(notifications, handler)) == FinishedHeights(notifications)
    decreases |notifications|
  {
    if notifications != [] {
      var front := notifications[..|notifications| - 1];
      PlanOfSignalsHeights(front, handler);
      EventsOfAppend(PlanOf(front, handler), handler(notifications[|notifications| - 1]));
    }
  }

  /** `ctx.events.send(event)?`. */
  method SendEvent(events: Sender<ExExEvent>, tx: Sender<StateDiffOp>, event: ExExEvent) returns (r: Result<(), ExExError>)
    modifies events
    ensures Trace(Outputs(tx.delivered, events.delivered), r)
            == Execute([EventSend(event)], Outputs(old(tx.delivered), old(events.delivered)), Receivers(tx.dropAfter, events.dropAfter))
  {
    var ok := events.Send(event);
    r := if ok then Ok(()) else Err(EventSendError(event));
    ExecuteOne(EventSend(event), Outputs(old(tx.delivered), old(events.delivered)), Receivers(tx.dropAfter, events.dropAfter));
  }
}
