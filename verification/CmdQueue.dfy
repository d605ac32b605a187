/**
 * vgpu/queue/cmdqueue.go: command queues and the signals that WaitForQueue blocks on.
 *
 * A queue's signals are numbered in the order they were made, and the model counts how often each
 * was closed. A second close would panic in Go.
 */
module CmdQueue {

  datatype Status = Queued | Submitted | Running | Complete | Error

  datatype Command = Command(id: string, status: Status)

  /** How often each superseded signal and the current one were closed. */
  datatype QState = QState(commands: seq<Command>, older: seq<nat>, current: nat)

  predicate Done(c: Command) { c.status == Complete || c.status == Error }

  predicate AllDone(commands: seq<Command>) { forall i | 0 <= i < |commands| :: Done(commands[i]) }

  function Closes(q: QState, gen: nat): nat
    requires gen <= |q.older|
  {
    if gen < |q.older| then q.older[gen] else q.current
  }

  // ── Each operation on one queue ──

  /** A new queue is empty, and its signal is closed at once. */
  const NEW_QUEUE := QState([], [], 1)

  function AfterEnqueue(q: QState, id: string): QState {
    var commands := q.commands + [Command(id, Queued)];
    if q.current > 0 then QState(commands, q.older + [q.current], 0) else q.(commands := commands)
  }

  function Completed(commands: seq<Command>, id: string): (r: seq<Command>)
    ensures |r| == |commands|
  {
    seq(|commands|, i requires 0 <= i < |commands| =>
      if commands[i].id == id then commands[i].(status := Complete) else commands[i])
  }

  function AfterMarkComplete(q: QState, id: string): QState {
    var commands := Completed(q.commands, id);
    q.(commands := commands, current := if AllDone(commands) && q.current == 0 then q.current + 1 else q.current)
  }

  predicate DoneStatus(status: Status) { status == Complete || status == Error }

  /** The first command with the id, or the number of commands. */
  function FindCommand(commands: seq<Command>, id: string): (i: nat)
    ensures i <= |commands| && (i < |commands| ==> commands[i].id == id)
    ensures forall j | 0 <= j < i :: commands[j].id != id
  {
    if commands == [] || commands[0].id == id then 0 else 1 + FindCommand(commands[1..], id)
  }

  predicate HasCommand(q: QState, id: string) { FindCommand(q.commands, id) < |q.commands| }

  /** UpdateStatus on a command of this queue; it never looks at the signal. */
  function AfterUpdateStatus(q: QState, i: nat, status: Status): QState
    requires i < |q.commands|
  {
    q.(commands := q.commands[i := q.commands[i].(status := status)])
  }

  /** What UpdateStatus leaves of a queue it looks into. */
  function UpdatedQueue(q: QState, id: string, status: Status): QState {
    if HasCommand(q, id) then AfterUpdateStatus(q, FindCommand(q.commands, id), status) else q
  }

  // ── Queues and waiters as one system ──

  /** A WaitForQueue call that holds signal `gen`; `before` counts the commands enqueued when it took it. */
  datatype Waiter = Waiter(queue: string, gen: nat, before: nat, returned: bool)

  datatype Sys = Sys(queues: map<string, QState>, waiters: seq<Waiter>)

  datatype Op =
    | Enqueue(queue: string, id: string)
    | MarkComplete(queue: string, id: string)
    | UpdateStatus(queue: string, id: string, status: Status)
    | TakeSignal(queue: string)
    | Receive(waiter: nat)

  /** GetOrCreate. */
  function QueueOf(queues: map<string, QState>, id: string): QState {
    if id in queues then queues[id] else NEW_QUEUE
  }

  /** UpdateStatus looks through the queues in map order; `queue` is one it may stop at. */
  predicate MayStopAt(queues: map<string, QState>, queue: string, id: string) {
    queue in queues && HasCommand(queues[queue], id)
  }

  function Updated(queues: map<string, QState>, queue: string, id: string, status: Status): map<string, QState>
    requires MayStopAt(queues, queue, id)
  {
    queues[queue := UpdatedQueue(queues[queue], id, status)]
  }

  function Step(s: Sys, op: Op): Sys {
    match op
    case Enqueue(queue, id) => s.(queues := s.queues[queue := AfterEnqueue(QueueOf(s.queues, queue), id)])
    case MarkComplete(queue, id) =>
      if queue in s.queues then s.(queues := s.queues[queue := AfterMarkComplete(s.queues[queue], id)]) else s
    case UpdateStatus(queue, id, status) =>
      if MayStopAt(s.queues, queue, id) then s.(queues := Updated(s.queues, queue, id, status)) else s
    case TakeSignal(queue) =>
      var q := QueueOf(s.queues, queue);
      Sys(s.queues[queue := q], s.waiters + [Waiter(queue, |q.older|, |q.commands|, false)])
    case Receive(w) =>
      if w < |s.waiters| && CanReceive(s, s.waiters[w])
      then s.(waiters := s.waiters[w := s.waiters[w].(returned := true)])
      else s
  }

  /** Receiving from a closed channel never blocks; from an open one it does. */
  predicate CanReceive(s: Sys, w: Waiter) {
    w.queue in s.queues && w.gen <= |s.queues[w.queue].older| && Closes(s.queues[w.queue], w.gen) > 0
  }

  function Run(s: Sys, ops: seq<Op>): Sys
    decreases |ops|
  {
    if ops == [] then s else Run(Step(s, ops[0]), ops[1..])
  }

  /** A run is its operations one after another. */
  lemma {:induction false} RunOneMore(s: Sys, ops: seq<Op>, op: Op)
    ensures Run(s, []) == s && Run(s, ops + [op]) == Step(Run(s, ops), op)
    decreases |ops|
  {
    if ops == [] {
      assert ops + [op] == [op] && [op][1..] == [];
    } else {
      assert (ops + [op])[0] == ops[0] && (ops + [op])[1..] == ops[1..] + [op];
      RunOneMore(Step(s, ops[0]), ops[1..], op);
    }
  }

  const START := Sys(map[], [])

  // ── The invariant ──

  /** The current signal is closed exactly when nothing is pending, older ones are closed, none twice. */
  ghost predicate SignalsRight(q: QState) {
    && (forall gen | 0 <= gen < |q.older| :: q.older[gen] == 1)
    && q.current == if AllDone(q.commands) then 1 else 0
  }

  /** A waiter's signal exists, and once it is closed what the waiter waits for is done. */
  ghost predicate WaiterRight(queues: map<string, QState>, w: Waiter) {
    && w.queue in queues && w.gen <= |queues[w.queue].older| && w.before <= |queues[w.queue].commands|
    && (Closes(queues[w.queue], w.gen) > 0 ==> AllDone(queues[w.queue].commands[..w.before]))
    && (w.returned ==> Closes(queues[w.queue], w.gen) > 0)
  }

  ghost predicate Inv(s: Sys) {
    && (forall id <- s.queues :: SignalsRight(s.queues[id]))
    && (forall i | 0 <= i < |s.waiters| :: WaiterRight(s.queues, s.waiters[i]))
  }

  /** What no step on a queue undoes: commands, done or not, stay in place, and signals stay closed. */
  ghost predicate Grows(q: QState, r: QState) {
    && |q.commands| <= |r.commands| && |q.older| <= |r.older|
    && (forall i | 0 <= i < |q.commands| :: Done(q.commands[i]) ==> Done(r.commands[i]))
    && (forall gen | 0 <= gen <= |q.older| :: Closes(q, gen) <= Closes(r, gen))
    && (forall gen | 0 <= gen <= |q.older| :: Closes(q, gen) < Closes(r, gen) ==> AllDone(r.commands))
  }

  lemma {:induction false} EnqueueRight(q: QState, id: string)
    requires SignalsRight(q)
    ensures SignalsRight(AfterEnqueue(q, id)) && Grows(q, AfterEnqueue(q, id))
  {
    var r := AfterEnqueue(q, id);
    assert !Done(r.commands[|q.commands|]);
  }

  lemma {:induction false} MarkCompleteRight(q: QState, id: string)
    requires SignalsRight(q)
    ensures SignalsRight(AfterMarkComplete(q, id)) && Grows(q, AfterMarkComplete(q, id))
  {
    var r := AfterMarkComplete(q, id);
    if AllDone(q.commands) {
      assert AllDone(r.commands);
    }
  }

  lemma {:induction false} WaiterStaysRight(queues: map<string, QState>, w: Waiter, id: string, r: QState)
    requires WaiterRight(queues, w) && id in queues && Grows(queues[id], r)
    ensures WaiterRight(queues[id := r], w)
  {
    if w.queue == id && Closes(queues[id], w.gen) > 0 {
      forall i | 0 <= i < w.before ensures Done(r.commands[i]) {
        assert Done(queues[id].commands[..w.before][i]);
      }
    }
  }

  lemma {:induction false} QueueStepKeeps(s: Sys, id: string, r: QState)
    requires Inv(s) && SignalsRight(r) && Grows(QueueOf(s.queues, id), r)
    ensures Inv(s.(queues := s.queues[id := r]))
  {
    var after := s.(queues := s.queues[id := r]);
    forall i | 0 <= i < |s.waiters| ensures WaiterRight(after.queues, s.waiters[i]) {
      if id in s.queues { WaiterStaysRight(s.queues, s.waiters[i], id, r); }
    }
  }

  lemma {:induction false} StepKeeps(s: Sys, op: Op)
    requires Inv(s) && !op.UpdateStatus?
    ensures Inv(Step(s, op))
  {
    assert SignalsRight(NEW_QUEUE);
    match op
    case Enqueue(queue, id) =>
      EnqueueRight(QueueOf(s.queues, queue), id);
      QueueStepKeeps(s, queue, AfterEnqueue(QueueOf(s.queues, queue), id));
    case MarkComplete(queue, id) =>
      if queue in s.queues {
        MarkCompleteRight(s.queues[queue], id);
        QueueStepKeeps(s, queue, AfterMarkComplete(s.queues[queue], id));
      }
    case TakeSignal(queue) =>
      QueueStepKeeps(s, queue, QueueOf(s.queues, queue));
    case Receive(w) =>
  }

  // ── Status updates, which bypass the signal ──

  /** The update neither completes the last pending command nor makes the first one pending. */
  ghost predicate KeepsSignal(q: QState, i: nat, status: Status)
    requires i < |q.commands|
  {
    DoneStatus(status) == Done(q.commands[i]) || exists j | 0 <= j < |q.commands| :: j != i && !Done(q.commands[j])
  }

  /** An update of one command keeps the signal right exactly if, before it, this holds. */
  lemma {:induction false} UpdateStatusRightIff(q: QState, i: nat, status: Status)
    requires SignalsRight(q) && i < |q.commands|
    ensures SignalsRight(AfterUpdateStatus(q, i, status)) <==> KeepsSignal(q, i, status)
  {
    var r := AfterUpdateStatus(q, i, status);
    assert Done(r.commands[i]) == DoneStatus(status);
    assert forall j | 0 <= j < |q.commands| && j != i :: r.commands[j] == q.commands[j];
  }

  /** Completing the last pending command leaves the signal open with nothing pending, until some MarkComplete. */
  lemma {:induction false} UpdateStatusStrands(q: QState, i: nat, status: Status, id: string)
    requires SignalsRight(q) && i < |q.commands| && !Done(q.commands[i]) && DoneStatus(status)
    requires forall j | 0 <= j < |q.commands| && j != i :: Done(q.commands[j])
    ensures var r := AfterUpdateStatus(q, i, status);
            AllDone(r.commands) && r.current == 0 && AfterMarkComplete(r, id).current == 1
  {
    var r := AfterUpdateStatus(q, i, status);
    assert !AllDone(q.commands);
    assert AllDone(r.commands);
    assert AllDone(AfterMarkComplete(r, id).commands);
  }

  /** The update does not reopen a command that a waiter with a closed signal counts on. */
  ghost predicate KeepsPromises(s: Sys, queue: string, i: nat, status: Status)
    requires queue in s.queues && i < |s.queues[queue].commands|
  {
    Done(s.queues[queue].commands[i]) && !DoneStatus(status) ==>
      forall k | 0 <= k < |s.waiters| && s.waiters[k].queue == queue && CanReceive(s, s.waiters[k]) ::
        s.waiters[k].before <= i
  }

  /** What a caller of UpdateStatus can look up before the call. */
  ghost predicate UpdateGuard(s: Sys, queue: string, id: string, status: Status)
    requires MayStopAt(s.queues, queue, id)
  {
    var q := s.queues[queue];
    var i := FindCommand(q.commands, id);
    KeepsSignal(q, i, status) && KeepsPromises(s, queue, i, status)
  }

  /** One waiter under an update of command `i`. */
  lemma {:induction false} WaiterUnderUpdate(s: Sys, queue: string, i: nat, status: Status, w: Waiter)
    requires queue in s.queues && i < |s.queues[queue].commands| && WaiterRight(s.queues, w)
    ensures var after := s.queues[queue := AfterUpdateStatus(s.queues[queue], i, status)];
      WaiterRight(after, w) <==>
        (Done(s.queues[queue].commands[i]) && !DoneStatus(status) && w.queue == queue && CanReceive(s, w)
         ==> w.before <= i)
  {
    var q := s.queues[queue];
    var r := AfterUpdateStatus(q, i, status);
    if w.queue == queue && Closes(q, w.gen) > 0 {
      forall j | 0 <= j < w.before ensures Done(q.commands[j]) { assert Done(q.commands[..w.before][j]); }
      if i < w.before {
        assert r.commands[..w.before][i] == r.commands[i];
      }
      forall j | 0 <= j < w.before && j != i ensures Done(r.commands[..w.before][j]) {}
    }
  }

  /** An update keeps the whole invariant exactly under its guard. */
  lemma {:induction false} UpdateKeepsIff(s: Sys, queue: string, id: string, status: Status)
    requires Inv(s) && MayStopAt(s.queues, queue, id)
    ensures Inv(Step(s, UpdateStatus(queue, id, status))) <==> UpdateGuard(s, queue, id, status)
  {
    var q := s.queues[queue];
    var i := FindCommand(q.commands, id);
    var after := Step(s, UpdateStatus(queue, id, status));
    UpdateStatusRightIff(q, i, status);
    assert forall other <- s.queues | other != queue :: after.queues[other] == s.queues[other];
    forall k | 0 <= k < |s.waiters|
      ensures WaiterRight(after.queues, s.waiters[k]) <==>
        (Done(q.commands[i]) && !DoneStatus(status) && s.waiters[k].queue == queue && CanReceive(s, s.waiters[k])
         ==> s.waiters[k].before <= i)
    {
      WaiterUnderUpdate(s, queue, i, status, s.waiters[k]);
    }
    if Inv(after) {
      assert SignalsRight(after.queues[queue]);
      assert forall k | 0 <= k < |s.waiters| :: WaiterRight(after.queues, s.waiters[k]);
    }
  }

  // ── Over every run ──

  ghost predicate MeetsGuard(s: Sys, op: Op) {
    op.UpdateStatus? && MayStopAt(s.queues, op.queue, op.id) ==> UpdateGuard(s, op.queue, op.id, op.status)
  }

  /** Every status update of the run meets its guard in the state it finds. */
  ghost predicate Guarded(s: Sys, ops: seq<Op>)
    decreases |ops|
  {
    ops == [] || (MeetsGuard(s, ops[0]) && Guarded(Step(s, ops[0]), ops[1..]))
  }

  /** The invariant holds all along the run. */
  ghost predicate AlwaysRight(s: Sys, ops: seq<Op>)
    decreases |ops|
  {
    Inv(s) && (ops == [] || AlwaysRight(Step(s, ops[0]), ops[1..]))
  }

  lemma {:induction false} AlwaysRightIff(s: Sys, ops: seq<Op>)
    requires Inv(s)
    ensures AlwaysRight(s, ops) <==> Guarded(s, ops)
    ensures Guarded(s, ops) ==> Inv(Run(s, ops))
    decreases |ops|
  {
    if ops != [] {
      var op := ops[0];
      if op.UpdateStatus? && MayStopAt(s.queues, op.queue, op.id) {
        UpdateKeepsIff(s, op.queue, op.id, op.status);
      } else if !op.UpdateStatus? {
        StepKeeps(s, op);
      }
      if Inv(Step(s, op)) { AlwaysRightIff(Step(s, op), ops[1..]); }
    }
  }

  ghost predicate AllSignalsRight(s: Sys) { forall id <- s.queues :: SignalsRight(s.queues[id]) }

  ghost predicate SignalsAlwaysRight(s: Sys, ops: seq<Op>)
    decreases |ops|
  {
    AllSignalsRight(s) && (ops == [] || SignalsAlwaysRight(Step(s, ops[0]), ops[1..]))
  }

  /** The part of the guard that the queue alone decides. */
  ghost predicate OpKeepsSignal(s: Sys, op: Op) {
    op.UpdateStatus? && MayStopAt(s.queues, op.queue, op.id) ==>
      KeepsSignal(s.queues[op.queue], FindCommand(s.queues[op.queue].commands, op.id), op.status)
  }

  ghost predicate SignalGuarded(s: Sys, ops: seq<Op>)
    decreases |ops|
  {
    ops == [] || (OpKeepsSignal(s, ops[0]) && SignalGuarded(Step(s, ops[0]), ops[1..]))
  }

  lemma {:induction false} StepSignalsIff(s: Sys, op: Op)
    requires AllSignalsRight(s)
    ensures AllSignalsRight(Step(s, op)) <==> OpKeepsSignal(s, op)
  {
    assert SignalsRight(NEW_QUEUE);
    var after := Step(s, op);
    match op
    case Enqueue(queue, id) => EnqueueRight(QueueOf(s.queues, queue), id);
    case MarkComplete(queue, id) => if queue in s.queues { MarkCompleteRight(s.queues[queue], id); }
    case UpdateStatus(queue, id, status) =>
      if MayStopAt(s.queues, queue, id) {
        UpdateStatusRightIff(s.queues[queue], FindCommand(s.queues[queue].commands, id), status);
        if AllSignalsRight(after) { assert SignalsRight(after.queues[queue]); }
      }
    case TakeSignal(_) =>
    case Receive(_) =>
  }

  /** Over every interleaving the signals of all queues are right all along if and only if no update completes the last
      pending command of its queue, or makes the first one pending. */
  lemma {:induction false} SignalsRightIff(s: Sys, ops: seq<Op>)
    requires AllSignalsRight(s)
    ensures SignalsAlwaysRight(s, ops) <==> SignalGuarded(s, ops)
    decreases |ops|
  {
    if ops != [] {
      StepSignalsIff(s, ops[0]);
      if AllSignalsRight(Step(s, ops[0])) { SignalsRightIff(Step(s, ops[0]), ops[1..]); }
    }
  }

  /**
   * Over every interleaving of Enqueue, MarkComplete, UpdateStatus and WaitForQueue: signals and waiters are right
   * all along the run if and only if every status update meets its guard.
   */
  lemma {:induction false} QueuesAreRightIff(ops: seq<Op>)
    ensures AlwaysRight(START, ops) <==> Guarded(START, ops)
  {
    AlwaysRightIff(START, ops);
  }

  /**
   * In particular: the current signal of each queue is closed exactly when none of its commands is pending, every
   * superseded one is closed, and none was closed twice; a waiter that has returned finds every command done that
   * was enqueued before it took its signal.
   */
  lemma {:induction false} QueuesAreSafe(ops: seq<Op>)
    requires Guarded(START, ops)
    ensures var s := Run(START, ops);
      && (forall id <- s.queues :: SignalsRight(s.queues[id]))
      && (forall i | 0 <= i < |s.waiters| && s.waiters[i].returned ::
            s.waiters[i].queue in s.queues && s.waiters[i].before <= |s.queues[s.waiters[i].queue].commands|
            && AllDone(s.queues[s.waiters[i].queue].commands[..s.waiters[i].before]))
  {
    AlwaysRightIff(START, ops);
  }

  /** Runs without status updates, and those whose updates leave pending commands pending, are guarded. */
  lemma {:induction false} ProgressIsGuarded(s: Sys, queue: string, id: string, status: Status)
    requires MayStopAt(s.queues, queue, id) && !DoneStatus(status)
    requires !Done(s.queues[queue].commands[FindCommand(s.queues[queue].commands, id)])
    ensures UpdateGuard(s, queue, id, status)
  {
  }

  /** No wake-up is lost: a waiter that still blocks holds the current signal, and a command is pending. */
  lemma {:induction false} BlockedMeansPending(ops: seq<Op>, i: nat)
    requires Guarded(START, ops)
    requires i < |Run(START, ops).waiters| && !CanReceive(Run(START, ops), Run(START, ops).waiters[i])
    ensures var s := Run(START, ops);
      var w := s.waiters[i];
      w.queue in s.queues && w.gen == |s.queues[w.queue].older| && !AllDone(s.queues[w.queue].commands)
  {
    AlwaysRightIff(START, ops);
    var s := Run(START, ops);
    assert WaiterRight(s.queues, s.waiters[i]);
  }

  /** A waiter that receives returns exactly if its signal is closed, and nothing but that changes. */
  lemma {:induction false} ReceiveIs(s: Sys, w: nat)
    requires w < |s.waiters|
    ensures var after := Step(s, Receive(w));
      && after.queues == s.queues
      && after.waiters == s.waiters[w := s.waiters[w].(returned := after.waiters[w].returned)]
      && (after.waiters[w].returned <==> s.waiters[w].returned || CanReceive(s, s.waiters[w]))
  {
  }

  // ── What a run has done to a command ──

  /** The operation completes the commands of that id in the queue, or sets one to a status that is done. */
  predicate Finishes(op: Op, queue: string, id: string) {
    || op == MarkComplete(queue, id)
    || (op.UpdateStatus? && op.queue == queue && op.id == id && (op.status == Complete || op.status == Error))
  }

  /** The queue's commands stay where they are, under their ids. */
  ghost predicate SameIds(s: Sys, after: Sys, queue: string) {
    queue in s.queues ==>
      && queue in after.queues && |s.queues[queue].commands| <= |after.queues[queue].commands|
      && forall i | 0 <= i < |s.queues[queue].commands| ::
           after.queues[queue].commands[i].id == s.queues[queue].commands[i].id
  }

  /** Command `i` of the queue is there, and it is complete or has failed. */
  predicate Finished(s: Sys, queue: string, i: nat) {
    && queue in s.queues && i < |s.queues[queue].commands|
    && (s.queues[queue].commands[i].status == Complete || s.queues[queue].commands[i].status == Error)
  }

  lemma {:induction false} StepFinishes(s: Sys, op: Op, queue: string, i: nat)
    ensures SameIds(s, Step(s, op), queue)
    ensures Finished(Step(s, op), queue, i) ==>
              Finished(s, queue, i) || Finishes(op, queue, Step(s, op).queues[queue].commands[i].id)
  {
  }

  lemma {:induction false} RunFinishes(s: Sys, ops: seq<Op>, queue: string, i: nat)
    ensures SameIds(s, Run(s, ops), queue)
    ensures Finished(Run(s, ops), queue, i) ==>
              Finished(s, queue, i)
              || exists k :: 0 <= k < |ops| && Finishes(ops[k], queue, Run(s, ops).queues[queue].commands[i].id)
    decreases |ops|
  {
    if ops != [] {
      var next, rest := Step(s, ops[0]), ops[1..];
      StepFinishes(s, ops[0], queue, i);
      RunFinishes(next, rest, queue, i);
      if Finished(Run(s, ops), queue, i) {
        var id := Run(s, ops).queues[queue].commands[i].id;
        if k :| 0 <= k < |rest| && Finishes(rest[k], queue, id) { assert Finishes(ops[k + 1], queue, id); }
        if Finished(next, queue, i) && !Finished(s, queue, i) { assert Finishes(ops[0], queue, id); }
      }
    }
  }

  /** Over every run a command is done only by an operation on its queue that names its own id. */
  lemma {:induction false} DoneByItsId(ops: seq<Op>, queue: string, i: nat)
    requires Finished(Run(START, ops), queue, i)
    ensures exists k :: 0 <= k < |ops| && Finishes(ops[k], queue, Run(START, ops).queues[queue].commands[i].id)
  {
    RunFinishes(START, ops, queue, i);
  }

  lemma {:induction false} RunSplit(s: Sys, a: seq<Op>, b: seq<Op>)
    ensures Run(s, a + b) == Run(Run(s, a), b)
    decreases |a|
  {
    if a == [] {
      assert a + b == b;
    } else {
      assert (a + b)[0] == a[0] && (a + b)[1..] == a[1..] + b;
      RunSplit(Step(s, a[0]), a[1..], b);
    }
  }

  /** Waiters are never dropped, and what they wait for never changes. */
  lemma {:induction false} WaitersStay(s: Sys, ops: seq<Op>, w: nat)
    requires w < |s.waiters|
    ensures w < |Run(s, ops).waiters|
    ensures var v := Run(s, ops).waiters[w]; v.(returned := false) == s.waiters[w].(returned := false)
    decreases |ops|
  {
    if ops != [] {
      WaitersStay(Step(s, ops[0]), ops[1..], w);
    }
  }

  /**
   * A wait on a queue that comes after the operations `a`: once it has returned, every command that was in the queue
   * when it began is complete or has failed, and each by an operation that names its own id.
   */
  lemma {:induction false} ReturnedMeansFinished(a: seq<Op>, queue: string, b: seq<Op>, i: nat)
    requires Guarded(START, a + [TakeSignal(queue)] + b)
    requires queue in Run(START, a).queues && i < |Run(START, a).queues[queue].commands|
    ensures var ops, was := a + [TakeSignal(queue)] + b, Run(START, a);
            var s, w, id := Run(START, ops), |was.waiters|, was.queues[queue].commands[i].id;
      && w < |s.waiters|
      && (s.waiters[w].returned ==>
            && Finished(s, queue, i) && s.queues[queue].commands[i].id == id
            && exists k :: 0 <= k < |ops| && Finishes(ops[k], queue, id))
  {
    var ops, was := a + [TakeSignal(queue)] + b, Run(START, a);
    var taken, w := Step(was, TakeSignal(queue)), |was.waiters|;
    RunSplit(START, a + [TakeSignal(queue)], b);
    RunOneMore(START, a, TakeSignal(queue));
    WaitersStay(taken, b, w);
    RunFinishes(taken, b, queue, i);
    var s := Run(START, ops);
    if s.waiters[w].returned {
      QueuesAreSafe(ops);
      assert Done(s.queues[queue].commands[..|was.queues[queue].commands|][i]);
      DoneByItsId(ops, queue, i);
    }
  }

  /** And over every such run a wait ends: with every command of its queue done, its next receive returns. */
  lemma {:induction false} IdleMeansReturns(ops: seq<Op>, w: nat)
    requires Guarded(START, ops) && w < |Run(START, ops).waiters|
    requires var s := Run(START, ops);
      var queue := s.waiters[w].queue;
      queue in s.queues ==> forall i | 0 <= i < |s.queues[queue].commands| :: Finished(s, queue, i)
    ensures Step(Run(START, ops), Receive(w)).waiters[w].returned
  {
    var s := Run(START, ops);
    var queue := s.waiters[w].queue;
    if queue in s.queues {
      forall i | 0 <= i < |s.queues[queue].commands| ensures Done(s.queues[queue].commands[i]) {
        assert Finished(s, queue, i);
      }
      assert AllDone(s.queues[queue].commands);
    }
    ReceiveIs(s, w);
    if !CanReceive(s, s.waiters[w]) {
      BlockedMeansPending(ops, w);
    }
  }

  // ── The manager ──

  /** A channel that is only ever closed; closing it twice would panic. */
  class Signal {
    const queue: string
    var closed: bool

    constructor (queue: string)
      ensures this.queue == queue && !closed
    {
      this.queue, closed := queue, false;
    }

    method Close()
      requires !closed
      modifies this
      ensures closed
    {
      closed := true;
    }
  }

  /** `after` is `before` with every command of that id complete and every other one as it was. */
  ghost predicate CompletedOnly(before: seq<Command>, after: seq<Command>, id: string) {
    && |after| == |before|
    && forall i | 0 <= i < |before| ::
         after[i] == if before[i].id == id then Command(id, Complete) else before[i]
  }

  lemma {:induction false} CompletedIs(commands: seq<Command>, id: string)
    ensures CompletedOnly(commands, Completed(commands, id), id)
  {
  }

  ghost predicate FirstNamed(commands: seq<Command>, id: string, i: int) {
    0 <= i < |commands| && commands[i].id == id && forall j | 0 <= j < i :: commands[j].id != id
  }

  lemma {:induction false} FirstIs(commands: seq<Command>, id: string, i: nat)
    requires i < |commands| && commands[i].id == id && forall j | 0 <= j < i :: commands[j].id != id
    ensures FindCommand(commands, id) == i
  {
  }

  class CommandQueue {
    const ID: string
    var Commands: seq<Command>
    var signal: Signal
    /** The queue with the history of its signals. */
    ghost var State: QState

    ghost predicate Valid()
      reads this, signal
    {
      && State.commands == Commands && signal.queue == ID
      && (signal.closed <==> State.current > 0)
    }

    constructor (id: string)
      ensures Valid() && ID == id && State == NEW_QUEUE && fresh(signal)
    {
      ID, Commands, State := id, [], NEW_QUEUE;
      var s := new Signal(id);
      s.Close();
      signal := s;
    }

    method Enqueue(id: string)
      requires Valid()
      modifies this
      ensures Valid() && State == AfterEnqueue(old(State), id)
      ensures Commands == old(Commands) + [Command(id, Queued)] && !signal.closed
      ensures if old(signal.closed) then fresh(signal) else signal == old(signal)
    {
      Commands := Commands + [Command(id, Queued)];
      if signal.closed {
        signal := new Signal(ID);
      }
      State := AfterEnqueue(State, id);
    }

    /** Completes every command with the id. */
    method CompleteAll(id: string)
      modifies `Commands
      ensures Commands == Completed(old(Commands), id)
      ensures CompletedOnly(old(Commands), Commands, id)
    {
      var i := 0;
      while i < |Commands|
        invariant 0 <= i <= |Commands| == |old(Commands)|
        invariant forall j | 0 <= j < |Commands| ::
                  Commands[j] == if j < i then Completed(old(Commands), id)[j] else old(Commands)[j]
      {
        if Commands[i].id == id {
          Commands := Commands[i := Commands[i].(status := Complete)];
        }
        i := i + 1;
      }
    }

    method NothingPending() returns (allDone: bool)
      ensures allDone <==> AllDone(Commands)
    {
      allDone := true;
      for j := 0 to |Commands|
        invariant allDone <==> forall k | 0 <= k < j :: Done(Commands[k])
      {
        if Commands[j].status != Complete && Commands[j].status != Error {
          allDone := false;
        }
      }
    }

    method MarkComplete(id: string)
      requires Valid()
      modifies this, signal
      ensures Valid() && State == AfterMarkComplete(old(State), id) && signal == old(signal)
      ensures CompletedOnly(old(Commands), Commands, id)
      ensures signal.closed <==> old(signal.closed) || forall c <- Commands :: c.status == Complete || c.status == Error
    {
      CompleteAll(id);
      var allDone := NothingPending();
      if allDone && !signal.closed {
        signal.Close();
      }
      State := AfterMarkComplete(State, id);
    }

    /** Sets the status of the first command with the id, if there is one. */
    method UpdateStatus(id: string, status: Status) returns (found: bool)
      requires Valid()
      modifies this
      ensures Valid() && signal == old(signal) && found == HasCommand(old(State), id)
      ensures State == UpdatedQueue(old(State), id, status)
      ensures !found ==> Commands == old(Commands) && forall c <- Commands :: c.id != id
      ensures found ==>
                exists i :: FirstNamed(old(Commands), id, i) && Commands == old(Commands)[i := Command(id, status)]
    {
      var i := 0;
      while i < |Commands|
        invariant 0 <= i <= |Commands| && Commands == old(Commands) && State == old(State) && signal == old(signal)
        invariant forall j | 0 <= j < i :: Commands[j].id != id
      {
        if Commands[i].id == id {
          FirstIs(Commands, id, i);
          assert FirstNamed(Commands, id, i);
          Commands := Commands[i := Commands[i].(status := status)];
          State := AfterUpdateStatus(State, i, status);
          return true;
        }
        i := i + 1;
      }
      return false;
    }

    /** Commands that are not done. */
    method PendingCount() returns (count: nat)
      requires Valid()
      ensures count == |Pending(State.commands)|
      ensures count == |set i | 0 <= i < |Commands| && Commands[i].status != Complete && Commands[i].status != Error|
      ensures count == 0 <==> AllDone(State.commands)
    {
      count := 0;
      for i := 0 to |Commands|
        invariant count == |Pending(Commands[..i])|
      {
        PendingStep(Commands, i);
        if Commands[i].status != Complete && Commands[i].status != Error {
          count := count + 1;
        }
      }
      assert Commands[..|Commands|] == Commands;
      NonePending(Commands);
      PendingAre(Commands, |Commands|);
    }

    /** The first half of WaitForQueue: the signal the caller then blocks on. */
    method TakeSignal() returns (sig: Signal, ghost gen: nat)
      requires Valid()
      ensures sig == signal && gen == |State.older|
      ensures sig.closed <==> Closes(State, gen) > 0
    {
      return signal, |State.older|;
    }
  }

  function Pending(commands: seq<Command>): seq<Command> {
    if commands == [] then []
    else
      var last := commands[|commands| - 1];
      Pending(commands[..|commands| - 1]) + if Done(last) then [] else [last]
  }

  lemma {:induction false} PendingStep(commands: seq<Command>, i: nat)
    requires i < |commands|
    ensures Pending(commands[..i + 1]) == Pending(commands[..i]) + if Done(commands[i]) then [] else [commands[i]]
  {
    assert commands[..i + 1][..i] == commands[..i];
  }

  lemma {:induction false} PendingAre(commands: seq<Command>, n: nat)
    requires n <= |commands|
    ensures |Pending(commands[..n])|
         == |set i | 0 <= i < n && commands[i].status != Complete && commands[i].status != Error|
  {
    if n > 0 {
      PendingAre(commands, n - 1);
      PendingStep(commands, n - 1);
      var fewer := set i | 0 <= i < n - 1 && commands[i].status != Complete && commands[i].status != Error;
      var all := set i | 0 <= i < n && commands[i].status != Complete && commands[i].status != Error;
      assert all == if Done(commands[n - 1]) then fewer else fewer + {n - 1};
    }
  }

  lemma {:induction false} NonePending(commands: seq<Command>)
    ensures Pending(commands) == [] <==> AllDone(commands)
    decreases |commands|
  {
    if commands != [] {
      var n := |commands| - 1;
      NonePending(commands[..n]);
      assert commands == commands[..n] + [commands[n]];
    }
  }

  lemma {:induction false} EnqueueStep(states: map<string, QState>, queue: string, id: string)
    ensures Step(Sys(states, []), Op.Enqueue(queue, id)).queues
         == states[queue := QueueOf(states, queue)][queue := AfterEnqueue(QueueOf(states, queue), id)]
  {
  }

  class CommandQueueManager {
    var Queues: map<string, CommandQueue>
    ghost var States: map<string, QState>
    ghost var Repr: set<object>

    ghost predicate Valid()
      reads this, Repr
    {
      && this in Repr && Queues.Keys == States.Keys
      && (forall id <- Queues :: Queues[id] in Repr && Queues[id].signal in Repr)
      && (forall id <- Queues :: Queues[id].ID == id && Queues[id].Valid() && Queues[id].State == States[id])
    }

    constructor ()
      ensures Valid() && States == START.queues && fresh(Repr)
    {
      Queues, States, Repr := map[], map[], {this};
    }

    method GetOrCreate(queueID: string) returns (q: CommandQueue)
      requires Valid()
      modifies this
      ensures Valid() && fresh(Repr - old(Repr))
      ensures queueID in Queues && Queues[queueID] == q
      ensures States == old(States)[queueID := QueueOf(old(States), queueID)]
    {
      if queueID in Queues {
        q := Queues[queueID];
      } else {
        q := new CommandQueue(queueID);
        Install(q);
      }
    }

    method Install(q: CommandQueue)
      requires Valid() && q.Valid() && q.State == NEW_QUEUE && q.ID !in Queues && q !in Repr
      modifies this
      ensures Valid() && Repr == old(Repr) + {q, q.signal}
      ensures Queues == old(Queues)[q.ID := q] && States == old(States)[q.ID := NEW_QUEUE]
    {
      Repr := Repr + {q, q.signal};
      Queues, States := Queues[q.ID := q], States[q.ID := NEW_QUEUE];
    }

    method Enqueue(queueID: string, id: string)
      requires Valid()
      modifies Repr
      ensures Valid() && fresh(Repr - old(Repr))
      ensures States == Step(Sys(old(States), []), Op.Enqueue(queueID, id)).queues
    {
      EnqueueStep(States, queueID, id);
      var q := GetOrCreate(queueID);
      Append(q, id);
    }

    /** The rest of Enqueue, on a queue of this manager. */
    method Append(q: CommandQueue, id: string)
      requires Valid() && q.ID in Queues && Queues[q.ID] == q
      modifies this, q
      ensures Valid() && fresh(Repr - old(Repr))
      ensures States == old(States)[q.ID := AfterEnqueue(old(States[q.ID]), id)]
    {
      q.Enqueue(id);
      States := States[q.ID := q.State];
      Repr := Repr + {q.signal};
    }

    method MarkComplete(queueID: string, id: string)
      requires Valid()
      modifies Repr
      ensures Valid() && Repr == old(Repr)
      ensures States == Step(Sys(old(States), []), Op.MarkComplete(queueID, id)).queues
      ensures States.Keys == old(States).Keys
      ensures queueID in States ==> CompletedOnly(old(States)[queueID].commands, States[queueID].commands, id)
      ensures forall other <- States | other != queueID :: States[other] == old(States)[other]
    {
      if queueID in Queues {
        CompletedIs(States[queueID].commands, id);
        CompleteIn(queueID, id);
      }
    }

    method CompleteIn(queue: string, id: string)
      requires Valid() && queue in Queues
      modifies Repr
      ensures Valid() && Repr == old(Repr)
      ensures States == old(States)[queue := AfterMarkComplete(old(States)[queue], id)]
    {
      Queues[queue].MarkComplete(id);
      States := States[queue := Queues[queue].State];
    }

    /** Looks through the queues in any order and stops at the first that has the command. */
    method UpdateStatus(id: string, status: Status) returns (found: bool)
      requires Valid()
      modifies Repr
      ensures Valid() && Repr == old(Repr)
      ensures found <==> exists queue :: MayStopAt(old(States), queue, id)
      ensures !found ==> States == old(States)
      ensures found ==>
                exists queue :: MayStopAt(old(States), queue, id) && States == Updated(old(States), queue, id, status)
    {
      ghost var was, at := States, "";
      var todo := Queues.Keys;
      found := false;
      while todo != {} && !found
        invariant todo <= Queues.Keys && Valid() && Repr == old(Repr) && Queues == old(Queues)
        invariant found ==> MayStopAt(was, at, id) && States == Updated(was, at, id, status)
        invariant !found ==> States == was && forall queue <- was | queue !in todo :: !HasCommand(was[queue], id)
        decreases todo, !found
      {
        var queue :| queue in todo;
        todo := todo - {queue};
        at := queue;
        found := UpdateIn(queue, id, status);
      }
    }

    method UpdateIn(queue: string, id: string, status: Status) returns (found: bool)
      requires Valid() && queue in Queues
      modifies Repr
      ensures Valid() && Repr == old(Repr) && Queues == old(Queues)
      ensures found == HasCommand(old(States)[queue], id)
      ensures States == old(States)[queue := UpdatedQueue(old(States)[queue], id, status)]
      ensures !found ==> States == old(States)
    {
      found := Queues[queue].UpdateStatus(id, status);
      States := States[queue := Queues[queue].State];
    }

    method PendingCount(queueID: string) returns (count: nat)
      requires Valid()
      ensures count == if queueID in States then |Pending(States[queueID].commands)| else 0
    {
      if queueID !in Queues {
        return 0;
      }
      count := Queues[queueID].PendingCount();
    }

    /** The part of WaitForQueue before the receive. */
    method TakeSignal(queueID: string) returns (sig: Signal, ghost gen: nat)
      requires Valid()
      modifies this
      ensures Valid() && fresh(Repr - old(Repr))
      ensures States == Step(Sys(old(States), []), Op.TakeSignal(queueID)).queues
      ensures gen == |States[queueID].older| && (sig.closed <==> Closes(States[queueID], gen) > 0)
    {
      var q := GetOrCreate(queueID);
      sig, gen := q.TakeSignal();
    }
  }
}
