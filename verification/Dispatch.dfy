/**
 * vgpu/server/ipc_server.go: dispatchViaGRPC as steps of the dispatching goroutine, of one waiting
 * goroutine a subtask, and of the workers' streams, in any order.
 */
module Dispatch {
  import opened Common
  import opened Session
  import Decimal
  import DnsMessage

  /** The subtasks' workers in order, and the ids of the input buffers. */
  datatype Plan = Plan(taskID: Bytes, workers: seq<string>, inputs: seq<string>)

  /** fmt.Sprintf("%s-%d", taskID, i). */
  function SubId(p: Plan, i: nat): Bytes { p.taskID + (DnsMessage.Ascii("-") + Decimal.Print(i)) }

  lemma {:induction false} SubIdInjective(p: Plan, i: nat, j: nat)
    requires SubId(p, i) == SubId(p, j)
    ensures i == j
  {
    var n := |p.taskID|;
    assert Decimal.Print(i) == SubId(p, i)[n + 1..] && Decimal.Print(j) == SubId(p, j)[n + 1..];
    Decimal.PrintInjective(i, j);
  }

  /** Where a subtask stands. `Returned` is a finished WaitForTaskResult that has not sent its entry yet. */
  datatype Phase = Pending | Assigned | Waiting | Returned(result: Option<TaskResult>) | Sent

  /** What a subtask puts in the result channel; no result stands for an error. */
  datatype Entry = Entry(sub: nat, result: Option<TaskResult>)

  /** `delivered` remembers the results that arrived, and on whose stream. */
  datatype DState = DState(sessions: map<string, SView>, next: nat, phases: seq<Phase>, resultCh: seq<Entry>,
                           collected: seq<Entry>, timedOut: bool, delivered: set<(string, TaskResult)>)

  datatype Op =
    | AssignNext
    | Register(i: nat)
    | TakeResult(i: nat)
    | GiveUp(i: nat)
    | Put(i: nat)
    | Collect
    | Deliver(worker: string, result: TaskResult)
    | Expire
    | Connect(worker: string, up: bool)
    | SendNext(worker: string)
    | OtherMessage(worker: string, msg: Message)

  // ── Steps ──

  predicate PhaseIs(d: DState, i: nat, phase: Phase) { i < |d.phases| && d.phases[i] == phase }

  /** Whether a step can happen; a channel send or receive that cannot proceed blocks. */
  predicate Enabled(p: Plan, d: DState, op: Op) {
    match op
    case AssignNext => d.next < |p.workers| == |d.phases| && (Accepts(p, d) || |d.resultCh| < |p.workers|)
    case Register(i) => PhaseIs(d, i, Assigned) && i < |p.workers|
    case TakeResult(i) => PhaseIs(d, i, Waiting) && i < |p.workers| && Slot(p, d, i).Some?
    case GiveUp(i) => PhaseIs(d, i, Waiting) && i < |p.workers| && d.timedOut
    case Put(i) => i < |d.phases| && d.phases[i].Returned? && |d.resultCh| < |p.workers|
    case Collect => d.next == |p.workers| && d.resultCh != []
    case Deliver(w, _) => w in d.sessions
    case Expire => true
    case Connect(w, _) => w in d.sessions
    case SendNext(w) => w in d.sessions && d.sessions[w].sendCh != []
    case OtherMessage(w, _) => w in d.sessions
  }

  /** AssignTask takes the next subtask. */
  predicate Accepts(p: Plan, d: DState) {
    d.next < |p.workers| && p.workers[d.next] in d.sessions && CanSend(d.sessions[p.workers[d.next]])
  }

  function Slot(p: Plan, d: DState, i: nat): Option<TaskResult>
    requires i < |p.workers|
  {
    var w := p.workers[i];
    if w in d.sessions && SubId(p, i) in d.sessions[w].waiting then d.sessions[w].waiting[SubId(p, i)] else None
  }

  function Step(p: Plan, d: DState, op: Op): DState {
    if !Enabled(p, d, op) then d
    else
      match op
      case AssignNext =>
        var i, w := d.next, p.workers[d.next];
        var sessions :=
          if w in d.sessions then d.sessions[w := AfterAssign(d.sessions[w], SubId(p, i), p.inputs)] else d.sessions;
        if Accepts(p, d)
        then d.(sessions := sessions, next := i + 1, phases := d.phases[i := Assigned])
        else
          d.(sessions := sessions, next := i + 1, phases := d.phases[i := Sent],
             resultCh := d.resultCh + [Entry(i, None)])
      case Register(i) =>
        var w := p.workers[i];
        if w !in d.sessions then d.(phases := d.phases[i := Returned(None)])
        else
          d.(sessions := d.sessions[w := AfterRegister(d.sessions[w], SubId(p, i))],
             phases := d.phases[i := Waiting])
      case TakeResult(i) => Unregistered(p, d, i, Slot(p, d, i))
      case GiveUp(i) => Unregistered(p, d, i, None)
      case Put(i) => d.(phases := d.phases[i := Sent], resultCh := d.resultCh + [Entry(i, d.phases[i].result)])
      case Collect => d.(resultCh := d.resultCh[1..], collected := d.collected + [d.resultCh[0]])
      case Deliver(w, r) =>
        d.(sessions := d.sessions[w := AfterResult(d.sessions[w], r)], delivered := d.delivered + {(w, r)})
      case Expire => d.(timedOut := true)
      case Connect(w, up) => d.(sessions := d.sessions[w := d.sessions[w].(connected := up)])
      case SendNext(w) => d.(sessions := d.sessions[w := d.sessions[w].(sendCh := d.sessions[w].sendCh[1..])])
      case OtherMessage(w, msg) => d.(sessions := d.sessions[w := AfterSend(d.sessions[w], msg)])
  }

  /** WaitForTaskResult returns, taking its channel out of the session. */
  function Unregistered(p: Plan, d: DState, i: nat, result: Option<TaskResult>): DState
    requires i < |p.workers| && i < |d.phases|
  {
    var w := p.workers[i];
    var sessions :=
      if w in d.sessions then d.sessions[w := AfterUnregister(d.sessions[w], SubId(p, i))] else d.sessions;
    d.(sessions := sessions, phases := d.phases[i := Returned(result)])
  }

  function Run(p: Plan, d: DState, ops: seq<Op>): DState
    decreases |ops|
  {
    if ops == [] then d else Run(p, Step(p, d, ops[0]), ops[1..])
  }

  /** A run is its operations one after another. */
  lemma {:induction false} RunOneMore(p: Plan, d: DState, ops: seq<Op>, op: Op)
    ensures Run(p, d, []) == d && Run(p, d, ops + [op]) == Step(p, Run(p, d, ops), op)
    decreases |ops|
  {
    if ops == [] {
      assert ops + [op] == [op] && [op][1..] == [];
    } else {
      assert (ops + [op])[0] == ops[0] && (ops + [op])[1..] == ops[1..] + [op];
      RunOneMore(p, Step(p, d, ops[0]), ops[1..], op);
    }
  }

  function Start(p: Plan, sessions: map<string, SView>): DState {
    DState(sessions, 0, seq(|p.workers|, _ => Pending), [], [], false, {})
  }

  /** The wait times out by the expiry of its context only. */
  lemma {:induction false} TimedOutIff(p: Plan, d: DState, ops: seq<Op>)
    ensures Run(p, d, ops).timedOut <==> d.timedOut || Expire in ops
    decreases |ops|
  {
    if ops != [] {
      TimedOutIff(p, Step(p, d, ops[0]), ops[1..]);
      assert ops == [ops[0]] + ops[1..];
    }
  }

  /** Task ids are new, so no session waits for one yet. */
  ghost predicate NewTask(p: Plan, sessions: map<string, SView>) {
    forall w <- sessions, i: nat | i < |p.workers| :: SubId(p, i) !in sessions[w].waiting
  }

  // ── The invariant ──

  function Log(d: DState): seq<Entry> { d.collected + d.resultCh }

  function SentCount(phases: seq<Phase>): nat {
    if phases == [] then 0 else SentCount(phases[..|phases| - 1]) + if phases[|phases| - 1] == Sent then 1 else 0
  }

  /** A result that came on the subtask's own stream and carries its id. */
  predicate Answers(p: Plan, delivered: set<(string, TaskResult)>, i: nat, r: TaskResult) {
    i < |p.workers| && r.taskId == SubId(p, i) && (p.workers[i], r) in delivered
  }

  ghost predicate PhaseRight(p: Plan, d: DState, i: nat)
    requires i < |p.workers| == |d.phases|
  {
    var w := p.workers[i];
    && (d.phases[i] == Pending <==> i >= d.next)
    && (d.phases[i] == Waiting <==> w in d.sessions && SubId(p, i) in d.sessions[w].waiting)
    && (Slot(p, d, i).Some? ==> Answers(p, d.delivered, i, Slot(p, d, i).value))
    && (d.phases[i].Returned? && d.phases[i].result.Some? ==> Answers(p, d.delivered, i, d.phases[i].result.value))
  }

  ghost predicate EntryRight(p: Plan, d: DState, e: Entry) {
    && e.sub < |p.workers| == |d.phases| && d.phases[e.sub] == Sent
    && (e.result.Some? ==> Answers(p, d.delivered, e.sub, e.result.value))
  }

  /** No subtask has two entries. */
  ghost predicate OneEach(log: seq<Entry>) { forall j, k | 0 <= j < k < |log| :: log[j].sub != log[k].sub }

  ghost predicate Inv(p: Plan, d: DState) {
    && |d.phases| == |p.workers| && d.next <= |p.workers|
    && (forall i | 0 <= i < |p.workers| :: PhaseRight(p, d, i))
    && (forall j | 0 <= j < |Log(d)| :: EntryRight(p, d, Log(d)[j]))
    && OneEach(Log(d))
    && |Log(d)| == SentCount(d.phases)
  }

  lemma {:induction false} SentCountStep(phases: seq<Phase>, i: nat, phase: Phase)
    requires i < |phases|
    ensures SentCount(phases[i := phase])
         == SentCount(phases) - (if phases[i] == Sent then 1 else 0) + if phase == Sent then 1 else 0
    decreases |phases|
  {
    var n := |phases| - 1;
    if i < n {
      SentCountStep(phases[..n], i, phase);
      assert phases[i := phase][..n] == phases[..n][i := phase];
    } else {
      assert phases[i := phase][..n] == phases[..n];
    }
  }

  lemma {:induction false} SentCountBound(phases: seq<Phase>, i: nat)
    ensures SentCount(phases) <= |phases|
    ensures i < |phases| && phases[i] != Sent ==> SentCount(phases) < |phases|
    decreases |phases|
  {
    if phases != [] { SentCountBound(phases[..|phases| - 1], i); }
  }

  lemma {:induction false} StartInv(p: Plan, sessions: map<string, SView>)
    requires NewTask(p, sessions)
    ensures Inv(p, Start(p, sessions))
  {
    NoneSent(|p.workers|);
  }

  lemma {:induction false} NoneSent(n: nat)
    ensures SentCount(seq(n, _ => Pending)) == 0
  {
    if n > 0 {
      NoneSent(n - 1);
      assert seq(n, _ => Pending)[..n - 1] == seq(n - 1, _ => Pending);
    }
  }

  /** Steps of a waiting goroutine. */
  predicate ByWaiter(op: Op) { op.Register? || op.TakeResult? || op.GiveUp? }

  /** The subtask has a channel in its worker's session. */
  predicate Registered(p: Plan, d: DState, i: nat)
    requires i < |p.workers|
  {
    p.workers[i] in d.sessions && SubId(p, i) in d.sessions[p.workers[i]].waiting
  }

  /** What one step does to the channel of one subtask. */
  lemma {:induction false} WaitStep(p: Plan, d: DState, op: Op, i: nat)
    requires i < |p.workers| == |d.phases| && Enabled(p, d, op)
    ensures Registered(p, Step(p, d, op), i) ==
      if op == Register(i) then p.workers[i] in d.sessions
      else op != TakeResult(i) && op != GiveUp(i) && Registered(p, d, i)
    ensures Slot(p, Step(p, d, op), i) ==
      if op == Register(i) || op == TakeResult(i) || op == GiveUp(i) then None
      else if op.Deliver? && op.worker == p.workers[i] && op.result.taskId == SubId(p, i)
              && Registered(p, d, i) && Slot(p, d, i) == None
      then Some(op.result)
      else Slot(p, d, i)
  {
    if ByWaiter(op) && SubId(p, op.i) == SubId(p, i) { SubIdInjective(p, op.i, i); }
  }

  /** What one step does to the phase of one subtask. */
  lemma {:induction false} PhaseStep(p: Plan, d: DState, op: Op, i: nat)
    requires i < |p.workers| == |d.phases| && Enabled(p, d, op)
    ensures |Step(p, d, op).phases| == |d.phases|
    ensures Step(p, d, op).phases[i] ==
      if op.AssignNext? && i == d.next then if Accepts(p, d) then Assigned else Sent
      else if op == Register(i) then if p.workers[i] in d.sessions then Waiting else Returned(None)
      else if op == TakeResult(i) then Returned(Slot(p, d, i))
      else if op == GiveUp(i) then Returned(None)
      else if op == Put(i) then Sent
      else d.phases[i]
  {
  }

  lemma {:induction false} PhaseKept(p: Plan, d: DState, op: Op, i: nat)
    requires Inv(p, d) && Enabled(p, d, op) && i < |p.workers|
    ensures |Step(p, d, op).phases| == |p.workers| && PhaseRight(p, Step(p, d, op), i)
  {
    assert PhaseRight(p, d, i);
    WaitStep(p, d, op, i);
    PhaseStep(p, d, op, i);
  }

  lemma {:induction false} LogStep(p: Plan, d: DState, op: Op)
    ensures Log(Step(p, d, op)) ==
      if !Enabled(p, d, op) then Log(d)
      else if op.AssignNext? && !Accepts(p, d) then Log(d) + [Entry(d.next, None)]
      else if op.Put? then Log(d) + [Entry(op.i, d.phases[op.i].result)]
      else Log(d)
  {
    if Enabled(p, d, op) && op.Collect? {
      assert d.collected + [d.resultCh[0]] + d.resultCh[1..] == d.collected + d.resultCh;
    }
  }

  /** The log after a step: as before, or one entry longer for a subtask that had none. */
  lemma {:induction false} LogKept(p: Plan, d: DState, op: Op)
    requires Inv(p, d) && Enabled(p, d, op)
    ensures LogRight(p, Step(p, d, op))
  {
    var after := Step(p, d, op);
    if op.AssignNext? {
      assert PhaseRight(p, d, d.next);
      SentCountStep(d.phases, d.next, after.phases[d.next]);
      if Accepts(p, d) { SameLog(p, d, after); } else { NewEntry(p, d, after, Entry(d.next, None)); }
    } else if op.Put? {
      assert PhaseRight(p, d, op.i);
      SentCountStep(d.phases, op.i, Sent);
      NewEntry(p, d, after, Entry(op.i, d.phases[op.i].result));
    } else {
      if ByWaiter(op) { SentCountStep(d.phases, op.i, after.phases[op.i]); }
      LogStep(p, d, op);
      SameLog(p, d, after);
    }
  }

  /** The part of the invariant about entries. */
  ghost predicate LogRight(p: Plan, d: DState) {
    && |d.phases| == |p.workers|
    && (forall j | 0 <= j < |Log(d)| :: EntryRight(p, d, Log(d)[j]))
    && OneEach(Log(d)) && |Log(d)| == SentCount(d.phases)
  }

  /** A step that adds no entry and lets nothing that was sent be unsent. */
  lemma {:induction false} SameLog(p: Plan, d: DState, after: DState)
    requires Inv(p, d) && Log(after) == Log(d) && |after.phases| == |d.phases| && d.delivered <= after.delivered
    requires SentCount(after.phases) == SentCount(d.phases)
    requires forall i | 0 <= i < |d.phases| && d.phases[i] == Sent :: after.phases[i] == Sent
    ensures LogRight(p, after)
  {
    forall j | 0 <= j < |Log(after)| ensures EntryRight(p, after, Log(after)[j]) {
      assert EntryRight(p, d, Log(d)[j]);
    }
  }

  lemma {:induction false} NewEntry(p: Plan, d: DState, after: DState, e: Entry)
    requires Inv(p, d) && e.sub < |p.workers| && d.phases[e.sub] != Sent
    requires after.phases == d.phases[e.sub := Sent] && after.delivered == d.delivered
    requires after.collected == d.collected && after.resultCh == d.resultCh + [e]
    requires e.result.Some? ==> Answers(p, d.delivered, e.sub, e.result.value)
    requires SentCount(after.phases) == SentCount(d.phases) + 1
    ensures LogRight(p, after)
  {
    assert Log(after) == Log(d) + [e];
    forall j | 0 <= j < |Log(d)| ensures EntryRight(p, after, Log(d)[j]) && Log(d)[j].sub != e.sub {
      assert EntryRight(p, d, Log(d)[j]);
    }
  }

  lemma {:induction false} StepKeeps(p: Plan, d: DState, op: Op)
    requires Inv(p, d)
    ensures Inv(p, Step(p, d, op))
  {
    if Enabled(p, d, op) {
      LogKept(p, d, op);
      forall i | 0 <= i < |p.workers| ensures PhaseRight(p, Step(p, d, op), i) {
        PhaseKept(p, d, op, i);
      }
    }
  }

  lemma {:induction false} RunKeeps(p: Plan, d: DState, ops: seq<Op>)
    requires Inv(p, d)
    ensures Inv(p, Run(p, d, ops))
    decreases |ops|
  {
    if ops != [] {
      StepKeeps(p, d, ops[0]);
      RunKeeps(p, Step(p, d, ops[0]), ops[1..]);
    }
  }

  // ── One result per subtask ──

  predicate Success(e: Entry) { e.result.Some? && e.result.value.complete }

  function Successes(entries: seq<Entry>): nat {
    if entries == [] then 0 else Successes(entries[..|entries| - 1]) + if Success(entries[|entries| - 1]) then 1 else 0
  }

  function Failures(entries: seq<Entry>): nat {
    if entries == [] then 0 else Failures(entries[..|entries| - 1]) + if Success(entries[|entries| - 1]) then 0 else 1
  }

  lemma {:induction false} CountsAre(entries: seq<Entry>, n: nat)
    requires n <= |entries|
    ensures Successes(entries[..n])
         == |set j | 0 <= j < n && entries[j].result.Some? && entries[j].result.value.complete|
    ensures Successes(entries[..n]) + Failures(entries[..n]) == n
  {
    if n > 0 {
      CountsAre(entries, n - 1);
      assert entries[..n][..n - 1] == entries[..n - 1];
      var fewer := set j | 0 <= j < n - 1 && entries[j].result.Some? && entries[j].result.value.complete;
      var all := set j | 0 <= j < n && entries[j].result.Some? && entries[j].result.value.complete;
      assert all == if Success(entries[n - 1]) then fewer + {n - 1} else fewer;
    }
  }

  /** The collecting loop: a success is an entry whose result is there and COMPLETE, and any other is a failure. */
  method CountResults(entries: seq<Entry>) returns (successCount: nat, failCount: nat)
    ensures successCount == Successes(entries) && failCount == Failures(entries)
    ensures successCount
         == |set j | 0 <= j < |entries| && entries[j].result.Some? && entries[j].result.value.complete|
    ensures successCount + failCount == |entries|
  {
    successCount, failCount := 0, 0;
    for i := 0 to |entries|
      invariant successCount == Successes(entries[..i]) && failCount == Failures(entries[..i])
      invariant successCount + failCount == i
    {
      assert entries[..i + 1][..i] == entries[..i];
      if entries[i].result.None? {
        failCount := failCount + 1;
      } else if entries[i].result.value.complete {
        successCount := successCount + 1;
      } else {
        failCount := failCount + 1;
      }
    }
    assert entries[..|entries|] == entries;
    CountsAre(entries, |entries|);
  }

  /** The subtask has exactly one entry in the log. */
  ghost predicate OneEntry(log: seq<Entry>, i: nat) {
    exists j | 0 <= j < |log| :: log[j].sub == i && forall k | 0 <= k < |log| && log[k].sub == i :: k == j
  }

  /** Entries of different subtasks, as many as there are subtasks that have sent: each of those has one. */
  lemma {:induction false} SentHasEntry(log: seq<Entry>, phases: seq<Phase>, i: nat)
    requires OneEach(log) && |log| == SentCount(phases) && i < |phases| && phases[i] == Sent
    requires forall j | 0 <= j < |log| :: log[j].sub < |phases| && phases[log[j].sub] == Sent
    ensures OneEntry(log, i)
    decreases |log|
  {
    if j :| 0 <= j < |log| && log[j].sub == i {
      assert OneEntry(log, i);
    } else {
      SentCountStep(phases, i, Pending);
      FewerSent(log, phases[i := Pending]);
    }
  }

  /** Entries of different subtasks that have sent are no more than those subtasks. */
  lemma {:induction false} FewerSent(log: seq<Entry>, phases: seq<Phase>)
    requires OneEach(log)
    requires forall j | 0 <= j < |log| :: log[j].sub < |phases| && phases[log[j].sub] == Sent
    ensures |log| <= SentCount(phases)
    decreases |log|
  {
    if log != [] {
      var n := |log| - 1;
      SentCountStep(phases, log[n].sub, Pending);
      FewerSent(log[..n], phases[log[n].sub := Pending]);
    }
  }

  /**
   * In every run, however results, waiters and the timeout interleave: no subtask gets two entries and
   * each that has sent has one; a send into the result channel always finds room; and each entry with a
   * result answers one with the subtask's own id that arrived on its worker's stream.
   */
  lemma {:induction false} OneResultPerSubtask(p: Plan, sessions: map<string, SView>, ops: seq<Op>)
    requires NewTask(p, sessions)
    ensures var d := Run(p, Start(p, sessions), ops);
      && |d.phases| == |p.workers| && OneEach(Log(d))
      && (forall i | 0 <= i < |p.workers| && d.phases[i] == Sent :: OneEntry(Log(d), i))
      && (forall i | 0 <= i < |p.workers| && d.phases[i] != Sent :: |d.resultCh| < |p.workers|)
      && (forall j | 0 <= j < |Log(d)| && Log(d)[j].result.Some? ::
            Answers(p, d.delivered, Log(d)[j].sub, Log(d)[j].result.value))
  {
    StartInv(p, sessions);
    RunKeeps(p, Start(p, sessions), ops);
    var d := Run(p, Start(p, sessions), ops);
    forall j | 0 <= j < |Log(d)| ensures EntryRight(p, d, Log(d)[j]) {}
    forall i | 0 <= i < |p.workers|
      ensures d.phases[i] == Sent ==> OneEntry(Log(d), i)
      ensures d.phases[i] != Sent ==> |d.resultCh| < |p.workers|
    {
      SentCountBound(d.phases, i);
      if d.phases[i] == Sent { SentHasEntry(Log(d), d.phases, i); }
    }
  }

  /** When the loop has collected as many entries as there are subtasks, every subtask has been counted once. */
  lemma {:induction false} AllCounted(p: Plan, sessions: map<string, SView>, ops: seq<Op>)
    requires NewTask(p, sessions)
    requires |Run(p, Start(p, sessions), ops).collected| == |p.workers|
    ensures var d := Run(p, Start(p, sessions), ops);
      && |d.phases| == |p.workers| && d.resultCh == []
      && forall i | 0 <= i < |p.workers| :: d.phases[i] == Sent && OneEntry(d.collected, i)
  {
    StartInv(p, sessions);
    RunKeeps(p, Start(p, sessions), ops);
    OneResultPerSubtask(p, sessions, ops);
    var d := Run(p, Start(p, sessions), ops);
    forall i | 0 <= i < |p.workers| ensures d.phases[i] == Sent {
      SentCountBound(d.phases, i);
    }
    SentCountBound(d.phases, 0);
    assert d.resultCh == [];
    assert Log(d) == d.collected;
  }

  // ── The collecting loop ends ──

  function Weight(phase: Phase): nat {
    match phase
    case Pending => 5
    case Assigned => 4
    case Waiting => 3
    case Returned(_) => 2
    case Sent => 0
  }

  function Weights(phases: seq<Phase>): nat {
    if phases == [] then 0 else Weights(phases[..|phases| - 1]) + Weight(phases[|phases| - 1])
  }

  /** How many steps of the dispatch are left at most. */
  function Left(d: DState): nat { Weights(d.phases) + |d.resultCh| }

  /** A step of the dispatch itself, as opposed to one of the workers, the clock or other traffic. */
  predicate Inner(op: Op) { op.AssignNext? || ByWaiter(op) || op.Put? || op.Collect? }

  lemma {:induction false} WeightsStep(phases: seq<Phase>, i: nat, phase: Phase)
    requires i < |phases|
    ensures Weights(phases[i := phase]) == Weights(phases) - Weight(phases[i]) + Weight(phase)
    decreases |phases|
  {
    var n := |phases| - 1;
    if i < n {
      WeightsStep(phases[..n], i, phase);
      assert phases[i := phase][..n] == phases[..n][i := phase];
    } else {
      assert phases[i := phase][..n] == phases[..n];
    }
  }

  /** Every step of the dispatch brings the end nearer, and no other step puts it off. */
  lemma {:induction false} StepsCount(p: Plan, d: DState, op: Op)
    requires Inv(p, d) && Enabled(p, d, op)
    ensures if Inner(op) then Left(Step(p, d, op)) < Left(d) else Left(Step(p, d, op)) == Left(d)
  {
    var after := Step(p, d, op);
    if op.AssignNext? {
      assert PhaseRight(p, d, d.next);
      WeightsStep(d.phases, d.next, after.phases[d.next]);
    } else if ByWaiter(op) || op.Put? {
      WeightsStep(d.phases, op.i, after.phases[op.i]);
    }
  }

  lemma {:induction false} SomeUnsent(phases: seq<Phase>) returns (i: nat)
    requires SentCount(phases) < |phases|
    ensures i < |phases| && phases[i] != Sent
    decreases |phases|
  {
    i := |phases| - 1;
    if phases[i] == Sent { i := SomeUnsent(phases[..i]); }
  }

  /** After the timeout something can always happen until everything is collected. */
  lemma {:induction false} NeverStuck(p: Plan, d: DState) returns (op: Op)
    requires Inv(p, d) && d.timedOut && |d.collected| < |p.workers|
    ensures Inner(op) && Enabled(p, d, op)
  {
    if d.next < |p.workers| {
      assert PhaseRight(p, d, d.next);
      SentCountBound(d.phases, d.next);
      op := AssignNext;
    } else if d.resultCh != [] {
      op := Collect;
    } else {
      var i := SomeUnsent(d.phases);
      assert PhaseRight(p, d, i);
      op := match d.phases[i]
        case Assigned => Register(i)
        case Waiting => GiveUp(i)
        case _ => Put(i);
    }
  }

  /** So once the context has expired, the collecting loop ends within a bounded number of steps. */
  lemma {:induction false} LoopEnds(p: Plan, d: DState) returns (ops: seq<Op>)
    requires Inv(p, d) && d.timedOut
    ensures |ops| <= Left(d) && |Run(p, d, ops).collected| == |p.workers|
    decreases Left(d)
  {
    ops := [];
    SentCountBound(d.phases, 0);
    if |d.collected| < |p.workers| {
      var op := NeverStuck(p, d);
      StepsCount(p, d, op);
      StepKeeps(p, d, op);
      var rest := LoopEnds(p, Step(p, d, op));
      ops := [op] + rest;
      assert ops[1..] == rest;
    }
  }

  // ── Which results count ──

  /** The subtask's waiter is registered and its channel still empty. */
  predicate Awaited(p: Plan, d: DState, i: nat) { i < |p.workers| && PhaseIs(d, i, Waiting) && Slot(p, d, i) == None }

  /** A result for a subtask, on its worker's stream, changes its channel exactly if it is awaited at that moment. */
  lemma {:induction false} DeliveryCountsIff(p: Plan, d: DState, i: nat, r: TaskResult)
    requires Inv(p, d) && i < |p.workers| && r.taskId == SubId(p, i) && p.workers[i] in d.sessions
    ensures Slot(p, Step(p, d, Deliver(p.workers[i], r)), i) != Slot(p, d, i) <==> Awaited(p, d, i)
    ensures Awaited(p, d, i) ==> Slot(p, Step(p, d, Deliver(p.workers[i], r)), i) == Some(r)
  {
    assert PhaseRight(p, d, i);
  }

  /** A result that comes before its waiter has registered is dropped: the channel starts empty all the same. */
  lemma {:induction false} EarlyResultIsLost(p: Plan, d: DState, i: nat, r: TaskResult)
    requires Inv(p, d) && i < |p.workers| && d.phases[i] == Assigned && r.taskId == SubId(p, i)
    requires p.workers[i] in d.sessions
    ensures var after := Step(p, Step(p, d, Deliver(p.workers[i], r)), Register(i));
            after.phases[i] == Waiting && Slot(p, after, i) == None
  {
    DeliveryCountsIff(p, d, i, r);
  }

  /** One that comes while the waiter waits fills the channel, if it is the first. */
  lemma {:induction false} WaitedResultArrives(p: Plan, d: DState, i: nat, r: TaskResult)
    requires Inv(p, d) && i < |p.workers| && d.phases[i] == Waiting && r.taskId == SubId(p, i)
    ensures p.workers[i] in d.sessions
    ensures Slot(p, Step(p, d, Deliver(p.workers[i], r)), i) == if Slot(p, d, i).Some? then Slot(p, d, i) else Some(r)
  {
    assert PhaseRight(p, d, i);
  }

  /** The result is in the subtask's channel, or what its waiter returned, or in its entry. */
  predicate Carries(p: Plan, d: DState, i: nat, r: TaskResult) {
    i < |p.workers| && (Slot(p, d, i) == Some(r) || PhaseIs(d, i, Returned(Some(r))) || Entry(i, Some(r)) in Log(d))
  }

  /** In the run the result is delivered at a moment when its subtask awaits it. */
  predicate AwaitedIn(p: Plan, d: DState, ops: seq<Op>, i: nat, r: TaskResult)
    decreases |ops|
  {
    ops != [] && i < |p.workers|
    && ((ops[0] == Deliver(p.workers[i], r) && Awaited(p, d, i) && r.taskId == SubId(p, i))
        || AwaitedIn(p, Step(p, d, ops[0]), ops[1..], i, r))
  }

  /** Nothing new is carried except by an awaited delivery. */
  lemma {:induction false} CarriesStep(p: Plan, d: DState, op: Op, i: nat, r: TaskResult)
    requires Inv(p, d) && Carries(p, Step(p, d, op), i, r)
    ensures Carries(p, d, i, r) || (op == Deliver(p.workers[i], r) && Awaited(p, d, i) && r.taskId == SubId(p, i))
  {
    if Enabled(p, d, op) {
      assert PhaseRight(p, d, i);
      WaitStep(p, d, op, i);
      PhaseStep(p, d, op, i);
      LogStep(p, d, op);
    }
  }

  /** The subtask's waiter cannot give up: the run does not let it, or the wait does not time out. */
  predicate StaysWaiting(d: DState, ops: seq<Op>, i: nat) {
    GiveUp(i) !in ops || (!d.timedOut && Expire !in ops)
  }

  lemma {:induction false} WaitingOn(p: Plan, d: DState, ops: seq<Op>, i: nat)
    requires ops != [] && StaysWaiting(d, ops, i)
    ensures StaysWaiting(Step(p, d, ops[0]), ops[1..], i)
    ensures ops[0] != GiveUp(i) || !d.timedOut
  {
  }

  /** What is carried stays carried unless the waiter gives up. */
  lemma {:induction false} CarriedStays(p: Plan, d: DState, op: Op, i: nat, r: TaskResult)
    requires Inv(p, d) && Carries(p, d, i, r) && (op != GiveUp(i) || !d.timedOut)
    ensures Carries(p, Step(p, d, op), i, r)
  {
    if Enabled(p, d, op) {
      assert PhaseRight(p, d, i);
      WaitStep(p, d, op, i);
      PhaseStep(p, d, op, i);
      LogStep(p, d, op);
    }
  }

  lemma {:induction false} CarriedWasAwaited(p: Plan, d: DState, ops: seq<Op>, i: nat, r: TaskResult)
    requires Inv(p, d) && Carries(p, Run(p, d, ops), i, r)
    ensures Carries(p, d, i, r) || AwaitedIn(p, d, ops, i, r)
    decreases |ops|
  {
    if ops != [] {
      StepKeeps(p, d, ops[0]);
      CarriedWasAwaited(p, Step(p, d, ops[0]), ops[1..], i, r);
      if Carries(p, Step(p, d, ops[0]), i, r) { CarriesStep(p, d, ops[0], i, r); }
    }
  }

  lemma {:induction false} AwaitedIsCarried(p: Plan, d: DState, ops: seq<Op>, i: nat, r: TaskResult)
    requires Inv(p, d) && StaysWaiting(d, ops, i) && i < |p.workers|
    requires Carries(p, d, i, r) || AwaitedIn(p, d, ops, i, r)
    ensures Carries(p, Run(p, d, ops), i, r)
    decreases |ops|
  {
    if ops != [] {
      var next := Step(p, d, ops[0]);
      StepKeeps(p, d, ops[0]);
      WaitingOn(p, d, ops, i);
      if Carries(p, d, i, r) {
        CarriedStays(p, d, ops[0], i, r);
      } else if ops[0] == Deliver(p.workers[i], r) && Awaited(p, d, i) && r.taskId == SubId(p, i) {
        assert PhaseRight(p, d, i);
        DeliveryCountsIff(p, d, i, r);
      }
      AwaitedIsCarried(p, next, ops[1..], i, r);
    }
  }

  /**
   * Over every run, an entry carries a result only if that very result was delivered on its worker's stream while the
   * subtask awaited it.
   */
  lemma {:induction false} EntriesWereAwaited(p: Plan, sessions: map<string, SView>, ops: seq<Op>, i: nat,
                                              r: TaskResult)
    requires NewTask(p, sessions) && i < |p.workers| && Entry(i, Some(r)) in Log(Run(p, Start(p, sessions), ops))
    ensures AwaitedIn(p, Start(p, sessions), ops, i, r)
  {
    StartInv(p, sessions);
    CarriedWasAwaited(p, Start(p, sessions), ops, i, r);
  }

  /** And without giving up the two are the same: the subtask ends with the result if and only if it was awaited. */
  lemma {:induction false} CarriedIff(p: Plan, sessions: map<string, SView>, ops: seq<Op>, i: nat, r: TaskResult)
    requires NewTask(p, sessions) && i < |p.workers| && (GiveUp(i) !in ops || Expire !in ops)
    ensures Carries(p, Run(p, Start(p, sessions), ops), i, r) <==> AwaitedIn(p, Start(p, sessions), ops, i, r)
  {
    StartInv(p, sessions);
    if Carries(p, Run(p, Start(p, sessions), ops), i, r) {
      CarriedWasAwaited(p, Start(p, sessions), ops, i, r);
    } else if AwaitedIn(p, Start(p, sessions), ops, i, r) {
      AwaitedIsCarried(p, Start(p, sessions), ops, i, r);
    }
  }

  /** A COMPLETE result with the subtask's own id was delivered on its worker's stream while the subtask awaited one. */
  predicate CompletedIn(p: Plan, d: DState, ops: seq<Op>, i: nat, r: TaskResult) {
    AwaitedIn(p, d, ops, i, r) && r.complete && r.taskId == SubId(p, i)
  }

  lemma {:induction false} EntryOfSub(entries: seq<Entry>, i: nat) returns (j: nat)
    requires OneEntry(entries, i)
    ensures j < |entries| && entries[j].sub == i && forall k | 0 <= k < |entries| && entries[k].sub == i :: k == j
  {
    j :| 0 <= j < |entries| && entries[j].sub == i && forall k | 0 <= k < |entries| && entries[k].sub == i :: k == j;
  }

  lemma {:induction false} AwaitedHasId(p: Plan, d: DState, ops: seq<Op>, i: nat, r: TaskResult)
    requires AwaitedIn(p, d, ops, i, r)
    ensures i < |p.workers| && r.taskId == SubId(p, i)
    decreases |ops|
  {
    if AwaitedIn(p, Step(p, d, ops[0]), ops[1..], i, r) {
      AwaitedHasId(p, Step(p, d, ops[0]), ops[1..], i, r);
    }
  }

  /**
   * So when the loop has collected everything, and the subtask's waiter did not give up, the subtask's one entry is a
   * COMPLETE result exactly if one was delivered under its id while the subtask awaited it.
   */
  lemma {:induction false} SuccessIff(p: Plan, sessions: map<string, SView>, ops: seq<Op>, i: nat)
    requires NewTask(p, sessions) && i < |p.workers| && (GiveUp(i) !in ops || Expire !in ops)
    requires |Run(p, Start(p, sessions), ops).collected| == |p.workers|
    ensures var entries := Run(p, Start(p, sessions), ops).collected;
      && OneEntry(entries, i)
      && ((exists j :: 0 <= j < |entries| && entries[j].sub == i && entries[j].result.Some?
                       && entries[j].result.value.complete)
          <==> exists r :: CompletedIn(p, Start(p, sessions), ops, i, r))
  {
    var d := Run(p, Start(p, sessions), ops);
    AllCounted(p, sessions, ops);
    assert Log(d) == d.collected;
    var j := EntryOfSub(d.collected, i);
    var e := d.collected[j];
    if e.result.Some? && e.result.value.complete {
      assert Carries(p, d, i, e.result.value);
      CarriedIff(p, sessions, ops, i, e.result.value);
      AwaitedHasId(p, Start(p, sessions), ops, i, e.result.value);
      assert CompletedIn(p, Start(p, sessions), ops, i, e.result.value);
    }
    if r :| CompletedIn(p, Start(p, sessions), ops, i, r) {
      CarriedIff(p, sessions, ops, i, r);
      NothingElseCarried(p, sessions, ops, i, r);
    }
  }

  /** Once everything is collected, only an entry carries a result. */
  lemma {:induction false} NothingElseCarried(p: Plan, sessions: map<string, SView>, ops: seq<Op>, i: nat,
                                              r: TaskResult)
    requires NewTask(p, sessions) && i < |p.workers|
    requires |Run(p, Start(p, sessions), ops).collected| == |p.workers|
    requires Carries(p, Run(p, Start(p, sessions), ops), i, r)
    ensures Entry(i, Some(r)) in Run(p, Start(p, sessions), ops).collected
  {
    var d := Run(p, Start(p, sessions), ops);
    AllCounted(p, sessions, ops);
    StartInv(p, sessions);
    RunKeeps(p, Start(p, sessions), ops);
    assert PhaseRight(p, d, i) && d.phases[i] == Sent;
    assert Log(d) == d.collected;
  }

  // ── A result nobody awaits changes nothing ──

  predicate SameWait(p: Plan, d: DState, e: DState, i: nat)
    requires i < |p.workers|
  {
    Registered(p, d, i) == Registered(p, e, i) && Slot(p, d, i) == Slot(p, e, i)
  }

  predicate SameQueues(d: DState, e: DState) {
    && d.sessions.Keys == e.sessions.Keys
    && forall w <- d.sessions ::
         d.sessions[w].connected == e.sessions[w].connected && d.sessions[w].sendCh == e.sessions[w].sendCh
  }

  /** The same for the dispatch: only pending-task sets, other tasks' channels and the history may differ. */
  ghost predicate Alike(p: Plan, d: DState, e: DState) {
    && |d.phases| == |p.workers| && e == d.(sessions := e.sessions, delivered := e.delivered) && SameQueues(d, e)
    && forall i | 0 <= i < |p.workers| :: SameWait(p, d, e, i)
  }

  lemma {:induction false} AlikeEnabled(p: Plan, d: DState, e: DState, op: Op)
    requires Alike(p, d, e)
    ensures Enabled(p, d, op) == Enabled(p, e, op) && Accepts(p, d) == Accepts(p, e)
    ensures op.TakeResult? && op.i < |p.workers| ==> Slot(p, d, op.i) == Slot(p, e, op.i)
  {
    if op.TakeResult? && op.i < |p.workers| { assert SameWait(p, d, e, op.i); }
  }

  /** What one step does to the connection and the send queue of one worker. */
  lemma {:induction false} QueueStep(p: Plan, d: DState, op: Op, w: string)
    requires w in d.sessions && Enabled(p, d, op)
    ensures Step(p, d, op).sessions.Keys == d.sessions.Keys
    ensures Step(p, d, op).sessions[w].connected ==
      if op.Connect? && op.worker == w then op.up else d.sessions[w].connected
    ensures Step(p, d, op).sessions[w].sendCh ==
      var q := d.sessions[w].sendCh;
      if op.AssignNext? && p.workers[d.next] == w && Accepts(p, d) then q + [Task(SubId(p, d.next), p.inputs)]
      else if op.SendNext? && op.worker == w then q[1..]
      else if op.OtherMessage? && op.worker == w && CanSend(d.sessions[w]) then q + [op.msg]
      else q
  {
  }

  lemma {:induction false} StepKeepsWorkers(p: Plan, d: DState, op: Op)
    ensures Step(p, d, op).sessions.Keys == d.sessions.Keys
  {
  }

  lemma {:induction false} AlikeQueues(p: Plan, d: DState, e: DState, op: Op)
    requires Alike(p, d, e) && Enabled(p, d, op) && Enabled(p, e, op)
    ensures SameQueues(Step(p, d, op), Step(p, e, op))
  {
    AlikeEnabled(p, d, e, op);
    StepKeepsWorkers(p, d, op);
    StepKeepsWorkers(p, e, op);
    forall w <- d.sessions
      ensures Step(p, d, op).sessions[w].connected == Step(p, e, op).sessions[w].connected
      ensures Step(p, d, op).sessions[w].sendCh == Step(p, e, op).sessions[w].sendCh
    {
      QueueStep(p, d, op, w);
      QueueStep(p, e, op, w);
    }
  }

  lemma {:induction false} AlikeFields(p: Plan, d: DState, e: DState, op: Op)
    requires Alike(p, d, e) && Enabled(p, d, op) && Enabled(p, e, op)
    ensures var d', e' := Step(p, d, op), Step(p, e, op);
            |d'.phases| == |p.workers| && e' == d'.(sessions := e'.sessions, delivered := e'.delivered)
  {
    AlikeEnabled(p, d, e, op);
  }

  lemma {:induction false} AlikeStep(p: Plan, d: DState, e: DState, op: Op)
    requires Alike(p, d, e)
    ensures Alike(p, Step(p, d, op), Step(p, e, op))
  {
    AlikeEnabled(p, d, e, op);
    if Enabled(p, d, op) {
      AlikeQueues(p, d, e, op);
      AlikeFields(p, d, e, op);
      forall i | 0 <= i < |p.workers| ensures SameWait(p, Step(p, d, op), Step(p, e, op), i) {
        assert SameWait(p, d, e, i);
        WaitStep(p, d, op, i);
        WaitStep(p, e, op, i);
      }
    }
  }

  lemma {:induction false} AlikeRun(p: Plan, d: DState, e: DState, ops: seq<Op>)
    requires Alike(p, d, e)
    ensures Alike(p, Run(p, d, ops), Run(p, e, ops))
    decreases |ops|
  {
    if ops != [] {
      AlikeStep(p, d, e, ops[0]);
      AlikeRun(p, Step(p, d, ops[0]), Step(p, e, ops[0]), ops[1..]);
    }
  }

  /**
   * A delivery that no subtask awaits, because its waiter has not registered, has its result, or is gone, never
   * reaches an entry: with or without it every continuation of the run has the same phases and entries.
   */
  lemma {:induction false} UnawaitedChangesNothing(p: Plan, d: DState, w: string, r: TaskResult, ops: seq<Op>)
    requires Inv(p, d)
    requires forall i | 0 <= i < |p.workers| && p.workers[i] == w && SubId(p, i) == r.taskId :: !Awaited(p, d, i)
    ensures var with_, without := Run(p, Step(p, d, Deliver(w, r)), ops), Run(p, d, ops);
      with_.phases == without.phases && with_.resultCh == without.resultCh && with_.collected == without.collected
  {
    var after := Step(p, d, Deliver(w, r));
    forall i | 0 <= i < |p.workers| ensures SameWait(p, after, d, i) {
      assert PhaseRight(p, d, i);
    }
    AlikeRun(p, after, d, ops);
  }
}
