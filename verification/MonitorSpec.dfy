/**
 * vgpu/monitor/workers.go with the callbacks of vgpu/main.go and the stream handlers of
 * vgpu/server/grpc_server.go, one call a step. Times are nanoseconds and never go back.
 */
module MonitorSpec {
  import opened Common
  import Scheduler

  const HEARTBEAT_TIMEOUT := 10_000_000_000
  const CHECK_INTERVAL := 5_000_000_000

  datatype Status = Online | Degraded | Offline

  /** `lost` counts the OnWorkerLost callbacks since the worker last became online. */
  datatype WView = WView(name: string, last: int, status: Status, connections: nat, lost: nat)

  type Workers = map<string, WView>
  type Sched = map<string, Scheduler.WorkerInfo>

  /** `sessions` maps a worker to its host name; sessions are never removed. */
  datatype MState = MState(now: int, lastCheck: int, sessions: map<string, string>, workers: Workers, sched: Sched)

  datatype Op =
    | Register(id: string, hostname: string)
    | Message(id: string, capability: Option<real>)
    | EndStream(id: string)
    | Check

  // ── The monitor ──

  function Registered(workers: Workers, id: string, name: string, now: int): Workers {
    if id in workers
    then workers[id := WView(workers[id].name, now, Online, workers[id].connections + 1, 0)]
    else workers[id := WView(name, now, Online, 1, 0)]
  }

  function Idle(id: string, name: string, score: real): Scheduler.WorkerInfo {
    Scheduler.WorkerInfo(id, name, score, "idle")
  }

  /** Registering a known worker calls OnWorkerReturn. */
  function SchedRegistered(workers: Workers, sched: Sched, id: string): Sched {
    if id in workers then sched[id := Idle(id, "", 0.0)] else sched
  }

  function Beat(w: WView, now: int): WView {
    if w.status == Degraded then w.(last := now, status := Online, lost := 0) else w.(last := now)
  }

  function Beaten(workers: Workers, id: string, now: int): Workers {
    if id in workers then workers[id := Beat(workers[id], now)] else workers
  }

  /** The first pass of a check: silent online workers degrade. */
  predicate Silent(w: WView, now: int) { now - w.last > HEARTBEAT_TIMEOUT && w.status == Online }

  function Soft(w: WView, now: int): WView {
    if Silent(w, now) then w.(status := Degraded, lost := w.lost + 1) else w
  }

  /** The second pass: degraded workers silent twice as long go offline. */
  predicate Dead(w: WView, now: int) { now - w.last > 2 * HEARTBEAT_TIMEOUT && w.status == Degraded }

  function Hard(w: WView, now: int): WView {
    if Dead(w, now) then w.(status := Offline, lost := w.lost + 1) else w
  }

  function Checked(workers: Workers, now: int): Workers { map id | id in workers :: Hard(Soft(workers[id], now), now) }

  /** The workers a check calls OnWorkerLost for. */
  function Lost(workers: Workers, now: int): set<string> {
    set id | id in workers && (Silent(workers[id], now) || Dead(workers[id], now))
  }

  // ── One step of the system ──

  function Step(s: MState, now: int, op: Op): MState {
    match op
    case Register(id, hostname) =>
      var sched := s.sched[id := Idle(id, hostname, 0.0)];
      MState(now, s.lastCheck, s.sessions[id := hostname], Registered(s.workers, id, hostname, now),
             SchedRegistered(s.workers, sched, id))
    case Message(id, capability) =>
      var sched :=
        if capability.Some? && id in s.sessions then s.sched[id := Idle(id, s.sessions[id], capability.value)]
        else s.sched;
      MState(now, s.lastCheck, s.sessions, Beaten(s.workers, id, now), sched)
    case EndStream(id) => MState(now, s.lastCheck, s.sessions, s.workers - {id}, s.sched - {id})
    case Check => MState(now, now, s.sessions, Checked(s.workers, now), s.sched - Lost(s.workers, now))
  }

  datatype Timed = Timed(at: int, op: Op)

  function Run(s: MState, ops: seq<Timed>): MState
    decreases |ops|
  {
    if ops == [] then s else Run(Step(s, ops[0].at, ops[0].op), ops[1..])
  }

  /** A run is its operations one after another. */
  lemma {:induction false} RunOneMore(s: MState, ops: seq<Timed>, op: Timed)
    ensures Run(s, []) == s && Run(s, ops + [op]) == Step(Run(s, ops), op.at, op.op)
    decreases |ops|
  {
    if ops == [] {
      assert ops + [op] == [op] && [op][1..] == [];
    } else {
      assert (ops + [op])[0] == ops[0] && (ops + [op])[1..] == ops[1..] + [op];
      RunOneMore(Step(s, ops[0].at, ops[0].op), ops[1..], op);
    }
  }

  /** The clock never goes back. */
  ghost predicate InOrder(s: MState, ops: seq<Timed>)
    decreases |ops|
  {
    ops == [] || (s.now <= ops[0].at && InOrder(Step(s, ops[0].at, ops[0].op), ops[1..]))
  }

  function Start(now: int): MState { MState(now, now, map[], map[], map[]) }

  // ── Agreement of monitor and scheduler ──

  ghost predicate WorkerRight(s: MState, id: string)
    requires id in s.workers
  {
    var w := s.workers[id];
    && w.last <= s.now
    && match w.status
       case Online => w.lost == 0
       case Degraded => w.lost == 1 && s.now - w.last > HEARTBEAT_TIMEOUT && id !in s.sched
       case Offline => w.lost == 2
  }

  ghost predicate Agree(s: MState) { forall id <- s.workers :: WorkerRight(s, id) }

  lemma {:induction false} StepAgrees(s: MState, now: int, op: Op)
    requires Agree(s) && s.now <= now
    ensures Agree(Step(s, now, op))
  {
    var after := Step(s, now, op);
    forall id <- after.workers ensures WorkerRight(after, id) {
      if id in s.workers { assert WorkerRight(s, id); }
    }
  }

  lemma {:induction false} RunAgrees(s: MState, ops: seq<Timed>)
    requires Agree(s) && InOrder(s, ops)
    ensures Agree(Run(s, ops))
    decreases |ops|
  {
    if ops != [] {
      StepAgrees(s, ops[0].at, ops[0].op);
      RunAgrees(Step(s, ops[0].at, ops[0].op), ops[1..]);
    }
  }

  /**
   * In every reachable state a degraded worker has been silent longer than the timeout and gets no work,
   * and since a worker was last online OnWorkerLost was called for it at most twice.
   */
  lemma {:induction false} MonitorAgreesWithScheduler(start: int, ops: seq<Timed>, id: string)
    requires InOrder(Start(start), ops) && id in Run(Start(start), ops).workers
    ensures var s := Run(Start(start), ops);
      && (s.workers[id].status == Degraded ==> s.now - s.workers[id].last > HEARTBEAT_TIMEOUT && id !in s.sched)
      && s.workers[id].lost <= 2 && (s.workers[id].status == Online <==> s.workers[id].lost == 0)
  {
    RunAgrees(Start(start), ops);
    assert WorkerRight(Run(Start(start), ops), id);
  }

  /** A worker that is not in the scheduler is not among the workers tasks are split over. */
  lemma {:induction false} AbsentGetsNoWork(active: seq<Scheduler.WorkerInfo>, sched: Sched, id: string)
    requires Scheduler.ListsActive(active, sched) && id !in sched
    ensures forall i | 0 <= i < |active| :: active[i].id != id
  {
    forall i | 0 <= i < |active| ensures active[i].id != id {
      assert active[i] in active;
    }
  }

  /** In every reachable state no split of a task gives a degraded worker a share. */
  lemma {:induction false} DegradedGetsNoWork(start: int, ops: seq<Timed>, id: string,
                                              active: seq<Scheduler.WorkerInfo>)
    requires InOrder(Start(start), ops) && id in Run(Start(start), ops).workers
    requires Run(Start(start), ops).workers[id].status == Degraded
    requires Scheduler.ListsActive(active, Run(Start(start), ops).sched)
    ensures forall i | 0 <= i < |active| :: active[i].id != id
  {
    MonitorAgreesWithScheduler(start, ops, id);
    AbsentGetsNoWork(active, Run(Start(start), ops).sched, id);
  }

  /** Offline is left only by registering again, or by the end of the stream. */
  lemma {:induction false} OfflineIsLeftBy(s: MState, now: int, op: Op, id: string)
    requires id in s.workers && s.workers[id].status == Offline
    ensures id !in Step(s, now, op).workers <==> op == EndStream(id)
    ensures id in Step(s, now, op).workers && Step(s, now, op).workers[id].status != Offline <==>
              op.Register? && op.id == id
  {
  }

  /** A worker heard from within the timeout survives a check unchanged, and a check lists nobody. */
  lemma {:induction false} HeardIsSpared(s: MState, now: int, id: string)
    requires Agree(s) && s.now <= now && id in s.workers && now - s.workers[id].last <= HEARTBEAT_TIMEOUT
    ensures Step(s, now, Check).workers[id] == s.workers[id]
    ensures id in Step(s, now, Check).sched <==> id in s.sched
  {
    assert WorkerRight(s, id);
  }

  /**
   * What one check does to a worker. Online and silent for more than 10 seconds it becomes degraded, and in the same
   * check offline after more than 20; degraded it goes offline after more than 20. It loses its place in the scheduler
   * exactly when its status changes, and nothing else about it does.
   */
  lemma {:induction false} CheckMoves(s: MState, now: int, id: string)
    requires id in s.workers
    ensures var after, w, silence := Step(s, now, Check), s.workers[id], now - s.workers[id].last;
      && id in after.workers && after.workers[id].name == w.name && after.workers[id].last == w.last
      && after.workers[id].connections == w.connections && after.sessions == s.sessions
      && (after.workers[id].status == Online <==> w.status == Online && silence <= 10_000_000_000)
      && (after.workers[id].status == Degraded <==>
            silence <= 20_000_000_000 && (w.status == Degraded || (w.status == Online && silence > 10_000_000_000)))
      && (id in after.sched <==> id in s.sched && after.workers[id].status == w.status)
      && forall other <- after.sched :: other in s.sched && after.sched[other] == s.sched[other]
  {
  }

  /**
   * A message from a worker the monitor knows: heard now, online again if it was degraded. One that registers is
   * online from any status, with one more connection. Other workers are as they were.
   */
  lemma {:induction false} HearingMoves(s: MState, now: int, id: string, capability: Option<real>, hostname: string)
    ensures var heard, back := Step(s, now, Message(id, capability)), Step(s, now, Register(id, hostname));
      && (id in heard.workers <==> id in s.workers)
      && (capability == None || id !in s.sessions ==> heard.sched == s.sched)
      && (id in s.workers ==>
            var w, was := heard.workers[id], s.workers[id];
            && w.last == now && w.name == was.name && w.connections == was.connections
            && w.status == if was.status == Offline then Offline else Online)
      && id in back.workers && back.workers[id].status == Online && back.workers[id].last == now
      && back.workers[id].name == (if id in s.workers then s.workers[id].name else hostname)
      && back.workers[id].connections == (if id in s.workers then s.workers[id].connections else 0) + 1
      && forall other <- s.workers | other != id ::
           && other in heard.workers && heard.workers[other] == s.workers[other]
           && other in back.workers && back.workers[other] == s.workers[other]
  {
  }

  /** The end of a stream takes the worker out of the monitor and the scheduler, and leaves every other one. */
  lemma {:induction false} EndMoves(s: MState, now: int, id: string)
    ensures var after := Step(s, now, EndStream(id));
      && id !in after.workers && id !in after.sched && after.sessions == s.sessions
      && (forall other <- s.workers | other != id ::
            other in after.workers && after.workers[other] == s.workers[other])
      && forall other <- s.sched | other != id :: other in after.sched && after.sched[other] == s.sched[other]
  {
  }

  /** Leaving the degraded state by a heartbeat does not bring the worker back into the scheduler. */
  lemma {:induction false} RecoveryIsNotEnough(s: MState, now: int, id: string)
    requires Agree(s) && s.now <= now && id in s.workers && s.workers[id].status == Degraded
    ensures var after := Step(s, now, Message(id, None));
            after.workers[id].status == Online && id !in after.sched
  {
    assert WorkerRight(s, id);
  }

  /** Only a registration or a capability report of the worker itself lists it again. */
  lemma {:induction false} ListedBy(s: MState, now: int, op: Op, id: string)
    requires id !in s.sched
    ensures id in Step(s, now, op).sched <==>
              (op.Register? && op.id == id) || (op.Message? && op.id == id && op.capability.Some? && id in s.sessions)
  {
  }

  /** The report is what the scheduler then works with: the worker is idle under its score, and listed as active. */
  lemma {:induction false} ReportIsUsed(s: MState, now: int, id: string, score: real,
                                        active: seq<Scheduler.WorkerInfo>)
    requires id in s.sessions
    ensures var after := Step(s, now, Message(id, Some(score)));
      && id in after.sched && after.sched[id] == Scheduler.WorkerInfo(id, s.sessions[id], score, "idle")
      && (forall other <- after.sched | other != id :: other in s.sched && after.sched[other] == s.sched[other])
      && (Scheduler.ListsActive(active, after.sched) ==>
            exists i :: 0 <= i < |active| && active[i].id == id && active[i].score == score)
  {
    var after := Step(s, now, Message(id, Some(score)));
    if Scheduler.ListsActive(active, after.sched) {
      assert Scheduler.Active(after.sched[id]) && after.sched[id] in active;
    }
  }

  /** A worker that registers is idle and has no score yet; one the monitor knows loses its host name too. */
  lemma {:induction false} RegistrationIsIdle(s: MState, now: int, id: string, hostname: string)
    ensures var after := Step(s, now, Register(id, hostname));
      && id in after.sched
      && after.sched[id] == Scheduler.WorkerInfo(id, if id in s.workers then "" else hostname, 0.0, "idle")
      && after.sessions == s.sessions[id := hostname]
  {
  }

  /** A capability report lists even an offline worker, which stays offline. */
  lemma {:induction false} OfflineCanBeListed(s: MState, now: int, id: string, score: real)
    requires id in s.workers && s.workers[id].status == Offline && id in s.sessions
    ensures var after := Step(s, now, Message(id, Some(score)));
            after.workers[id].status == Offline && id in after.sched
  {
  }

  // ── Who is scheduled ──

  /** The state before the n-th operation of a run. */
  function Before(start: int, ops: seq<Timed>, n: nat): MState
    requires n <= |ops|
  {
    if n == 0 then Start(start) else Step(Before(start, ops, n - 1), ops[n - 1].at, ops[n - 1].op)
  }

  lemma {:induction false} RunFrom(start: int, ops: seq<Timed>, n: nat)
    requires n <= |ops|
    ensures Run(Before(start, ops, n), ops[n..]) == Run(Start(start), ops)
  {
    if n == 0 {
      assert ops[0..] == ops;
    } else {
      RunFrom(start, ops, n - 1);
      assert ops[n - 1..][1..] == ops[n..] && ops[n - 1..][0] == ops[n - 1];
    }
  }

  predicate RegistersAt(ops: seq<Timed>, id: string, i: nat) {
    i < |ops| && ops[i].op.Register? && ops[i].op.id == id
  }

  /** Operation `i` registers the worker, or reports its capability after some registration. */
  ghost predicate ListsAt(ops: seq<Timed>, id: string, i: nat) {
    || RegistersAt(ops, id, i)
    || (i < |ops| && ops[i].op.Message? && ops[i].op.id == id && ops[i].op.capability.Some?
        && exists r: nat :: r < i && RegistersAt(ops, id, r))
  }

  /** Operation `i` ends the worker's stream, or is a check that finds it silent too long for its status. */
  predicate RemovesAt(start: int, ops: seq<Timed>, id: string, i: nat) {
    i < |ops| && (ops[i].op == EndStream(id)
                  || (ops[i].op == Check && id in Lost(Before(start, ops, i).workers, ops[i].at)))
  }

  /** Of the first `n` operations one lists the worker, and none after it removes it. */
  ghost predicate ListedLast(start: int, ops: seq<Timed>, id: string, n: nat) {
    exists i: nat :: i < n && ListsAt(ops, id, i) && KeptFrom(start, ops, id, i + 1, n)
  }

  ghost predicate KeptFrom(start: int, ops: seq<Timed>, id: string, from: nat, n: nat) {
    forall j: nat | from <= j < n :: !RemovesAt(start, ops, id, j)
  }

  lemma {:induction false} SessionsAre(start: int, ops: seq<Timed>, id: string, n: nat)
    requires n <= |ops|
    ensures id in Before(start, ops, n).sessions <==> exists r: nat :: r < n && RegistersAt(ops, id, r)
  {
    if n > 0 {
      SessionsAre(start, ops, id, n - 1);
      if RegistersAt(ops, id, n - 1) { assert id in Before(start, ops, n).sessions; }
    }
  }

  lemma {:induction false} OneMoreOp(start: int, ops: seq<Timed>, id: string, n: nat)
    requires n < |ops|
    ensures ListedLast(start, ops, id, n + 1) <==>
            ListsAt(ops, id, n) || (ListedLast(start, ops, id, n) && !RemovesAt(start, ops, id, n))
  {
    if ListsAt(ops, id, n) {
      assert KeptFrom(start, ops, id, n + 1, n + 1);
    } else {
      if i: nat :| i < n && ListsAt(ops, id, i) && KeptFrom(start, ops, id, i + 1, n) {
        if !RemovesAt(start, ops, id, n) { assert KeptFrom(start, ops, id, i + 1, n + 1); }
      }
      if i: nat :| i < n + 1 && ListsAt(ops, id, i) && KeptFrom(start, ops, id, i + 1, n + 1) {
        assert KeptFrom(start, ops, id, i + 1, n);
      }
    }
  }

  lemma {:induction false} ScheduledBefore(start: int, ops: seq<Timed>, id: string, n: nat)
    requires n <= |ops|
    ensures id in Before(start, ops, n).sched <==> ListedLast(start, ops, id, n)
  {
    if n > 0 {
      ScheduledBefore(start, ops, id, n - 1);
      OneMoreOp(start, ops, id, n - 1);
      SessionsAre(start, ops, id, n - 1);
    }
  }

  /**
   * After any run a worker is scheduled exactly if it registered, or reported its capability after some registration,
   * since the last time its stream ended or a check removed it. Its status has no part in this.
   */
  lemma {:induction false} ScheduledIff(start: int, ops: seq<Timed>, id: string)
    ensures id in Run(Start(start), ops).sched <==> ListedLast(start, ops, id, |ops|)
  {
    RunFrom(start, ops, |ops|);
    ScheduledBefore(start, ops, id, |ops|);
  }

  // ── Scheduled workers that nobody watches ──

  /** Every scheduled worker is monitored, so that its silence can be noticed. */
  ghost predicate Watched(s: MState) { forall id <- s.sched :: id in s.workers }

  /** A capability report of a worker whose stream has ended and which has not come back. */
  predicate LateReport(s: MState, op: Op) {
    op.Message? && op.capability.Some? && op.id in s.sessions && op.id !in s.workers
  }

  /** Late reports are exactly the steps that leave a scheduled worker unwatched. */
  lemma {:induction false} WatchedIff(s: MState, now: int, op: Op)
    requires Watched(s)
    ensures Watched(Step(s, now, op)) <==> !LateReport(s, op)
  {
    if LateReport(s, op) {
      assert op.id in Step(s, now, op).sched;
    }
  }

  /** What a run has been for one worker. */
  datatype Phase = Never | Open | Closed | Late

  function NextPhase(p: Phase, op: Op, id: string): Phase {
    match op
    case Register(other, _) => if other == id then Open else p
    case EndStream(other) => if other == id && p != Never then Closed else p
    case Message(other, capability) => if other == id && capability.Some? && p == Closed then Late else p
    case Check => p
  }

  function PhaseAfter(p: Phase, ops: seq<Timed>, id: string): Phase
    decreases |ops|
  {
    if ops == [] then p else PhaseAfter(NextPhase(p, ops[0].op, id), ops[1..], id)
  }

  ghost predicate InPhase(s: MState, p: Phase, id: string) {
    && (id in s.sessions <==> p != Never) && (id in s.workers <==> p == Open)
    && (p != Open ==> (id in s.sched <==> p == Late))
  }

  lemma {:induction false} PhaseIsKept(s: MState, ops: seq<Timed>, p: Phase, id: string)
    requires InPhase(s, p, id)
    ensures InPhase(Run(s, ops), PhaseAfter(p, ops, id), id)
    decreases |ops|
  {
    if ops != [] {
      assert InPhase(Step(s, ops[0].at, ops[0].op), NextPhase(p, ops[0].op, id), id);
      PhaseIsKept(Step(s, ops[0].at, ops[0].op), ops[1..], NextPhase(p, ops[0].op, id), id);
    }
  }

  /**
   * A run ends with an unwatched scheduled worker exactly when the last time some worker registered or ended its stream
   * was the end of a stream, and a capability report of it came after that. No check takes it out of the scheduler.
   */
  lemma {:induction false} RunIsWatchedIff(start: int, ops: seq<Timed>)
    ensures Watched(Run(Start(start), ops)) <==> forall id :: PhaseAfter(Never, ops, id) != Late
    ensures forall id :: PhaseAfter(Never, ops, id) == Late ==>
              id in Run(Start(start), ops).sched && id !in Run(Start(start), ops).workers
  {
    var s := Run(Start(start), ops);
    forall id ensures InPhase(s, PhaseAfter(Never, ops, id), id) {
      PhaseIsKept(Start(start), ops, Never, id);
    }
    if !Watched(s) {
      var id :| id in s.sched && id !in s.workers;
      assert PhaseAfter(Never, ops, id) == Late;
    }
  }

  // ── How late a silence is noticed ──

  /** Nothing happens later than one interval after the last check. */
  ghost predicate OnTime(s: MState, ops: seq<Timed>)
    decreases |ops|
  {
    ops == [] || (ops[0].at - s.lastCheck <= CHECK_INTERVAL && OnTime(Step(s, ops[0].at, ops[0].op), ops[1..]))
  }

  ghost predicate Noticed(s: MState) {
    && s.lastCheck <= s.now <= s.lastCheck + CHECK_INTERVAL
    && forall id <- s.workers ::
         && (s.workers[id].status == Online ==> s.lastCheck - s.workers[id].last <= HEARTBEAT_TIMEOUT)
         && (s.workers[id].status == Degraded ==> s.lastCheck - s.workers[id].last <= 2 * HEARTBEAT_TIMEOUT)
  }

  lemma {:induction false} StepNotices(s: MState, now: int, op: Op)
    requires Noticed(s) && Agree(s) && s.now <= now <= s.lastCheck + CHECK_INTERVAL
    ensures Noticed(Step(s, now, op))
  {
    var after := Step(s, now, op);
    forall id <- after.workers
      ensures after.workers[id].status == Online ==> after.lastCheck - after.workers[id].last <= HEARTBEAT_TIMEOUT
      ensures after.workers[id].status == Degraded ==> after.lastCheck - after.workers[id].last <= 2 * HEARTBEAT_TIMEOUT
    {
      if id in s.workers { assert WorkerRight(s, id); }
    }
  }

  lemma {:induction false} RunNotices(s: MState, ops: seq<Timed>)
    requires Noticed(s) && Agree(s) && InOrder(s, ops) && OnTime(s, ops)
    ensures Noticed(Run(s, ops))
    decreases |ops|
  {
    if ops != [] {
      StepAgrees(s, ops[0].at, ops[0].op);
      StepNotices(s, ops[0].at, ops[0].op);
      RunNotices(Step(s, ops[0].at, ops[0].op), ops[1..]);
    }
  }

  /** If checks come on time, no worker silent for 15 seconds counts as online, and none silent for 25 as degraded. */
  lemma {:induction false} SilenceIsNoticed(start: int, ops: seq<Timed>, id: string)
    requires InOrder(Start(start), ops) && OnTime(Start(start), ops) && id in Run(Start(start), ops).workers
    ensures var s := Run(Start(start), ops);
      var silence := s.now - s.workers[id].last;
      && (silence > 15_000_000_000 ==> s.workers[id].status != Online)
      && (silence > 25_000_000_000 ==> s.workers[id].status == Offline)
  {
    RunNotices(Start(start), ops);
  }
}
