/**
 * vgpu/server/grpc_server.go: registration, stream messages and the end of a stream, as they reach monitor and
 * scheduler.
 */
module Orchestrator {
  import opened Common
  import opened MonitorSpec
  import opened Monitor
  import S = Scheduler

  class OrchestratorService {
    /** Host name by worker. */
    var workers: map<string, string>
    const sched: S.Scheduler
    const workerMon: WorkerMonitor
    ghost var LastCheck: int

    ghost predicate Valid()
      reads this, workerMon, workerMon.Repr
    {
      workerMon.Valid() && workerMon.sched == sched
    }

    ghost function State(now: int): MState
      reads this, workerMon, sched
    {
      MState(now, LastCheck, workers, workerMon.Views, sched.Workers)
    }

    constructor (sched: S.Scheduler, workerMon: WorkerMonitor, ghost now: int)
      requires workerMon.Valid() && workerMon.sched == sched && workerMon.Views == map[] && sched.Workers == map[]
      ensures Valid() && State(now) == Start(now) && this.sched == sched && this.workerMon == workerMon
    {
      this.workers, this.sched, this.workerMon, this.LastCheck := map[], sched, workerMon, now;
    }

    method Register(id: string, hostname: string, now: int)
      requires Valid()
      modifies this, workerMon, workerMon.Repr, sched
      ensures Valid() && fresh(workerMon.Repr - old(workerMon.Repr))
      ensures State(now) == Step(old(State(now)), now, Op.Register(id, hostname))
    {
      workers := workers[id := hostname];
      sched.RegisterWorker(Idle(id, hostname, 0.0));
      workerMon.Register(id, hostname, now);
    }

    /** One message of a stream whose worker is known: the heartbeat first, then a capability report if it is one. */
    method Receive(id: string, capability: Option<real>, now: int)
      requires Valid()
      modifies this, workerMon, workerMon.Repr, sched
      ensures Valid() && workerMon.Repr == old(workerMon.Repr)
      ensures State(now) == Step(old(State(now)), now, Message(id, capability))
    {
      workerMon.Heartbeat(id, now);
      if capability.Some? {
        HandleCapabilityUpdate(id, capability.value);
      }
    }

    method HandleCapabilityUpdate(id: string, score: real)
      modifies sched
      ensures sched.Workers ==
              if id in workers then old(sched.Workers)[id := Idle(id, workers[id], score)] else old(sched.Workers)
    {
      if id in workers {
        sched.RegisterWorker(Idle(id, workers[id], score));
      }
    }

    method EndStream(id: string, ghost now: int)
      requires Valid()
      modifies workerMon, sched
      ensures Valid() && workerMon.Repr == old(workerMon.Repr)
      ensures State(now) == Step(old(State(now)), now, Op.EndStream(id))
    {
      sched.RemoveWorker(id);
      workerMon.Remove(id);
    }

    /** The monitor's own loop, seen from here. */
    method Tick(now: int)
      requires Valid()
      modifies this, workerMon, workerMon.Repr, sched
      ensures Valid() && workerMon.Repr == old(workerMon.Repr)
      ensures State(now) == Step(old(State(now)), now, Check)
    {
      workerMon.CheckHeartbeats(now);
      LastCheck := now;
    }
  }
}
