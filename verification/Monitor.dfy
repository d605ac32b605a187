/** vgpu/monitor/workers.go, with the scheduler its callbacks call. */
module Monitor {
  import opened MonitorSpec
  import S = Scheduler

  class WorkerState {
    const ID: string
    const Name: string
    var LastHeartbeat: int
    var Status: Status
    var Connections: nat
    /** OnWorkerLost callbacks since the worker last became online. */
    ghost var Lost: nat

    constructor (id: string, name: string, now: int)
      ensures ID == id && View() == WView(name, now, Online, 1, 0)
    {
      ID, Name, LastHeartbeat, Status, Connections, Lost := id, name, now, Online, 1, 0;
    }

    ghost function View(): WView
      reads this
    {
      WView(Name, LastHeartbeat, Status, Connections, Lost)
    }

    method Return(now: int)
      modifies this
      ensures View() == WView(Name, now, Online, old(Connections) + 1, 0)
    {
      LastHeartbeat, Status, Connections, Lost := now, Online, Connections + 1, 0;
    }

    method Beat(now: int)
      modifies this
      ensures View() == if old(Status) == Degraded then WView(Name, now, Online, old(Connections), 0)
                        else old(View()).(last := now)
    {
      LastHeartbeat := now;
      if Status == Degraded {
        Status, Lost := Online, 0;
      }
    }

    method Worsen(status: Status)
      modifies this
      ensures View() == old(View()).(status := status, lost := old(Lost) + 1)
    {
      Status, Lost := status, Lost + 1;
    }
  }

  lemma {:induction false} MinusOne(m: Sched, gone: set<string>, id: string)
    ensures m - gone - {id} == m - (gone + {id})
  {
  }

  /** The first pass, done for `ids` so far. */
  ghost function SoftOn(views: MonitorSpec.Workers, ids: set<string>, now: int): MonitorSpec.Workers {
    map id | id in views :: if id in ids then Soft(views[id], now) else views[id]
  }

  ghost function SilentIn(views: MonitorSpec.Workers, now: int): set<string> {
    set id | id in views && Silent(views[id], now)
  }

  lemma {:induction false} SoftOnMore(views: MonitorSpec.Workers, ids: set<string>, now: int, id: string)
    requires id in views && id !in ids && Silent(views[id], now)
    ensures SoftOn(views, ids, now)[id := views[id].(status := Degraded, lost := views[id].lost + 1)]
         == SoftOn(views, ids + {id}, now)
    ensures SoftOn(views, ids, now)[id] == views[id]
  {
  }

  lemma {:induction false} SoftOnAll(views: MonitorSpec.Workers, now: int)
    ensures SoftOn(views, {}, now) == views
    ensures SoftOn(views, SilentIn(views, now), now) == map id | id in views :: Soft(views[id], now)
  {
  }

  /** The second pass, done for `ids` so far. */
  ghost function HardOn(views: MonitorSpec.Workers, ids: set<string>, now: int): MonitorSpec.Workers {
    map id | id in views :: if id in ids then Hard(views[id], now) else views[id]
  }

  ghost function DeadIn(views: MonitorSpec.Workers, ids: set<string>, now: int): set<string> {
    set id | id in ids && id in views && Dead(views[id], now)
  }

  lemma {:induction false} HardOnMore(views: MonitorSpec.Workers, ids: set<string>, now: int, id: string)
    requires id in views && id !in ids
    ensures HardOn(views, ids, now)[id] == views[id]
    ensures HardOn(views, ids, now)[id := Hard(views[id], now)] == HardOn(views, ids + {id}, now)
    ensures DeadIn(views, ids + {id}, now) == DeadIn(views, ids, now) + if Dead(views[id], now) then {id} else {}
  {
  }

  lemma {:induction false} HardOnAll(views: MonitorSpec.Workers, now: int)
    ensures HardOn(views, {}, now) == views && DeadIn(views, {}, now) == {}
    ensures HardOn(views, views.Keys, now) == map id | id in views :: Hard(views[id], now)
  {
  }

  /** The two passes together are the check. */
  lemma {:induction false} PassesAreCheck(views: MonitorSpec.Workers, now: int, listed: Sched)
    ensures var soft := map id | id in views :: Soft(views[id], now);
      && (map id | id in soft :: Hard(soft[id], now)) == Checked(views, now)
      && listed - SilentIn(views, now) - DeadIn(soft, soft.Keys, now) == listed - Lost(views, now)
  {
  }

  class WorkerMonitor {
    var Workers: map<string, WorkerState>
    /** The scheduler behind OnWorkerLost and OnWorkerReturn. */
    const sched: S.Scheduler
    ghost var Views: MonitorSpec.Workers
    ghost var Repr: set<WorkerState>

    ghost predicate Valid()
      reads this, Repr
    {
      && Workers.Keys == Views.Keys
      && (forall id <- Workers :: Workers[id] in Repr && Workers[id].ID == id && Workers[id].View() == Views[id])
    }

    constructor (sched: S.Scheduler)
      ensures Valid() && Views == map[] && Repr == {} && this.sched == sched
    {
      this.sched := sched;
      Workers, Views, Repr := map[], map[], {};
    }

    method OnWorkerLost(id: string)
      modifies sched
      ensures sched.Workers == old(sched.Workers) - {id}
    {
      sched.RemoveWorker(id);
    }

    method OnWorkerReturn(id: string)
      modifies sched
      ensures sched.Workers == old(sched.Workers)[id := Idle(id, "", 0.0)]
    {
      sched.RegisterWorker(Idle(id, "", 0.0));
    }

    method Register(id: string, name: string, now: int)
      requires Valid()
      modifies this, Repr, sched
      ensures Valid() && fresh(Repr - old(Repr))
      ensures Views == Registered(old(Views), id, name, now)
      ensures sched.Workers == SchedRegistered(old(Views), old(sched.Workers), id)
    {
      if id in Workers {
        Reconnect(id, now);
        OnWorkerReturn(id);
        return;
      }
      var ws := new WorkerState(id, name, now);
      Workers := Workers[id := ws];
      Views := Views[id := ws.View()];
      Repr := Repr + {ws};
    }

    method Reconnect(id: string, now: int)
      requires Valid() && id in Views
      modifies this, Repr
      ensures Valid() && Repr == old(Repr)
      ensures Views == Registered(old(Views), id, "", now)
    {
      var ws := Workers[id];
      ws.Return(now);
      Views := Views[id := ws.View()];
    }

    method Heartbeat(id: string, now: int)
      requires Valid()
      modifies this, Repr
      ensures Valid() && Repr == old(Repr)
      ensures Views == Beaten(old(Views), id, now)
    {
      if id in Workers {
        var ws := Workers[id];
        ws.Beat(now);
        Views := Views[id := ws.View()];
      }
    }

    method Remove(id: string)
      requires Valid()
      modifies this
      ensures Valid() && Repr == old(Repr)
      ensures Views == old(Views) - {id}
    {
      Workers := Workers - {id};
      Views := Views - {id};
    }

    /** The first pass of a check collects the silent workers. */
    method CollectSilent(now: int) returns (lost: seq<string>)
      requires Valid()
      ensures forall i | 0 <= i < |lost| :: lost[i] in Views && Silent(Views[lost[i]], now)
      ensures forall id <- Views | Silent(Views[id], now) :: id in lost
      ensures forall i, j | 0 <= i < j < |lost| :: lost[i] != lost[j]
    {
      lost := [];
      var todo := Workers.Keys;
      while todo != {}
        invariant todo <= Workers.Keys
        invariant forall i | 0 <= i < |lost| :: lost[i] in Views && lost[i] !in todo && Silent(Views[lost[i]], now)
        invariant forall id <- Views | Silent(Views[id], now) :: id in todo || id in lost
        invariant forall i, j | 0 <= i < j < |lost| :: lost[i] != lost[j]
        decreases todo
      {
        var id :| id in todo;
        todo := todo - {id};
        if now - Workers[id].LastHeartbeat > HEARTBEAT_TIMEOUT && Workers[id].Status == Online {
          lost := lost + [id];
        }
      }
    }

    /** Gives one worker a worse status and reports it. */
    method Mark(id: string, status: Status)
      requires Valid() && id in Views
      modifies this, Repr, sched
      ensures Valid() && Repr == old(Repr)
      ensures Views == old(Views)[id := old(Views[id]).(status := status, lost := old(Views[id]).lost + 1)]
      ensures sched.Workers == old(sched.Workers) - {id}
    {
      var ws := Workers[id];
      ws.Worsen(status);
      OnWorkerLost(id);
      Views := Views[id := ws.View()];
    }

    /** The second pass on one more worker. */
    method HardTimeout(id: string, now: int, ghost views: MonitorSpec.Workers, ghost done: set<string>,
                       ghost listed: Sched)
      requires Valid() && id in views && id !in done
      requires Views == HardOn(views, done, now) && sched.Workers == listed - DeadIn(views, done, now)
      modifies this, Repr, sched
      ensures Valid() && Repr == old(Repr)
      ensures Views == HardOn(views, done + {id}, now) && sched.Workers == listed - DeadIn(views, done + {id}, now)
    {
      HardOnMore(views, done, now, id);
      MinusOne(listed, DeadIn(views, done, now), id);
      if now - Workers[id].LastHeartbeat > 2 * HEARTBEAT_TIMEOUT && Workers[id].Status == Degraded {
        Mark(id, Offline);
      }
    }

    /** The first pass on one more worker that was found silent. */
    method SoftTimeout(id: string, now: int, ghost views: MonitorSpec.Workers, ghost done: set<string>,
                       ghost listed: Sched)
      requires Valid() && id in SilentIn(views, now) && id !in done
      requires Views == SoftOn(views, done, now) && sched.Workers == listed - done
      modifies this, Repr, sched
      ensures Valid() && Repr == old(Repr)
      ensures Views == SoftOn(views, done + {id}, now) && sched.Workers == listed - (done + {id})
    {
      SoftOnMore(views, done, now, id);
      MinusOne(listed, done, id);
      Mark(id, Degraded);
    }

    method SoftPass(now: int)
      requires Valid()
      modifies this, Repr, sched
      ensures Valid() && Repr == old(Repr)
      ensures Views == map id | id in old(Views) :: Soft(old(Views)[id], now)
      ensures sched.Workers == old(sched.Workers) - SilentIn(old(Views), now)
    {
      ghost var views, listed := Views, sched.Workers;
      ghost var done: set<string> := {};
      var lost := CollectSilent(now);
      var i := 0;
      SoftOnAll(views, now);
      while i < |lost|
        invariant 0 <= i <= |lost|
        invariant Valid() && Repr == old(Repr)
        invariant forall j | 0 <= j < |lost| :: lost[j] in done <==> j < i
        invariant done <= SilentIn(views, now)
        invariant Views == SoftOn(views, done, now)
        invariant sched.Workers == listed - done
      {
        SoftTimeout(lost[i], now, views, done, listed);
        done := done + {lost[i]};
        i := i + 1;
      }
      assert done == SilentIn(views, now);
    }

    method HardPass(now: int)
      requires Valid()
      modifies this, Repr, sched
      ensures Valid() && Repr == old(Repr)
      ensures Views == map id | id in old(Views) :: Hard(old(Views)[id], now)
      ensures sched.Workers == old(sched.Workers) - DeadIn(old(Views), old(Views).Keys, now)
    {
      ghost var views, listed := Views, sched.Workers;
      ghost var done: set<string> := {};
      var todo := Workers.Keys;
      HardOnAll(views, now);
      while todo != {}
        invariant Valid() && Repr == old(Repr)
        invariant todo !! done && todo + done == views.Keys
        invariant Views == HardOn(views, done, now)
        invariant sched.Workers == listed - DeadIn(views, done, now)
        decreases todo
      {
        var id :| id in todo;
        HardTimeout(id, now, views, done, listed);
        todo, done := todo - {id}, done + {id};
      }
      assert done == views.Keys;
    }

    method CheckHeartbeats(now: int)
      requires Valid()
      modifies this, Repr, sched
      ensures Valid() && Repr == old(Repr)
      ensures Views == Checked(old(Views), now)
      ensures sched.Workers == old(sched.Workers) - Lost(old(Views), now)
    {
      PassesAreCheck(Views, now, sched.Workers);
      SoftPass(now);
      HardPass(now);
    }
  }
}
