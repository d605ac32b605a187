/**
 * vgpu/server/grpc_server.go: a worker's session. Result channels hold at most one result and the
 * queue of outgoing messages at most 64; a send that finds no room is dropped or refused.
 */
module Session {
  import opened Common

  datatype TaskResult = TaskResult(taskId: Bytes, complete: bool)

  /** What the orchestrator sends to a worker. */
  datatype Message = Task(taskId: Bytes, inputs: seq<string>) | Buffer(bufferId: string, data: Bytes) | Other

  const SEND_BUFFER := 64

  /** `waiting` maps a task to the content of its result channel. */
  datatype SView = SView(connected: bool, tasks: set<Bytes>, waiting: map<Bytes, Option<TaskResult>>,
                         sendCh: seq<Message>, returned: map<string, Bytes>)

  const NEW_SESSION := SView(false, {}, map[], [], map[])

  predicate CanSend(s: SView) { s.connected && |s.sendCh| < SEND_BUFFER }

  function AfterSend(s: SView, msg: Message): SView { if CanSend(s) then s.(sendCh := s.sendCh + [msg]) else s }

  /** A refused task is taken out of the pending set again. */
  function AfterAssign(s: SView, id: Bytes, inputs: seq<string>): SView {
    if !s.connected then s
    else if |s.sendCh| < SEND_BUFFER then s.(tasks := s.tasks + {id}, sendCh := s.sendCh + [Task(id, inputs)])
    else s.(tasks := s.tasks - {id})
  }

  function AfterRegister(s: SView, id: Bytes): SView { s.(waiting := s.waiting[id := None]) }

  function AfterUnregister(s: SView, id: Bytes): SView { s.(waiting := s.waiting - {id}) }

  /** A result goes to the channel registered for it, unless there is none or it is full. */
  function AfterResult(s: SView, r: TaskResult): SView {
    s.(tasks := s.tasks - {r.taskId},
       waiting := if r.taskId in s.waiting && s.waiting[r.taskId] == None then s.waiting[r.taskId := Some(r)]
                  else s.waiting)
  }

  function AfterReturn(s: SView, bufferId: string, data: Bytes): SView { s.(returned := s.returned[bufferId := data]) }

  // ── The session object ──

  /** A channel with room for one result. */
  class ResultChan {
    const taskId: Bytes
    var slot: Option<TaskResult>

    constructor (taskId: Bytes)
      ensures this.taskId == taskId && slot == None
    {
      this.taskId, slot := taskId, None;
    }
  }

  class WorkerSession {
    var connected: bool
    var Tasks: set<Bytes>
    var taskResults: map<Bytes, ResultChan>
    var sendCh: seq<Message>
    var returnedBuffers: map<string, Bytes>
    ghost var View: SView
    ghost var Repr: set<ResultChan>

    ghost predicate Valid()
      reads this, Repr
    {
      && View.connected == connected && View.tasks == Tasks && View.sendCh == sendCh && View.returned == returnedBuffers
      && |sendCh| <= SEND_BUFFER
      && taskResults.Keys == View.waiting.Keys
      && forall id <- taskResults ::
           taskResults[id] in Repr && taskResults[id].taskId == id && taskResults[id].slot == View.waiting[id]
    }

    constructor ()
      ensures Valid() && View == NEW_SESSION && Repr == {}
    {
      connected, Tasks, taskResults, sendCh, returnedBuffers := false, {}, map[], [], map[];
      View, Repr := NEW_SESSION, {};
    }

    method AssignTask(id: Bytes, inputs: seq<string>) returns (ok: bool)
      requires Valid()
      modifies this
      ensures Valid() && Repr == old(Repr)
      ensures ok == CanSend(old(View)) && View == AfterAssign(old(View), id, inputs)
      ensures ok == (old(connected) && |old(sendCh)| < 64)
      ensures sendCh == old(sendCh) + if ok then [Task(id, inputs)] else []
      ensures Tasks == if ok then old(Tasks) + {id} else if connected then old(Tasks) - {id} else old(Tasks)
    {
      if !connected {
        return false;
      }
      View := AfterAssign(View, id, inputs);
      Tasks := Tasks + {id};
      if |sendCh| < SEND_BUFFER {
        sendCh := sendCh + [Task(id, inputs)];
        return true;
      }
      Tasks := Tasks - {id};
      return false;
    }

    method SendToWorker(msg: Message) returns (ok: bool)
      requires Valid()
      modifies this
      ensures Valid() && Repr == old(Repr)
      ensures ok == CanSend(old(View)) && View == AfterSend(old(View), msg)
      ensures ok == (old(connected) && |old(sendCh)| < 64)
      ensures sendCh == old(sendCh) + if ok then [msg] else []
    {
      if !connected {
        return false;
      }
      if |sendCh| < SEND_BUFFER {
        View := AfterSend(View, msg);
        sendCh := sendCh + [msg];
        return true;
      }
      return false;
    }

    /** The start of WaitForTaskResult: register a channel. */
    method Register(id: Bytes) returns (ch: ResultChan)
      requires Valid()
      modifies this
      ensures Valid() && Repr == old(Repr) + {ch} && fresh(ch)
      ensures View == AfterRegister(old(View), id)
      ensures taskResults == old(taskResults)[id := ch] && ch.taskId == id && ch.slot == None
    {
      ch := new ResultChan(id);
      taskResults := taskResults[id := ch];
      View := AfterRegister(View, id);
      Repr := Repr + {ch};
    }

    /** The end of WaitForTaskResult. */
    method Unregister(id: Bytes)
      requires Valid()
      modifies this
      ensures Valid() && Repr == old(Repr) && View == AfterUnregister(old(View), id)
      ensures taskResults == old(taskResults) - {id}
    {
      taskResults := taskResults - {id};
      View := AfterUnregister(View, id);
    }

    method HandleTaskResult(r: TaskResult)
      requires Valid()
      modifies this, Repr
      ensures Valid() && Repr == old(Repr) && View == AfterResult(old(View), r)
      ensures Tasks == old(Tasks) - {r.taskId} && taskResults == old(taskResults) && sendCh == old(sendCh)
      ensures forall id <- taskResults ::
                taskResults[id].slot == if id == r.taskId && old(taskResults[id].slot) == None then Some(r)
                                        else old(taskResults[id].slot)
    {
      Tasks := Tasks - {r.taskId};
      if r.taskId in taskResults {
        var ch := taskResults[r.taskId];
        if ch.slot == None {
          ch.slot := Some(r);
        }
      }
      View := AfterResult(View, r);
    }

    method HandleWorkerBufferTransfer(bufferId: string, data: Bytes)
      requires Valid()
      modifies this
      ensures Valid() && Repr == old(Repr) && View == AfterReturn(old(View), bufferId, data)
      ensures returnedBuffers == old(returnedBuffers)[bufferId := data]
    {
      returnedBuffers := returnedBuffers[bufferId := data];
      View := AfterReturn(View, bufferId, data);
    }

    method GetReturnedBuffers() returns (r: map<string, Bytes>)
      requires Valid()
      modifies this
      ensures Valid() && Repr == old(Repr)
      ensures r == old(View.returned) && View == old(View).(returned := map[])
      ensures r == old(returnedBuffers) && returnedBuffers == map[]
    {
      r := returnedBuffers;
      returnedBuffers := map[];
      View := View.(returned := map[]);
    }
  }
}
