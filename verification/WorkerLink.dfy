/**
 * The way from the orchestrator's send queue (vgpu/server/grpc_server.go) over the stream to the
 * worker's receive loop and its task goroutines (cmd/worker/agent/grpc_client.go), as steps.
 */
module WorkerLink {
  import opened Common
  import opened Session

  type Cache = map<string, Bytes>

  /** A task goroutine that has not read its inputs yet, and one that has. */
  datatype Spawned = Spawned(taskId: Bytes, inputs: seq<string>)
  datatype Read = Read(taskId: Bytes, got: Cache)

  /** `queue` is the session's send queue, `wire` what the stream holds; both are first in, first out. */
  datatype Link = Link(connected: bool, queue: seq<Message>, wire: seq<Message>, cache: Cache, spawned: seq<Spawned>,
                       taken: seq<Read>)

  datatype Op =
    | Send(msg: Message)
    | Transmit
    | Receive
    | ReadInputs(k: nat)
    | Connect(up: bool)

  predicate Accepts(l: Link) { l.connected && |l.queue| < SEND_BUFFER }

  /** The goroutines without the one that goes first. */
  function Without(spawned: seq<Spawned>, k: nat): seq<Spawned>
    requires k < |spawned|
  {
    spawned[..k] + spawned[k + 1..]
  }

  /** A transfer is stored before the next message is received; a task only starts a goroutine. */
  function Stored(cache: Cache, msg: Message): Cache { if msg.Buffer? then cache[msg.bufferId := msg.data] else cache }

  /** The input buffers that the cache has. */
  function Inputs(cache: Cache, inputs: seq<string>): Cache { map id | id in cache && id in inputs :: cache[id] }

  function Step(l: Link, op: Op): Link {
    match op
    case Send(msg) => if Accepts(l) then l.(queue := l.queue + [msg]) else l
    case Transmit => if l.queue == [] then l else l.(queue := l.queue[1..], wire := l.wire + [l.queue[0]])
    case Receive =>
      if l.wire == [] then l
      else
        var msg := l.wire[0];
        l.(wire := l.wire[1..], cache := Stored(l.cache, msg),
           spawned := if msg.Task? then l.spawned + [Spawned(msg.taskId, msg.inputs)] else l.spawned)
    case ReadInputs(k) =>
      if k >= |l.spawned| then l
      else
        l.(spawned := Without(l.spawned, k),
           taken := l.taken + [Read(l.spawned[k].taskId, Inputs(l.cache, l.spawned[k].inputs))])
    case Connect(up) => l.(connected := up)
  }

  function Run(l: Link, ops: seq<Op>): Link
    decreases |ops|
  {
    if ops == [] then l else Run(Step(l, ops[0]), ops[1..])
  }

  /** A run is its operations one after another. */
  lemma {:induction false} RunOneMore(l: Link, ops: seq<Op>, op: Op)
    ensures Run(l, []) == l && Run(l, ops + [op]) == Step(Run(l, ops), op)
    decreases |ops|
  {
    if ops == [] {
      assert ops + [op] == [op] && [op][1..] == [];
    } else {
      assert (ops + [op])[0] == ops[0] && (ops + [op])[1..] == ops[1..] + [op];
      RunOneMore(Step(l, ops[0]), ops[1..], op);
    }
  }

  /** A task's goroutine reads, whenever it runs, exactly its own inputs that the cache has then, and is gone. */
  lemma {:induction false} GoroutineReads(l: Link, k: nat)
    requires k < |l.spawned|
    ensures var after, goroutine, n := Step(l, ReadInputs(k)), l.spawned[k], |l.taken|;
      && |after.taken| == n + 1 && after.taken[..n] == l.taken && after.taken[n].taskId == goroutine.taskId
      && (forall id :: id in after.taken[n].got <==> id in goroutine.inputs && id in l.cache)
      && (forall id <- after.taken[n].got :: after.taken[n].got[id] == l.cache[id])
      && after.spawned == l.spawned[..k] + l.spawned[k + 1..]
      && after.cache == l.cache && after.wire == l.wire && after.queue == l.queue
  {
  }

  // ── What is under way ──

  /** All messages under way, oldest first. */
  function Pipe(l: Link): seq<Message> { l.wire + l.queue }

  /** The cache once these messages have been received. */
  function After(cache: Cache, msgs: seq<Message>): Cache {
    if msgs == [] then cache else Stored(After(cache, msgs[..|msgs| - 1]), msgs[|msgs| - 1])
  }

  lemma {:induction false} AfterFirst(cache: Cache, msgs: seq<Message>)
    requires msgs != []
    ensures After(cache, msgs) == After(Stored(cache, msgs[0]), msgs[1..])
    decreases |msgs|
  {
    if |msgs| > 1 {
      var n := |msgs| - 1;
      AfterFirst(cache, msgs[..n]);
      assert msgs[..n][1..] == msgs[1..][..n - 1];
    }
  }

  /** A message that does not change what the snapshot says about a buffer. */
  predicate Harmless(snapshot: Cache, msg: Message) {
    msg.Buffer? && msg.bufferId in snapshot ==> msg.data == snapshot[msg.bufferId]
  }

  /** No conflicting transfer is sent, and the task itself is sent only once. */
  predicate Quiet(snapshot: Cache, taskId: Bytes, op: Op) {
    op.Send? ==> Harmless(snapshot, op.msg) && !(op.msg.Task? && op.msg.taskId == taskId)
  }

  predicate AllHarmless(snapshot: Cache, msgs: seq<Message>) {
    forall i | 0 <= i < |msgs| :: Harmless(snapshot, msgs[i])
  }

  predicate Has(cache: Cache, snapshot: Cache, id: string) {
    id in cache && id in snapshot && cache[id] == snapshot[id]
  }

  /** The task is nowhere yet. */
  predicate Unseen(l: Link, taskId: Bytes) {
    && NoTask(Pipe(l), taskId)
    && NotSpawned(l.spawned, taskId)
    && NotTaken(l.taken, taskId)
  }

  predicate IsTask(msg: Message, taskId: Bytes) { msg.Task? && msg.taskId == taskId }

  predicate NoTask(msgs: seq<Message>, taskId: Bytes) { forall i | 0 <= i < |msgs| :: !IsTask(msgs[i], taskId) }

  predicate NotSpawned(spawned: seq<Spawned>, taskId: Bytes) {
    forall i | 0 <= i < |spawned| :: spawned[i].taskId != taskId
  }

  predicate NotTaken(taken: seq<Read>, taskId: Bytes) { forall i | 0 <= i < |taken| :: taken[i].taskId != taskId }

  /** Every goroutine that is left was there before. */
  lemma {:induction false} WithoutKeeps(spawned: seq<Spawned>, k: nat)
    requires k < |spawned|
    ensures forall i | 0 <= i < |Without(spawned, k)| :: Without(spawned, k)[i] == spawned[if i < k then i else i + 1]
  {
  }

  lemma {:induction false} NoTaskTail(msgs: seq<Message>, taskId: Bytes)
    requires msgs != [] && NoTask(msgs, taskId)
    ensures NoTask(msgs[1..], taskId) && !IsTask(msgs[0], taskId)
  {
    forall i | 0 <= i < |msgs[1..]| ensures !IsTask(msgs[1..][i], taskId) { assert msgs[1..][i] == msgs[i + 1]; }
  }

  lemma {:induction false} HarmlessTail(snapshot: Cache, msgs: seq<Message>)
    requires msgs != [] && AllHarmless(snapshot, msgs)
    ensures AllHarmless(snapshot, msgs[1..]) && Harmless(snapshot, msgs[0])
  {
    forall i | 0 <= i < |msgs[1..]| ensures Harmless(snapshot, msgs[1..][i]) { assert msgs[1..][i] == msgs[i + 1]; }
  }

  // ── Loading ──

  /** What a step does to the messages under way. */
  lemma {:induction false} PipeStep(l: Link, op: Op)
    ensures Pipe(Step(l, op)) ==
      if op.Send? && Accepts(l) then Pipe(l) + [op.msg]
      else if op.Receive? && l.wire != [] then Pipe(l)[1..]
      else Pipe(l)
    ensures l.wire != [] ==> Pipe(l) != [] && Pipe(l)[0] == l.wire[0]
  {
    if op.Transmit? && l.queue != [] {
      assert l.queue == [l.queue[0]] + l.queue[1..];
      assert (l.wire + [l.queue[0]]) + l.queue[1..] == l.wire + ([l.queue[0]] + l.queue[1..]);
    } else if op.Send? && Accepts(l) {
      assert l.wire + (l.queue + [op.msg]) == (l.wire + l.queue) + [op.msg];
    }
  }

  /** What is under way does not change when a message moves on. */
  lemma {:induction false} MovingKeepsEnd(l: Link, op: Op)
    requires !op.Send?
    ensures After(Step(l, op).cache, Pipe(Step(l, op))) == After(l.cache, Pipe(l))
  {
    PipeStep(l, op);
    if op.Receive? && l.wire != [] {
      AfterFirst(l.cache, Pipe(l));
    }
  }

  lemma {:induction false} AfterOneMore(cache: Cache, msgs: seq<Message>, msg: Message)
    ensures After(cache, msgs + [msg]) == Stored(After(cache, msgs), msg)
  {
    assert (msgs + [msg])[..|msgs|] == msgs;
  }

  /** A buffer that will be right once everything has arrived stays so under quiet steps. */
  lemma {:induction false} LoadedStays(l: Link, op: Op, snapshot: Cache, taskId: Bytes, id: string)
    requires Quiet(snapshot, taskId, op) && Has(After(l.cache, Pipe(l)), snapshot, id)
    ensures Has(After(Step(l, op).cache, Pipe(Step(l, op))), snapshot, id)
  {
    if op.Send? {
      if Accepts(l) {
        PipeStep(l, op);
        AfterOneMore(l.cache, Pipe(l), op.msg);
      }
    } else {
      MovingKeepsEnd(l, op);
    }
  }

  lemma {:induction false} UnseenStays(l: Link, op: Op, snapshot: Cache, taskId: Bytes)
    requires Quiet(snapshot, taskId, op) && Unseen(l, taskId)
    ensures Unseen(Step(l, op), taskId)
  {
    PipeStep(l, op);
    match op {
      case ReadInputs(k) =>
        if k < |l.spawned| { WithoutKeeps(l.spawned, k); }
      case Receive =>
        if l.wire != [] { NoTaskTail(Pipe(l), taskId); }
      case Send(msg) =>
        assert !IsTask(msg, taskId);
      case _ =>
    }
  }

  /** Transfer `id` is sent, and accepted, at some point of the run. */
  predicate SentIn(l: Link, ops: seq<Op>, snapshot: Cache, id: string)
    decreases |ops|
  {
    ops != [] && id in snapshot
    && ((ops[0] == Send(Buffer(id, snapshot[id])) && Accepts(l)) || SentIn(Step(l, ops[0]), ops[1..], snapshot, id))
  }

  predicate AllQuiet(snapshot: Cache, taskId: Bytes, ops: seq<Op>) {
    forall i | 0 <= i < |ops| :: Quiet(snapshot, taskId, ops[i])
  }

  lemma {:induction false} LoadedAfterRun(l: Link, ops: seq<Op>, snapshot: Cache, taskId: Bytes, id: string)
    requires AllQuiet(snapshot, taskId, ops)
    requires SentIn(l, ops, snapshot, id) || Has(After(l.cache, Pipe(l)), snapshot, id)
    ensures Has(After(Run(l, ops).cache, Pipe(Run(l, ops))), snapshot, id)
    decreases |ops|
  {
    if ops != [] {
      var next := Step(l, ops[0]);
      assert Quiet(snapshot, taskId, ops[0]);
      if Has(After(l.cache, Pipe(l)), snapshot, id) {
        LoadedStays(l, ops[0], snapshot, taskId, id);
      } else if ops[0] == Send(Buffer(id, snapshot[id])) && Accepts(l) {
        PipeStep(l, ops[0]);
        AfterOneMore(l.cache, Pipe(l), ops[0].msg);
      }
      LoadedAfterRun(next, ops[1..], snapshot, taskId, id);
    }
  }

  lemma {:induction false} UnseenAfterRun(l: Link, ops: seq<Op>, snapshot: Cache, taskId: Bytes)
    requires AllQuiet(snapshot, taskId, ops) && Unseen(l, taskId)
    ensures Unseen(Run(l, ops), taskId)
    decreases |ops|
  {
    if ops != [] {
      assert Quiet(snapshot, taskId, ops[0]);
      UnseenStays(l, ops[0], snapshot, taskId);
      UnseenAfterRun(Step(l, ops[0]), ops[1..], snapshot, taskId);
    }
  }

  // ── From the task message on ──

  /**
   * Position `k` under way is the task, everything before it makes the cache right, nothing after it makes it wrong.
   */
  predicate OnItsWay(l: Link, snapshot: Cache, taskId: Bytes, inputs: seq<string>, id: string, k: nat) {
    && k < |Pipe(l)| && Pipe(l)[k] == Task(taskId, inputs)
    && Has(After(l.cache, Pipe(l)[..k]), snapshot, id)
    && AllHarmless(snapshot, Pipe(l)[k..])
    && (forall i | 0 <= i < |Pipe(l)| && i != k :: !IsTask(Pipe(l)[i], taskId))
    && NotSpawned(l.spawned, taskId)
    && NotTaken(l.taken, taskId)
  }

  /** The task has arrived: the cache is right while its goroutine has not read it, and what it has read is right. */
  predicate Arrived(l: Link, snapshot: Cache, taskId: Bytes, inputs: seq<string>, id: string) {
    && Has(l.cache, snapshot, id) && AllHarmless(snapshot, Pipe(l)) && NoTask(Pipe(l), taskId)
    && (forall i | 0 <= i < |l.spawned| && l.spawned[i].taskId == taskId :: l.spawned[i].inputs == inputs)
    && (forall i | 0 <= i < |l.taken| && l.taken[i].taskId == taskId ::
          id in inputs ==> Has(l.taken[i].got, snapshot, id))
  }

  ghost predicate Safe(l: Link, snapshot: Cache, taskId: Bytes, inputs: seq<string>, id: string) {
    Arrived(l, snapshot, taskId, inputs, id) || exists k: nat :: OnItsWay(l, snapshot, taskId, inputs, id, k)
  }

  lemma {:induction false} SendOnItsWay(l: Link, msg: Message, snapshot: Cache, taskId: Bytes, inputs: seq<string>,
                                        id: string, k: nat)
    requires Quiet(snapshot, taskId, Send(msg)) && Accepts(l) && OnItsWay(l, snapshot, taskId, inputs, id, k)
    ensures OnItsWay(Step(l, Send(msg)), snapshot, taskId, inputs, id, k)
  {
    var old_, new_ := Pipe(l), Pipe(Step(l, Send(msg)));
    PipeStep(l, Send(msg));
    assert new_[..k] == old_[..k];
    assert new_[k..] == old_[k..] + [msg];
  }

  /** Steps that leave what is under way alone. */
  lemma {:induction false} StillOnItsWay(l: Link, op: Op, snapshot: Cache, taskId: Bytes, inputs: seq<string>,
                                         id: string, k: nat)
    requires OnItsWay(l, snapshot, taskId, inputs, id, k)
    requires Pipe(Step(l, op)) == Pipe(l) && Step(l, op).cache == l.cache
    ensures OnItsWay(Step(l, op), snapshot, taskId, inputs, id, k)
  {
    if op.ReadInputs? && op.k < |l.spawned| { WithoutKeeps(l.spawned, op.k); }
  }

  lemma {:induction false} SafeOnItsWay(l: Link, op: Op, snapshot: Cache, taskId: Bytes, inputs: seq<string>,
                                        id: string, k: nat)
    requires Quiet(snapshot, taskId, op) && OnItsWay(l, snapshot, taskId, inputs, id, k)
    ensures Safe(Step(l, op), snapshot, taskId, inputs, id)
  {
    PipeStep(l, op);
    if op.Send? && Accepts(l) {
      SendOnItsWay(l, op.msg, snapshot, taskId, inputs, id, k);
    } else if op.Receive? && l.wire != [] {
      ReceiveOnItsWay(l, snapshot, taskId, inputs, id, k);
    } else {
      StillOnItsWay(l, op, snapshot, taskId, inputs, id, k);
    }
  }

  lemma {:induction false} ReceiveOnItsWay(l: Link, snapshot: Cache, taskId: Bytes, inputs: seq<string>, id: string,
                                           k: nat)
    requires l.wire != [] && OnItsWay(l, snapshot, taskId, inputs, id, k)
    ensures Safe(Step(l, Receive), snapshot, taskId, inputs, id)
  {
    var next := Step(l, Receive);
    PipeStep(l, Receive);
    if k > 0 {
      AfterFirst(l.cache, Pipe(l)[..k]);
      assert Pipe(l)[..k][1..] == Pipe(next)[..k - 1];
      assert Pipe(l)[k..] == Pipe(next)[k - 1..];
      assert OnItsWay(next, snapshot, taskId, inputs, id, k - 1);
    } else {
      assert Pipe(l)[..0] == [];
      assert Pipe(l)[0..] == Pipe(l);
      assert Arrived(next, snapshot, taskId, inputs, id);
    }
  }

  lemma {:induction false} SafeArrived(l: Link, op: Op, snapshot: Cache, taskId: Bytes, inputs: seq<string>, id: string)
    requires Quiet(snapshot, taskId, op) && Arrived(l, snapshot, taskId, inputs, id)
    ensures Arrived(Step(l, op), snapshot, taskId, inputs, id)
  {
    PipeStep(l, op);
    match op {
      case ReadInputs(k) =>
        if k < |l.spawned| { ReadArrived(l, k, snapshot, taskId, inputs, id); }
      case Receive =>
        if l.wire != [] {
          NoTaskTail(Pipe(l), taskId);
          HarmlessTail(snapshot, Pipe(l));
        }
      case _ =>
    }
  }

  lemma {:induction false} ReadArrived(l: Link, k: nat, snapshot: Cache, taskId: Bytes, inputs: seq<string>,
                                       id: string)
    requires k < |l.spawned| && Arrived(l, snapshot, taskId, inputs, id)
    ensures Arrived(Step(l, ReadInputs(k)), snapshot, taskId, inputs, id)
  {
    GoroutineReads(l, k);
    WithoutKeeps(l.spawned, k);
  }

  lemma {:induction false} SafeRun(l: Link, ops: seq<Op>, snapshot: Cache, taskId: Bytes, inputs: seq<string>,
                                   id: string)
    requires AllQuiet(snapshot, taskId, ops) && Safe(l, snapshot, taskId, inputs, id)
    ensures Safe(Run(l, ops), snapshot, taskId, inputs, id)
    decreases |ops|
  {
    if ops != [] {
      assert Quiet(snapshot, taskId, ops[0]);
      if Arrived(l, snapshot, taskId, inputs, id) {
        SafeArrived(l, ops[0], snapshot, taskId, inputs, id);
      } else {
        var k: nat :| OnItsWay(l, snapshot, taskId, inputs, id, k);
        SafeOnItsWay(l, ops[0], snapshot, taskId, inputs, id, k);
      }
      SafeRun(Step(l, ops[0]), ops[1..], snapshot, taskId, inputs, id);
    }
  }

  /** Whatever the task's goroutine has read of buffer `id` is the snapshot's. */
  predicate ReadRight(l: Link, snapshot: Cache, taskId: Bytes, id: string) {
    forall i | 0 <= i < |l.taken| && l.taken[i].taskId == taskId ::
      id in l.taken[i].got && id in snapshot && l.taken[i].got[id] == snapshot[id]
  }

  /**
   * Inputs precede tasks. Whatever was under way before, if in `loading` the snapshot's transfer of a buffer was
   * sent and accepted, the task was then sent and accepted, and nothing sent since the loading began conflicts
   * with the snapshot, then the inputs the task's goroutine reads, however late, hold the snapshot's bytes of it.
   */
  lemma {:induction false} InputsPrecedeTask(l: Link, loading: seq<Op>, later: seq<Op>, snapshot: Cache, taskId: Bytes,
                                             inputs: seq<string>, id: string)
    requires Unseen(l, taskId) && AllQuiet(snapshot, taskId, loading) && AllQuiet(snapshot, taskId, later)
    requires SentIn(l, loading, snapshot, id) && id in inputs && Accepts(Run(l, loading))
    ensures ReadRight(Run(Step(Run(l, loading), Send(Task(taskId, inputs))), later), snapshot, taskId, id)
  {
    var loaded := Run(l, loading);
    var sent := Step(loaded, Send(Task(taskId, inputs)));
    LoadedAfterRun(l, loading, snapshot, taskId, id);
    UnseenAfterRun(l, loading, snapshot, taskId);
    PipeStep(loaded, Send(Task(taskId, inputs)));
    var k := |Pipe(loaded)|;
    assert Pipe(sent)[..k] == Pipe(loaded) && Pipe(sent)[k..] == [Task(taskId, inputs)];
    assert OnItsWay(sent, snapshot, taskId, inputs, id, k);
    SafeRun(sent, later, snapshot, taskId, inputs, id);
  }

  /** The dispatcher's transfers as steps. */
  function Sends(order: seq<string>, data: Cache): (r: seq<Op>)
    requires forall i | 0 <= i < |order| :: order[i] in data
    ensures |r| == |order| && forall i | 0 <= i < |r| :: r[i] == Send(Buffer(order[i], data[order[i]]))
  {
    seq(|order|, i requires 0 <= i < |order| => Send(Buffer(order[i], data[order[i]])))
  }

  lemma {:induction false} MoreSends(order: seq<string>, data: Cache)
    requires order != [] && forall i | 0 <= i < |order| :: order[i] in data
    ensures Sends(order, data)[1..] == Sends(order[1..], data)
  {
    var ops, rest := Sends(order, data), Sends(order[1..], data);
    assert |ops[1..]| == |rest|;
    forall k | 0 <= k < |rest| ensures ops[1..][k] == rest[k] {
      assert order[1..][k] == order[k + 1];
    }
  }

  lemma {:induction false} AllAccepted(l: Link, order: seq<string>, data: Cache)
    requires l.connected && |l.queue| + |order| <= SEND_BUFFER && forall i | 0 <= i < |order| :: order[i] in data
    ensures var after := Run(l, Sends(order, data)); after.connected && |after.queue| == |l.queue| + |order|
    ensures forall i | 0 <= i < |order| :: SentIn(l, Sends(order, data), data, order[i])
    decreases |order|
  {
    if order != [] {
      var ops, next := Sends(order, data), Step(l, Sends(order, data)[0]);
      MoreSends(order, data);
      AllAccepted(next, order[1..], data);
      forall i | 0 <= i < |order| ensures SentIn(l, ops, data, order[i]) {
        if i > 0 { assert order[1..][i - 1] == order[i]; }
      }
    }
  }

  /**
   * The dispatcher's own case: with room in the queue for all transfers and the task, sent one after the other,
   * the task reads the snapshot of each of its inputs that could be read, unless something conflicting follows.
   */
  lemma {:induction false} RoomSuffices(l: Link, order: seq<string>, later: seq<Op>, data: Cache, taskId: Bytes,
                                        inputs: seq<string>)
    requires Unseen(l, taskId) && l.connected && |l.queue| + |order| < SEND_BUFFER && AllQuiet(data, taskId, later)
    requires forall i | 0 <= i < |order| :: order[i] in data
    requires forall id <- data :: id in order
    ensures forall id | id in inputs && id in data ::
      ReadRight(Run(Step(Run(l, Sends(order, data)), Send(Task(taskId, inputs))), later), data, taskId, id)
  {
    AllAccepted(l, order, data);
    forall id | id in inputs && id in data
      ensures ReadRight(Run(Step(Run(l, Sends(order, data)), Send(Task(taskId, inputs))), later), data, taskId, id)
    {
      InputsPrecedeTask(l, Sends(order, data), later, data, taskId, inputs, id);
    }
  }

  /** The queue of this model is the session's. */
  lemma {:induction false} QueueIsSessions(l: Link, s: SView, msg: Message)
    requires l.connected == s.connected && l.queue == s.sendCh && |s.sendCh| <= SEND_BUFFER
    ensures Step(l, Send(msg)).queue == AfterSend(s, msg).sendCh
    ensures msg.Task? ==> Step(l, Send(msg)).queue == AfterAssign(s, msg.taskId, msg.inputs).sendCh
  {
  }

  /** One conflicting transfer sent in between is enough to break it: the later data is read. */
  lemma {:induction false} ConflictIsRead(id: string, data: Bytes, other: Bytes, taskId: Bytes)
    ensures var start := Link(true, [], [], map[], [], []);
      var ops := [Send(Buffer(id, data)), Send(Buffer(id, other)), Send(Task(taskId, [id]))]
               + ([Transmit, Transmit, Transmit] + ([Receive, Receive, Receive] + [ReadInputs(0)]));
      Run(start, ops).taken == [Read(taskId, map[id := other])]
  {
    var m1, m2, m3 := Buffer(id, data), Buffer(id, other), Task(taskId, [id]);
    var start := Link(true, [], [], map[], [], []);
    var queued := Link(true, [m1, m2, m3], [], map[], [], []);
    var onWire := Link(true, [], [m1, m2, m3], map[], [], []);
    var arrived := Link(true, [], [], map[id := other], [Spawned(taskId, [id])], []);
    var final := [ReadInputs(0)];
    Three(start, Send(m1), Send(m2), Send(m3), [Transmit, Transmit, Transmit] + ([Receive, Receive, Receive] + final));
    ThreeQueued(m1, m2, m3);
    Three(queued, Transmit, Transmit, Transmit, [Receive, Receive, Receive] + final);
    ThreeTransmitted(m1, m2, m3);
    Three(onWire, Receive, Receive, Receive, final);
    ThreeReceived(id, data, other, taskId);
    assert final[1..] == [];
    assert Run(arrived, final) == Step(arrived, ReadInputs(0));
    assert Inputs(arrived.cache, [id]) == map[id := other];
  }

  lemma {:induction false} ThreeQueued(m1: Message, m2: Message, m3: Message)
    ensures var start := Link(true, [], [], map[], [], []);
            Step(Step(Step(start, Send(m1)), Send(m2)), Send(m3)) == start.(queue := [m1, m2, m3])
  {
  }

  lemma {:induction false} ThreeTransmitted(m1: Message, m2: Message, m3: Message)
    ensures var queued := Link(true, [m1, m2, m3], [], map[], [], []);
            Step(Step(Step(queued, Transmit), Transmit), Transmit) == queued.(queue := [], wire := [m1, m2, m3])
  {
    var l1 := Step(Link(true, [m1, m2, m3], [], map[], [], []), Transmit);
    assert l1.queue == [m2, m3] && l1.wire == [m1];
    var l2 := Step(l1, Transmit);
    assert l2.queue == [m3] && l2.wire == [m1, m2];
  }

  lemma {:induction false} ThreeReceived(id: string, data: Bytes, other: Bytes, taskId: Bytes)
    ensures var onWire := Link(true, [], [Buffer(id, data), Buffer(id, other), Task(taskId, [id])], map[], [], []);
            Step(Step(Step(onWire, Receive), Receive), Receive)
            == Link(true, [], [], map[id := other], [Spawned(taskId, [id])], [])
  {
    var l1 := Step(Link(true, [], [Buffer(id, data), Buffer(id, other), Task(taskId, [id])], map[], [], []), Receive);
    assert l1.wire == [Buffer(id, other), Task(taskId, [id])];
    var l2 := Step(l1, Receive);
    assert l2.wire == [Task(taskId, [id])] && l2.cache == map[id := other];
  }

  lemma {:induction false} Three(l: Link, a: Op, b: Op, c: Op, rest: seq<Op>)
    ensures Run(l, [a, b, c] + rest) == Run(Step(Step(Step(l, a), b), c), rest)
  {
    var l1 := Step(l, a);
    var l2 := Step(l1, b);
    assert ([a, b, c] + rest)[1..] == [b, c] + rest;
    assert Run(l, [a, b, c] + rest) == Run(l1, [b, c] + rest);
    assert ([b, c] + rest)[1..] == [c] + rest;
    assert Run(l1, [b, c] + rest) == Run(l2, [c] + rest);
    assert ([c] + rest)[1..] == rest;
  }

  // ── The two ends ──

  function Transfers(order: seq<string>, data: Cache): (r: seq<Message>)
    requires forall i | 0 <= i < |order| :: order[i] in data
    ensures |r| == |order| && forall i | 0 <= i < |order| :: r[i] == Buffer(order[i], data[order[i]])
  {
    seq(|order|, i requires 0 <= i < |order| => Buffer(order[i], data[order[i]]))
  }

  /**
   * The dispatcher's transfer loop for one worker, in the order of a map: all accepted transfers end up in the queue,
   * each once.
   */
  method SendInputs(ws: WorkerSession, bufferData: Cache) returns (allSent: bool, ghost order: seq<string>)
    requires ws.Valid()
    modifies ws
    ensures ws.Valid() && ws.Repr == old(ws.Repr)
    ensures forall i | 0 <= i < |order| :: order[i] in bufferData
    ensures forall i, j | 0 <= i < j < |order| :: order[i] != order[j]
    ensures ws.View == old(ws.View).(sendCh := old(ws.View.sendCh) + Transfers(order, bufferData))
    ensures allSent <==> forall id <- bufferData :: id in order
    ensures ws.View.connected && |old(ws.View.sendCh)| + |bufferData| <= SEND_BUFFER ==> allSent
  {
    allSent, order := true, [];
    var todo := bufferData.Keys;
    assert Transfers(order, bufferData) == [];
    while todo != {}
      invariant ws.Valid() && ws.Repr == old(ws.Repr) && todo <= bufferData.Keys
      invariant forall i | 0 <= i < |order| :: order[i] in bufferData && order[i] !in todo
      invariant forall i, j | 0 <= i < j < |order| :: order[i] != order[j]
      invariant ws.View == old(ws.View).(sendCh := old(ws.View.sendCh) + Transfers(order, bufferData))
      invariant allSent <==> forall id <- bufferData | id !in todo :: id in order
      invariant |order| + |todo| <= |bufferData|
      invariant ws.View.connected && |old(ws.View.sendCh)| + |bufferData| <= SEND_BUFFER ==> allSent
      decreases todo
    {
      var id :| id in todo;
      var sent := ws.SendToWorker(Buffer(id, bufferData[id]));
      todo := todo - {id};
      if sent {
        assert Transfers(order + [id], bufferData) == Transfers(order, bufferData) + [Buffer(id, bufferData[id])];
        order := order + [id];
      } else {
        allSent := false;
      }
    }
  }

  /** cmd/worker/agent/grpc_client.go: the receive loop's state. */
  class GRPCWorkerClient {
    var bufferCache: Cache
    /** Task goroutines that have not read their inputs. */
    var spawned: seq<Spawned>

    constructor ()
      ensures bufferCache == map[] && spawned == []
    {
      bufferCache, spawned := map[], [];
    }

    /** One turn of the receive loop. */
    method HandleMessage(msg: Message)
      modifies this
      ensures forall l: Link
                | l.wire != [] && l.wire[0] == msg && l.cache == old(bufferCache) && l.spawned == old(spawned) ::
        bufferCache == Step(l, Receive).cache && spawned == Step(l, Receive).spawned
    {
      match msg {
        case Task(taskId, inputs) => spawned := spawned + [Spawned(taskId, inputs)];
        case Buffer(bufferId, data) => bufferCache := bufferCache[bufferId := data];
        case Other =>
      }
    }

    /** The inputs a task goroutine collects from the cache. */
    method InputBuffers(inputs: seq<string>) returns (r: Cache)
      ensures r == Inputs(bufferCache, inputs)
      ensures forall id :: id in r <==> id in inputs && id in bufferCache
      ensures forall id <- r :: r[id] == bufferCache[id]
    {
      r := map[];
      for i := 0 to |inputs|
        invariant r == Inputs(bufferCache, inputs[..i])
      {
        assert inputs[..i + 1] == inputs[..i] + [inputs[i]];
        if inputs[i] in bufferCache {
          r := r[inputs[i] := bufferCache[inputs[i]]];
        }
      }
      assert inputs[..|inputs|] == inputs;
    }
  }
}