/**
 Concurrent queries over the shared pool. Tasks interleave at every await; the upstream and the network answer, stay
 silent or fail as they like.
 */
module PoolProtocol {
  import opened Bytes
  import opened Pool

  type TaskId = nat

  /** A query as the wire sees it: the task that issued it and its DNS id. */
  datatype Request = Request(task: TaskId, id: u16)

  /** A reply waiting in a socket: the task whose request it answers and the id it carries. */
  datatype Reply = Reply(to: TaskId, id: u16)

  datatype Transport = Udp | Tcp

  /** What is under way on a socket, and how many requests it ever carried. */
  datatype Traffic = Traffic(transport: Transport, unanswered: seq<Request>, inbox: seq<Reply>, carried: nat)

  /** `via` is the socket that brought the result. */
  datatype Task =
    | Ready(socket: Socket, transport: Transport, request: Request, own: bool, attempts: nat)
    | Waiting(socket: Socket, transport: Transport, request: Request, own: bool, attempts: nat)
    | Holding(socket: Socket, transport: Transport, request: Request, reply: Reply, attempts: nat)
    | Connecting(request: Request, attempts: nat)
    | Done(transport: Transport, request: Request, result: Option<Reply>, attempts: nat, via: Option<Socket>)

  datatype Owner = InUdpPool | InTcpPool | HeldBy(task: TaskId) | Discarded

  datatype State = State(udpPool: seq<Socket>, tcpPool: seq<Socket>, tasks: map<TaskId, Task>,
                         net: map<Socket, Traffic>, owner: map<Socket, Owner>)

  const INITIAL: State := State([], [], map[], map[], map[])

  datatype Event =
    | StartUdp(t: TaskId, id: u16, bound: Option<Socket>)
    | StartTcp(t: TaskId, id: u16)
    | Connect(t: TaskId, connected: Option<Socket>)
    | Send(t: TaskId)
    | SendFails(t: TaskId, leaked: bool)
    | Receive(t: TaskId)
    | ReceiveFails(t: TaskId)
    | Return(t: TaskId)
    | Answer(s: Socket, which: nat, id: u16)
    | Stray(s: Socket, reply: Reply)

  function HeldSocket(task: Task): Option<Socket> {
    if task.Ready? || task.Waiting? || task.Holding? then Some(task.socket) else None
  }

  // ----- steps

  predicate Fresh(st: State, s: Option<Socket>) {
    s.Some? ==> s.value !in st.net && s.value !in st.owner
  }

  predicate Enabled(st: State, e: Event) {
    match e
    case StartUdp(t, _, bound) => t !in st.tasks && Fresh(st, bound)
    case StartTcp(t, _) => t !in st.tasks
    case Connect(t, connected) => t in st.tasks && st.tasks[t].Connecting? && Fresh(st, connected)
    case Send(t) => t in st.tasks && st.tasks[t].Ready? && st.tasks[t].socket in st.net
    case SendFails(t, _) => t in st.tasks && st.tasks[t].Ready? && st.tasks[t].socket in st.net
    case Receive(t) =>
      t in st.tasks && st.tasks[t].Waiting? && st.tasks[t].socket in st.net && st.net[st.tasks[t].socket].inbox != []
    case ReceiveFails(t) => t in st.tasks && st.tasks[t].Waiting?
    case Return(t) => t in st.tasks && st.tasks[t].Holding?
    case Answer(s, which, _) => s in st.net && which < |st.net[s].unanswered|
    case Stray(s, _) => s in st.net
  }

  /** The upstream sends at most one reply to a request; a stray reply is any other. */
  predicate Honest(e: Event) {
    !e.Stray?
  }

  function Opened(st: State, t: TaskId, s: Socket, transport: Transport, request: Request, attempts: nat): State {
    st.(tasks := st.tasks[t := Ready(s, transport, request, true, attempts)],
        net := st.net[s := Traffic(transport, [], [], 0)],
        owner := st.owner[s := HeldBy(t)])
  }

  function Sent(st: State, s: Socket, request: Request): State
    requires s in st.net
  {
    var traffic := st.net[s];
    st.(net := st.net[s := traffic.(unanswered := traffic.unanswered + [request], carried := traffic.carried + 1)])
  }

  /** Drop a socket after a failure: a pooled TCP connection is retried on a connection of its own, all else fails. */
  function Failed(st: State, t: TaskId, task: Task, attempts: nat): State
    requires task.Ready? || task.Waiting?
  {
    st.(tasks := st.tasks[t := if task.transport.Tcp? && !task.own then Connecting(task.request, attempts)
                               else Done(task.transport, task.request, None, attempts, None)],
        owner := st.owner[task.socket := Discarded])
  }

  function Do(st: State, e: Event): State
    requires Enabled(st, e)
  {
    match e
    case StartUdp(t, id, bound) =>
      var request := Request(t, id);
      var (pooled, rest) := Popped(st.udpPool);
      if pooled.Some? then
        st.(udpPool := rest, tasks := st.tasks[t := Ready(pooled.value, Udp, request, false, 0)],
            owner := st.owner[pooled.value := HeldBy(t)])
      else if bound.None? then st.(tasks := st.tasks[t := Done(Udp, request, None, 0, None)])
      else Opened(st, t, bound.value, Udp, request, 0)
    case StartTcp(t, id) =>
      var request := Request(t, id);
      var (pooled, rest) := Popped(st.tcpPool);
      if pooled.Some? then
        st.(tcpPool := rest, tasks := st.tasks[t := Ready(pooled.value, Tcp, request, false, 0)],
            owner := st.owner[pooled.value := HeldBy(t)])
      else st.(tasks := st.tasks[t := Connecting(request, 0)])
    case Connect(t, connected) =>
      var task := st.tasks[t];
      if connected.None? then st.(tasks := st.tasks[t := Done(Tcp, task.request, None, task.attempts, None)])
      else Opened(st, t, connected.value, Tcp, task.request, task.attempts)
    case Send(t) =>
      var task := st.tasks[t];
      Sent(st, task.socket, task.request).(
        tasks := st.tasks[t := Waiting(task.socket, task.transport, task.request, task.own, task.attempts + 1)])
    case SendFails(t, leaked) =>
      var task := st.tasks[t];
      Failed(if leaked then Sent(st, task.socket, task.request) else st, t, task, task.attempts + 1)
    case Receive(t) =>
      var task := st.tasks[t];
      var traffic := st.net[task.socket];
      var reply := traffic.inbox[0];
      var st' := st.(net := st.net[task.socket := traffic.(inbox := traffic.inbox[1..])]);
      if task.transport.Udp? && reply.id != task.request.id then Failed(st', t, task, task.attempts)
      else st'.(tasks := st.tasks[t := Holding(task.socket, task.transport, task.request, reply, task.attempts)])
    case ReceiveFails(t) => Failed(st, t, st.tasks[t], st.tasks[t].attempts)
    case Return(t) =>
      var task := st.tasks[t];
      var pool := if task.transport.Udp? then st.udpPool else st.tcpPool;
      var cap := if task.transport.Udp? then UDP_POOL_CAP else TCP_POOL_CAP;
      var pool' := Pushed(pool, task.socket, cap);
      var kept := if task.transport.Udp? then InUdpPool else InTcpPool;
      st.(udpPool := if task.transport.Udp? then pool' else st.udpPool,
          tcpPool := if task.transport.Udp? then st.tcpPool else pool',
          tasks := st.tasks[t :=
            Done(task.transport, task.request, Some(task.reply), task.attempts, Some(task.socket))],
          owner := st.owner[task.socket := if |pool| < cap then kept else Discarded])
    case Answer(s, which, id) =>
      var traffic := st.net[s];
      st.(net := st.net[s := traffic.(
                   unanswered := traffic.unanswered[..which] + traffic.unanswered[which + 1..],
                   inbox := traffic.inbox + [Reply(traffic.unanswered[which].task, id)])])
    case Stray(s, reply) =>
      st.(net := st.net[s := st.net[s].(inbox := st.net[s].inbox + [reply])])
  }

  /** A run: events each enabled where they happen. */
  ghost predicate Run(st: State, events: seq<Event>)
    decreases |events|
  {
    events == [] || (Enabled(st, events[0]) && Run(Do(st, events[0]), events[1..]))
  }

  function After(st: State, events: seq<Event>): State
    requires Run(st, events)
    decreases |events|
  {
    if events == [] then st else After(Do(st, events[0]), events[1..])
  }

  // ----- ownership and bounds, whatever the upstream does

  predicate Distinct(pool: seq<Socket>) {
    forall i, j :: 0 <= i < j < |pool| ==> pool[i] != pool[j]
  }

  /** Every socket ever created has one owner, and the owner knows it. */
  ghost predicate Owned(st: State) {
    && st.owner.Keys == st.net.Keys
    && Distinct(st.udpPool) && Distinct(st.tcpPool)
    && (forall s :: s in st.udpPool <==> s in st.owner && st.owner[s] == InUdpPool)
    && (forall s :: s in st.tcpPool <==> s in st.owner && st.owner[s] == InTcpPool)
    && (forall t <- st.tasks :: HeldSocket(st.tasks[t]).Some? ==>
          HeldSocket(st.tasks[t]).value in st.owner && st.owner[HeldSocket(st.tasks[t]).value] == HeldBy(t))
    && (forall s <- st.owner :: st.owner[s].HeldBy? ==>
          st.owner[s].task in st.tasks && HeldSocket(st.tasks[st.owner[s].task]) == Some(s))
  }

  ghost predicate Bounded(st: State) {
    |st.udpPool| <= UDP_POOL_CAP && |st.tcpPool| <= TCP_POOL_CAP
  }

  /** Each task's own record: its request bears its name, and a TCP query is tried at most twice, again only afresh. */
  predicate TaskSound(st: State, t: TaskId, task: Task) {
    && task.request.task == t
    && (match task
        case Ready(s, transport, _, own, attempts) =>
          && (transport.Udp? ==> attempts == 0)
          && (if own then attempts <= 1 else attempts == 0)
          && s in st.net && st.net[s].transport == transport && (own ==> st.net[s].carried == 0)
        case Waiting(s, transport, _, own, attempts) =>
          && (transport.Udp? ==> attempts == 1)
          && (if own then 1 <= attempts <= 2 else attempts == 1)
          && s in st.net && st.net[s].transport == transport && (own ==> st.net[s].carried == 1)
        case Holding(s, transport, request, reply, attempts) =>
          && 1 <= attempts <= 2 && (transport.Udp? ==> attempts == 1 && reply.id == request.id)
          && s in st.net && st.net[s].transport == transport && (attempts == 2 ==> st.net[s].carried == 1)
        case Connecting(_, attempts) => attempts <= 1
        case Done(transport, request, result, attempts, via) =>
          && (via.Some? <==> result.Some?) && attempts <= 2 && (transport.Udp? ==> attempts <= 1)
          && (transport.Udp? && result.Some? ==> result.value.id == request.id && attempts == 1))
  }

  ghost predicate TasksSound(st: State) {
    forall t <- st.tasks :: TaskSound(st, t, st.tasks[t])
  }

  /** A pool only holds sockets of its own transport. */
  ghost predicate Sorted(st: State) {
    && (forall s <- st.udpPool :: s in st.net && st.net[s].transport == Udp)
    && (forall s <- st.tcpPool :: s in st.net && st.net[s].transport == Tcp)
  }

  ghost predicate Safe(st: State) {
    Owned(st) && Bounded(st) && TasksSound(st) && Sorted(st)
  }

  // ----- no cross-talk, on a socket that gets no stray reply

  /** The upstream sends the socket nothing but one reply to each request it carried. */
  predicate HonestOn(e: Event, s: Socket) {
    !(e.Stray? && e.s == s)
  }

  /** Nothing is under way on an idle socket, and on a busy one only its borrower's request or the reply to it. */
  predicate Quiet(traffic: Traffic) {
    traffic.unanswered == [] && traffic.inbox == []
  }

  predicate OnlyOwn(traffic: Traffic, request: Request) {
    || (traffic.unanswered == [request] && traffic.inbox == [])
    || (traffic.unanswered == [] && |traffic.inbox| == 1 && traffic.inbox[0].to == request.task)
  }

  /** What the socket `s` may carry while the task has it, and what the task has from it. */
  predicate TaskPrivateOn(st: State, t: TaskId, task: Task, s: Socket) {
    match task
    case Ready(x, _, _, _, _) => x == s ==> s in st.net && Quiet(st.net[s])
    case Waiting(x, _, request, _, _) => x == s ==> s in st.net && OnlyOwn(st.net[s], request)
    case Holding(x, _, _, reply, _) => x == s ==> s in st.net && Quiet(st.net[s]) && reply.to == t
    case Connecting(_, _) => true
    case Done(_, _, result, _, via) => via == Some(s) && result.Some? ==> result.value.to == t
  }

  ghost predicate PrivateOn(st: State, s: Socket) {
    && (s in st.udpPool || s in st.tcpPool ==> s in st.net && Quiet(st.net[s]))
    && (forall t <- st.tasks :: TaskPrivateOn(st, t, st.tasks[t], s))
  }

  ghost predicate Private(st: State) {
    forall s: Socket :: PrivateOn(st, s)
  }

  // ----- ownership, by the way an event moves a socket

  /** The event moves no socket. */
  lemma OwnedUnmoved(st: State, st': State)
    requires Owned(st)
    requires st'.udpPool == st.udpPool && st'.tcpPool == st.tcpPool && st'.owner == st.owner
    requires st'.net.Keys == st.net.Keys && st.tasks.Keys <= st'.tasks.Keys
    requires forall t <- st'.tasks ::
               HeldSocket(st'.tasks[t]) == if t in st.tasks then HeldSocket(st.tasks[t]) else None
    ensures Owned(st')
  {
  }

  /** A task drops its socket. */
  lemma OwnedDropped(st: State, st': State, t: TaskId, s: Socket, task: Task)
    requires Owned(st) && t in st.tasks && HeldSocket(st.tasks[t]) == Some(s) && HeldSocket(task) == None
    requires st'.udpPool == st.udpPool && st'.tcpPool == st.tcpPool && st'.net.Keys == st.net.Keys
    requires st'.owner == st.owner[s := Discarded] && st'.tasks == st.tasks[t := task]
    ensures Owned(st')
  {
  }

  /** A task takes the last socket of a pool. */
  lemma OwnedTaken(st: State, st': State, t: TaskId, s: Socket, task: Task)
    requires Owned(st) && t !in st.tasks && HeldSocket(task) == Some(s)
    requires st'.net == st.net && st'.owner == st.owner[s := HeldBy(t)] && st'.tasks == st.tasks[t := task]
    requires
      || (st.udpPool != [] && Popped(st.udpPool) == (Some(s), st'.udpPool) && st'.tcpPool == st.tcpPool)
      || (st.tcpPool != [] && Popped(st.tcpPool) == (Some(s), st'.tcpPool) && st'.udpPool == st.udpPool)
    ensures Owned(st')
  {
    if st'.tcpPool == st.tcpPool && st.udpPool != [] && Popped(st.udpPool) == (Some(s), st'.udpPool) {
      LastLeaves(st.udpPool);
    } else {
      LastLeaves(st.tcpPool);
    }
  }

  lemma LastLeaves(pool: seq<Socket>)
    requires pool != [] && Distinct(pool)
    ensures Distinct(pool[..|pool| - 1]) && pool[|pool| - 1] in pool
    ensures forall s :: s in pool[..|pool| - 1] <==> s in pool && s != pool[|pool| - 1]
  {
    assert pool == pool[..|pool| - 1] + [pool[|pool| - 1]];
  }

  /** A task opens a socket of its own. */
  lemma OwnedOpened(st: State, st': State, t: TaskId, s: Socket, task: Task)
    requires Owned(st) && s !in st.owner && HeldSocket(task) == Some(s)
    requires t in st.tasks ==> HeldSocket(st.tasks[t]) == None
    requires st'.udpPool == st.udpPool && st'.tcpPool == st.tcpPool && st'.net.Keys == st.net.Keys + {s}
    requires st'.owner == st.owner[s := HeldBy(t)] && st'.tasks == st.tasks[t := task]
    ensures Owned(st')
  {
  }

  /** A task gives its socket back, or drops it when the pool is full. */
  lemma OwnedReturned(st: State, t: TaskId)
    requires Owned(st) && Enabled(st, Return(t))
    ensures Owned(Do(st, Return(t)))
  {
    var task := st.tasks[t];
    var st' := Do(st, Return(t));
    var pool := if task.transport.Udp? then st.udpPool else st.tcpPool;
    assert st.owner[task.socket] == HeldBy(t);
    assert task.socket !in pool;
    assert forall x :: x in pool + [task.socket] <==> x in pool || x == task.socket;
    assert HeldSocket(st'.tasks[t]) == None;
  }

  lemma OwnedStep(st: State, e: Event)
    requires Owned(st) && Enabled(st, e)
    ensures Owned(Do(st, e))
  {
    hide Owned;
    var st' := Do(st, e);
    match e
    case StartUdp(t, id, bound) =>
      var (pooled, rest) := Popped(st.udpPool);
      if pooled.Some? {
        OwnedTaken(st, st', t, pooled.value, st'.tasks[t]);
      } else if bound.None? {
        OwnedUnmoved(st, st');
      } else {
        OwnedOpened(st, st', t, bound.value, st'.tasks[t]);
      }
    case StartTcp(t, id) =>
      var (pooled, rest) := Popped(st.tcpPool);
      if pooled.Some? {
        OwnedTaken(st, st', t, pooled.value, st'.tasks[t]);
      } else {
        OwnedUnmoved(st, st');
      }
    case Connect(t, connected) =>
      if connected.None? {
        OwnedUnmoved(st, st');
      } else {
        OwnedOpened(st, st', t, connected.value, st'.tasks[t]);
      }
    case Send(t) => OwnedUnmoved(st, st');
    case SendFails(t, leaked) => OwnedDropped(st, st', t, st.tasks[t].socket, st'.tasks[t]);
    case Receive(t) =>
      if st'.tasks[t].Holding? {
        OwnedUnmoved(st, st');
      } else {
        OwnedDropped(st, st', t, st.tasks[t].socket, st'.tasks[t]);
      }
    case ReceiveFails(t) => OwnedDropped(st, st', t, st.tasks[t].socket, st'.tasks[t]);
    case Return(t) => OwnedReturned(st, t);
    case Answer(s, which, id) => OwnedUnmoved(st, st');
    case Stray(s, reply) => OwnedUnmoved(st, st');
  }

  lemma BoundedStep(st: State, e: Event)
    requires Bounded(st) && Enabled(st, e)
    ensures Bounded(Do(st, e))
  {
  }

  // ----- the records of the tasks an event does not concern

  /** The event concerns task `t` and at most the socket `s`, which no other task holds. */
  ghost predicate Concerns(st: State, st': State, t: TaskId, s: Option<Socket>) {
    && t in st'.tasks && st'.tasks.Keys == st.tasks.Keys + {t}
    && (forall u <- st.tasks :: u != t ==> st'.tasks[u] == st.tasks[u])
    && (forall x <- st.net :: s != Some(x) ==> x in st'.net && st'.net[x] == st.net[x])
    && (forall u <- st.tasks :: u != t && s.Some? ==> HeldSocket(st.tasks[u]) != s)
  }

  lemma OthersSound(st: State, st': State, t: TaskId, s: Option<Socket>)
    requires TasksSound(st) && Concerns(st, st', t, s) && TaskSound(st', t, st'.tasks[t])
    ensures TasksSound(st')
  {
    forall u | u in st'.tasks && u != t
      ensures TaskSound(st', u, st'.tasks[u])
    {
      assert u in st.tasks && TaskSound(st, u, st.tasks[u]);
    }
  }

  lemma NobodyElse(st: State, t: TaskId, s: Socket)
    requires Owned(st) && (s in st.owner ==> !st.owner[s].HeldBy? || st.owner[s] == HeldBy(t))
    ensures forall u <- st.tasks :: u != t ==> HeldSocket(st.tasks[u]) != Some(s)
  {
  }

  /** What the socket an event uses is to its task beforehand. */
  lemma EventConcerns(st: State, e: Event, t: TaskId) returns (s: Option<Socket>)
    requires Owned(st) && Enabled(st, e) && !e.Answer? && !e.Stray? && e.t == t
    ensures Concerns(st, Do(st, e), t, s)
  {
    var st' := Do(st, e);
    s := if t in st'.tasks && HeldSocket(st'.tasks[t]).Some? then HeldSocket(st'.tasks[t])
         else if t in st.tasks then HeldSocket(st.tasks[t])
         else None;
    if s.Some? {
      match e {
        case StartUdp(_, _, _) =>
          if st.udpPool != [] {
            assert st.udpPool[|st.udpPool| - 1] in st.udpPool;
          }
        case StartTcp(_, _) =>
          if st.tcpPool != [] {
            assert st.tcpPool[|st.tcpPool| - 1] in st.tcpPool;
          }
        case _ =>
      }
      NobodyElse(st, t, s.value);
    }
  }

  lemma OwnSound(st: State, e: Event, t: TaskId)
    requires Owned(st) && Sorted(st) && Enabled(st, e) && !e.Answer? && !e.Stray? && e.t == t
    requires t in st.tasks ==> TaskSound(st, t, st.tasks[t])
    ensures var st' := Do(st, e); t in st'.tasks && TaskSound(st', t, st'.tasks[t])
  {
    hide Owned;
    match e
    case StartUdp(_, _, _) =>
      if st.udpPool != [] {
        assert st.udpPool[|st.udpPool| - 1] in st.udpPool;
      }
    case StartTcp(_, _) =>
      if st.tcpPool != [] {
        assert st.tcpPool[|st.tcpPool| - 1] in st.tcpPool;
      }
    case _ =>
  }

  lemma SoundStep(st: State, e: Event)
    requires Owned(st) && TasksSound(st) && Sorted(st) && Enabled(st, e)
    ensures TasksSound(Do(st, e))
  {
    var st' := Do(st, e);
    if e.Answer? || e.Stray? {
      forall u | u in st'.tasks
        ensures TaskSound(st', u, st'.tasks[u])
      {
        assert TaskSound(st, u, st.tasks[u]);
      }
    } else {
      hide TaskSound, Owned, Sorted, Do, Concerns;
      assert e.t in st.tasks ==> TaskSound(st, e.t, st.tasks[e.t]);
      OwnSound(st, e, e.t);
      var s := EventConcerns(st, e, e.t);
      OthersSound(st, st', e.t, s);
    }
  }

  lemma SortedStep(st: State, e: Event)
    requires Owned(st) && TasksSound(st) && Sorted(st) && Enabled(st, e)
    ensures Sorted(Do(st, e))
  {
    var st' := Do(st, e);
    forall s | s in st.net
      ensures s in st'.net && st'.net[s].transport == st.net[s].transport
    {
    }
    match e
    case Return(t) => assert TaskSound(st, t, st.tasks[t]);
    case _ =>
  }

  lemma SafeStep(st: State, e: Event)
    requires Safe(st) && Enabled(st, e)
    ensures Safe(Do(st, e))
  {
    hide Owned, Bounded, TasksSound, Sorted, Do, Enabled;
    OwnedStep(st, e);
    BoundedStep(st, e);
    SoundStep(st, e);
    SortedStep(st, e);
  }

  // ----- no cross-talk, by event

  lemma OthersPrivateOn(st: State, st': State, t: TaskId, moved: Option<Socket>, s: Socket)
    requires (forall u <- st.tasks :: TaskPrivateOn(st, u, st.tasks[u], s)) && Concerns(st, st', t, moved)
    requires TaskPrivateOn(st', t, st'.tasks[t], s)
    ensures forall u <- st'.tasks :: TaskPrivateOn(st', u, st'.tasks[u], s)
  {
    forall u | u in st'.tasks && u != t
      ensures TaskPrivateOn(st', u, st'.tasks[u], s)
    {
      assert u in st.tasks && TaskPrivateOn(st, u, st.tasks[u], s);
    }
  }

  lemma OwnPrivateOn(st: State, e: Event, t: TaskId, s: Socket)
    requires PrivateOn(st, s) && Enabled(st, e) && !e.Answer? && !e.Stray? && e.t == t
    requires t in st.tasks ==> TaskSound(st, t, st.tasks[t])
    ensures var st' := Do(st, e); t in st'.tasks && TaskPrivateOn(st', t, st'.tasks[t], s)
  {
    assert t in st.tasks ==> TaskPrivateOn(st, t, st.tasks[t], s);
    match e
    case StartUdp(_, _, _) =>
      if st.udpPool != [] {
        assert st.udpPool[|st.udpPool| - 1] in st.udpPool;
      }
    case StartTcp(_, _) =>
      if st.tcpPool != [] {
        assert st.tcpPool[|st.tcpPool| - 1] in st.tcpPool;
      }
    case _ =>
  }

  /** If the next state pools the socket, it was quiet and was not touched. */
  lemma PoolPrivateOn(st: State, e: Event, s: Socket)
    requires Safe(st) && PrivateOn(st, s) && Enabled(st, e) && !e.Answer? && !e.Stray?
    ensures var st' := Do(st, e);
            s in st'.udpPool || s in st'.tcpPool ==> s in st'.net && Quiet(st'.net[s])
  {
    var st' := Do(st, e);
    var t := e.t;
    if t in st.tasks {
      assert TaskPrivateOn(st, t, st.tasks[t], s) && TaskSound(st, t, st.tasks[t]);
    }
    if s in st'.udpPool || s in st'.tcpPool {
      assert s in st.udpPool || s in st.tcpPool || (e.Return? && s == st.tasks[t].socket);
    }
  }

  /** An answer only moves the borrower's own request into its inbox; what other sockets get does not matter. */
  lemma ReplyPrivateOn(st: State, e: Event, s: Socket)
    requires Safe(st) && PrivateOn(st, s) && Enabled(st, e) && (e.Answer? || e.Stray?) && HonestOn(e, s)
    ensures PrivateOn(Do(st, e), s)
  {
    var st' := Do(st, e);
    assert e.s == s ==> s !in st.udpPool && s !in st.tcpPool;
    forall u | u in st'.tasks
      ensures TaskPrivateOn(st', u, st'.tasks[u], s)
    {
      assert TaskPrivateOn(st, u, st.tasks[u], s) && TaskSound(st, u, st.tasks[u]);
    }
  }

  lemma PrivateOnStep(st: State, e: Event, s: Socket)
    requires Safe(st) && PrivateOn(st, s) && Enabled(st, e) && HonestOn(e, s)
    ensures PrivateOn(Do(st, e), s)
  {
    if e.Answer? || e.Stray? {
      ReplyPrivateOn(st, e, s);
    } else {
      hide TaskPrivateOn, TaskSound, Quiet, Do, Concerns, Enabled, Owned;
      PoolPrivateOn(st, e, s);
      OwnPrivateOn(st, e, e.t, s);
      var moved := EventConcerns(st, e, e.t);
      OthersPrivateOn(st, Do(st, e), e.t, moved, s);
    }
  }

  // ----- runs

  /**
   In every run, whatever the upstream sends: each socket ever created has exactly one owner, a pool or one task or
   nobody; the pools keep their caps; a UDP reply is accepted only with its query's id, where a reply or a query of
   fewer than two octets has id 0; a TCP query is tried at most twice, the second time on a connection that never
   carried anything else.
   */
  lemma {:induction false} EveryRunSafe(st: State, events: seq<Event>)
    requires Safe(st) && Run(st, events)
    ensures Safe(After(st, events))
    decreases |events|
  {
    hide Safe, Do, Enabled;
    if events == [] {
    } else {
      SafeStep(st, events[0]);
      EveryRunSafe(Do(st, events[0]), events[1..]);
    }
  }

  lemma InitiallySafe()
    ensures Safe(INITIAL) && Private(INITIAL)
  {
  }

  /** A socket that gets no stray reply never mixes queries up, whatever happens on all the others. */
  lemma {:induction false} EveryRunPrivateOn(st: State, events: seq<Event>, s: Socket)
    requires Safe(st) && PrivateOn(st, s) && Run(st, events) && forall e <- events :: HonestOn(e, s)
    ensures Safe(After(st, events)) && PrivateOn(After(st, events), s)
    decreases |events|
  {
    hide Safe, PrivateOn, Do, Enabled, HonestOn;
    if events == [] {
    } else {
      assert events[0] in events;
      SafeStep(st, events[0]);
      PrivateOnStep(st, events[0], s);
      EveryRunPrivateOn(Do(st, events[0]), events[1..], s);
    }
  }

  /** With at most one reply to each request, no socket does. */
  lemma EveryHonestRunPrivate(st: State, events: seq<Event>)
    requires Safe(st) && Private(st) && Run(st, events) && forall e <- events :: Honest(e)
    ensures Safe(After(st, events)) && Private(After(st, events))
  {
    hide Safe, PrivateOn, Run, After;
    EveryRunSafe(st, events);
    forall s: Socket
      ensures PrivateOn(After(st, events), s)
    {
      EveryRunPrivateOn(st, events, s);
    }
  }

  /**
   The guarantees read off the tasks of a run from an empty pool. The reply is the query's own if the one socket that
   brought it got no stray reply in the whole run.
   */
  lemma RepliesReachTheirQuery(events: seq<Event>, t: TaskId)
    requires Run(INITIAL, events) && t in After(INITIAL, events).tasks
    ensures var task := After(INITIAL, events).tasks[t];
            task.Done? && task.result.Some? ==>
              && task.attempts <= 2 && task.via.Some?
              && (task.transport.Udp? ==> task.result.value.id == task.request.id && task.attempts == 1)
              && ((forall e <- events :: HonestOn(e, task.via.value)) ==> task.result.value.to == t)
  {
    hide Do, Enabled, Run, After, HonestOn;
    InitiallySafe();
    EveryRunSafe(INITIAL, events);
    var st := After(INITIAL, events);
    assert TaskSound(st, t, st.tasks[t]);
    var task := st.tasks[t];
    if task.Done? && task.result.Some? {
      var s := task.via.value;
      assert PrivateOn(INITIAL, s);
      if forall e <- events :: HonestOn(e, s) {
        EveryRunPrivateOn(INITIAL, events, s);
        assert TaskPrivateOn(st, t, st.tasks[t], s);
      }
    }
  }

  // ----- runs, piece by piece

  lemma {:induction false} RunConcat(st: State, a: seq<Event>, b: seq<Event>)
    requires Run(st, a) && Run(After(st, a), b)
    ensures Run(st, a + b) && After(st, a + b) == After(After(st, a), b)
    decreases |a|
  {
    hide Do, Enabled;
    if a == [] {
      assert a + b == b;
    } else {
      assert (a + b)[1..] == a[1..] + b;
      RunConcat(Do(st, a[0]), a[1..], b);
    }
  }

  lemma RunOne(st: State, e: Event)
    requires Enabled(st, e)
    ensures Run(st, [e]) && After(st, [e]) == Do(st, e)
  {
    hide Do, Enabled;
    assert [e][1..] == [];
  }

  lemma RunTwo(st: State, events: seq<Event>)
    requires |events| == 2 && Enabled(st, events[0]) && Enabled(Do(st, events[0]), events[1])
    ensures Run(st, events) && After(st, events) == Do(Do(st, events[0]), events[1])
  {
    hide Do, Enabled, Run, After;
    RunOne(st, events[0]);
    RunOne(Do(st, events[0]), events[1]);
    RunConcat(st, [events[0]], [events[1]]);
    assert events == [events[0]] + [events[1]];
  }
}
