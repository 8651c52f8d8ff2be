/** A query that no other interleaves ends as the sequential account of the pool says. */
module LoneQuery {
  import opened Bytes
  import opened Pool
  import opened PoolProtocol

  predicate Accepted(transport: Transport, id: u16, x: Exchange) {
    x.Answered? && (transport.Tcp? || WireId(x.reply) == id)
  }

  /** The events of one exchange on socket `s`. */
  function Turns(t: TaskId, s: Socket, transport: Transport, id: u16, x: Exchange): seq<Event> {
    match x
    case Refused => [SendFails(t, false)]
    case Silent => [Send(t), ReceiveFails(t)]
    case Answered(reply) =>
      [Send(t), Answer(s, 0, WireId(reply)), Receive(t)] + if Accepted(transport, id, x) then [Return(t)] else []
  }

  /** The task has a quiet socket and has not sent its request on it. */
  ghost predicate Poised(st: State, t: TaskId, task: Task) {
    task.Ready? && t in st.tasks && st.tasks[t] == task && task.request.task == t
    && task.socket in st.net && Quiet(st.net[task.socket])
  }

  function PoolOf(st: State, transport: Transport): seq<Socket> {
    if transport.Udp? then st.udpPool else st.tcpPool
  }

  function CapOf(transport: Transport): nat {
    if transport.Udp? then UDP_POOL_CAP else TCP_POOL_CAP
  }

  function Other(transport: Transport): Transport {
    if transport.Udp? then Tcp else Udp
  }

  /** The exchange moved nothing but the task's own socket, which was kept exactly on an accepted reply. */
  ghost predicate Exchanged(st: State, st': State, t: TaskId, task: Task, x: Exchange)
    requires task.Ready?
  {
    var accepted := Accepted(task.transport, task.request.id, x);
    && st'.net.Keys == st.net.Keys && st'.owner.Keys == st.owner.Keys + {task.socket}
    && PoolOf(st', Other(task.transport)) == PoolOf(st, Other(task.transport))
    && PoolOf(st', task.transport) ==
       (if accepted then Pushed(PoolOf(st, task.transport), task.socket, CapOf(task.transport))
        else PoolOf(st, task.transport))
    && t in st'.tasks
    && var reply := Reply(t, if accepted then WireId(x.reply) else 0);
       st'.tasks[t] ==
       if accepted then Done(task.transport, task.request, Some(reply), task.attempts + 1, Some(task.socket))
       else if task.transport.Tcp? && !task.own then Connecting(task.request, task.attempts + 1)
       else Done(task.transport, task.request, None, task.attempts + 1, None)
  }

  lemma UnansweredTurns(st: State, t: TaskId, task: Task, x: Exchange)
    requires Poised(st, t, task) && !x.Answered?
    ensures var events := Turns(t, task.socket, task.transport, task.request.id, x);
            Run(st, events) && Exchanged(st, After(st, events), t, task, x)
  {
    hide Accepted;
    assert !Accepted(task.transport, task.request.id, x) by { OnlyAnswersAccepted(task.transport, task.request.id, x); }
    var events := Turns(t, task.socket, task.transport, task.request.id, x);
    if x.Refused? {
      assert events[1..] == [];
    } else {
      RunTwo(st, events);
    }
  }

  lemma OnlyAnswersAccepted(transport: Transport, id: u16, x: Exchange)
    ensures Accepted(transport, id, x) ==> x.Answered?
  {
  }

  /** The request went out and its reply waits in the socket. */
  ghost predicate Delivered(st: State, st': State, t: TaskId, task: Task, replyId: u16)
    requires task.Ready?
  {
    && st'.udpPool == st.udpPool && st'.tcpPool == st.tcpPool && st'.owner == st.owner && st'.net.Keys == st.net.Keys
    && t in st'.tasks
    && st'.tasks[t] == Waiting(task.socket, task.transport, task.request, task.own, task.attempts + 1)
    && task.socket in st'.net && st'.net[task.socket].inbox == [Reply(t, replyId)]
  }

  lemma Delivers(st: State, t: TaskId, task: Task, replyId: u16)
    requires Poised(st, t, task)
    ensures var events := [Send(t), Answer(task.socket, 0, replyId)];
            Run(st, events) && Delivered(st, After(st, events), t, task, replyId)
  {
    hide Run, After;
    var sent := Do(st, Send(t));
    assert sent.net[task.socket].unanswered == [task.request];
    var answered := Do(sent, Answer(task.socket, 0, replyId));
    assert answered.net[task.socket].inbox == [Reply(t, replyId)];
    RunTwo(st, [Send(t), Answer(task.socket, 0, replyId)]);
  }

  function Takes(t: TaskId, accepted: bool): seq<Event> {
    [Receive(t)] + if accepted then [Return(t)] else []
  }

  lemma TakesReply(st: State, st': State, t: TaskId, task: Task, x: Exchange)
    requires task.Ready? && x.Answered? && Delivered(st, st', t, task, WireId(x.reply))
    ensures var events := Takes(t, Accepted(task.transport, task.request.id, x));
            Run(st', events) && Exchanged(st, After(st', events), t, task, x)
  {
    hide WireId, Run, After;
    RunOne(st', Receive(t));
    if Accepted(task.transport, task.request.id, x) {
      RunTwo(st', [Receive(t), Return(t)]);
      assert Takes(t, true) == [Receive(t), Return(t)];
    } else {
      assert Takes(t, false) == [Receive(t)];
    }
  }

  lemma AnsweredTurns(st: State, t: TaskId, task: Task, x: Exchange)
    requires Poised(st, t, task) && x.Answered?
    ensures var events := Turns(t, task.socket, task.transport, task.request.id, x);
            Run(st, events) && Exchanged(st, After(st, events), t, task, x)
  {
    hide WireId, Run, After, Do, Delivered, Exchanged, Accepted;
    var opening := [Send(t), Answer(task.socket, 0, WireId(x.reply))];
    var rest := Takes(t, Accepted(task.transport, task.request.id, x));
    Delivers(st, t, task, WireId(x.reply));
    TakesReply(st, After(st, opening), t, task, x);
    RunConcat(st, opening, rest);
    assert Turns(t, task.socket, task.transport, task.request.id, x) == opening + rest;
  }

  lemma TurnsRun(st: State, t: TaskId, task: Task, x: Exchange)
    requires Poised(st, t, task)
    ensures var events := Turns(t, task.socket, task.transport, task.request.id, x);
            Run(st, events) && Exchanged(st, After(st, events), t, task, x)
  {
    hide Poised, Turns, Run, After, Exchanged;
    assert task.Ready? by { PoisedIsReady(st, t, task); }
    if x.Answered? {
      AnsweredTurns(st, t, task, x);
    } else {
      UnansweredTurns(st, t, task, x);
    }
  }

  lemma PoisedIsReady(st: State, t: TaskId, task: Task)
    ensures Poised(st, t, task) ==> task.Ready?
  {
  }

  /** The query is over, with a reply of its own exactly if `x` brought an accepted one. */
  predicate Ended(st: State, t: TaskId, ok: bool, x: Exchange) {
    && t in st.tasks && st.tasks[t].Done?
    && st.tasks[t].result == if ok && x.Answered? then Some(Reply(t, WireId(x.reply))) else None
  }

  function AloneUdp(st: State, t: TaskId, query: seq<byte>, bound: Option<Socket>, x: Exchange): seq<Event> {
    var socket := if st.udpPool != [] then Popped(st.udpPool).0 else bound;
    [StartUdp(t, WireId(query), bound)] + if socket.None? then [] else Turns(t, socket.value, Udp, WireId(query), x)
  }

  lemma StartsPoised(st: State, t: TaskId, id: u16, bound: Option<Socket>)
    requires Private(st) && Enabled(st, StartUdp(t, id, bound))
    ensures var st' := Do(st, StartUdp(t, id, bound));
            var (pooled, rest) := Popped(st.udpPool);
            var socket := if pooled.Some? then pooled else bound;
            && st'.udpPool == rest && st'.tcpPool == st.tcpPool
            && (socket.None? ==> t in st'.tasks && st'.tasks[t] == Done(Udp, Request(t, id), None, 0, None))
            && (socket.Some? ==> Poised(st', t, Ready(socket.value, Udp, Request(t, id), pooled.None?, 0)))
  {
    if st.udpPool != [] {
      var s := st.udpPool[|st.udpPool| - 1];
      assert s in st.udpPool && PrivateOn(st, s);
    }
  }

  /** If no other query moves, a UDP query's run ends as `UdpOutcome` computes, whatever the network does to it. */
  lemma AloneIsUdpOutcome(st: State, t: TaskId, query: seq<byte>, bound: Option<Socket>, x: Exchange)
    requires Private(st) && Enabled(st, StartUdp(t, WireId(query), bound))
    ensures var events := AloneUdp(st, t, query, bound, x);
            var (result, pool) := UdpOutcome(st.udpPool, query, bound, x);
            && Run(st, events) && After(st, events).udpPool == pool && After(st, events).tcpPool == st.tcpPool
            && Ended(After(st, events), t, result.Ok?, x)
  {
    hide Do, Private, WireId, Run, After, Turns, Poised;
    var e := StartUdp(t, WireId(query), bound);
    var (pooled, rest) := Popped(st.udpPool);
    var socket := if pooled.Some? then pooled else bound;
    StartsPoised(st, t, WireId(query), bound);
    RunOne(st, e);
    if socket.None? {
      assert [e] + [] == [e];
    } else {
      var task := Ready(socket.value, Udp, Request(t, WireId(query)), pooled.None?, 0);
      TurnsRun(Do(st, e), t, task, x);
      RunConcat(st, [e], Turns(t, socket.value, Udp, WireId(query), x));
    }
  }

  function SecondTry(t: TaskId, id: u16, connected: Option<Socket>, second: Exchange): seq<Event> {
    [Connect(t, connected)] + if connected.None? then [] else Turns(t, connected.value, Tcp, id, second)
  }

  function AloneTcp(st: State, t: TaskId, id: u16, first: Exchange, connected: Option<Socket>,
                    second: Exchange): seq<Event> {
    var pooled := Popped(st.tcpPool).0;
    [StartTcp(t, id)]
    + (if pooled.None? then [] else Turns(t, pooled.value, Tcp, id, first))
    + (if pooled.Some? && first.Answered? then [] else SecondTry(t, id, connected, second))
  }

  lemma ConnectsPoised(st: State, t: TaskId, connected: Option<Socket>)
    requires Enabled(st, Connect(t, connected)) && st.tasks[t].request.task == t
    ensures var st' := Do(st, Connect(t, connected));
            var task := st.tasks[t];
            && st'.udpPool == st.udpPool && st'.tcpPool == st.tcpPool
            && (connected.None? ==>
                  t in st'.tasks && st'.tasks[t] == Done(Tcp, task.request, None, task.attempts, None))
            && (connected.Some? ==> Poised(st', t, Ready(connected.value, Tcp, task.request, true, task.attempts)))
  {
  }

  lemma SecondTryRuns(st: State, t: TaskId, id: u16, connected: Option<Socket>, second: Exchange)
    requires Enabled(st, Connect(t, connected)) && st.tasks[t].request == Request(t, id)
    ensures Run(st, SecondTry(t, id, connected, second))
    ensures var st' := After(st, SecondTry(t, id, connected, second));
            var ok := connected.Some? && second.Answered?;
            && st'.udpPool == st.udpPool
            && st'.tcpPool == (if ok then Pushed(st.tcpPool, connected.value, TCP_POOL_CAP) else st.tcpPool)
            && Ended(st', t, ok, second)
  {
    hide Do, WireId, Run, After, Turns, Poised;
    var e := Connect(t, connected);
    ConnectsPoised(st, t, connected);
    RunOne(st, e);
    if connected.None? {
      assert [e] + [] == [e];
    } else {
      TurnsRun(Do(st, e), t, Ready(connected.value, Tcp, Request(t, id), true, st.tasks[t].attempts), second);
      RunConcat(st, [e], Turns(t, connected.value, Tcp, id, second));
    }
  }

  lemma TcpStarts(st: State, t: TaskId, id: u16)
    requires Private(st) && Owned(st) && t !in st.tasks
    ensures var st' := Do(st, StartTcp(t, id));
            var (pooled, rest) := Popped(st.tcpPool);
            && st'.tcpPool == rest && st'.udpPool == st.udpPool
            && st'.net.Keys == st.net.Keys && st'.owner.Keys == st.owner.Keys
            && (pooled.None? ==> t in st'.tasks && st'.tasks[t] == Connecting(Request(t, id), 0))
            && (pooled.Some? ==> pooled.value in st.owner
                                 && Poised(st', t, Ready(pooled.value, Tcp, Request(t, id), false, 0)))
  {
    if st.tcpPool != [] {
      var s := st.tcpPool[|st.tcpPool| - 1];
      assert s in st.tcpPool && PrivateOn(st, s);
    }
  }

  /** The same for a TCP query, with its one retry on a connection of its own. */
  lemma AloneIsTcpOutcome(st: State, t: TaskId, id: u16, first: Exchange, connected: Option<Socket>, second: Exchange)
    requires Private(st) && Owned(st) && t !in st.tasks && Fresh(st, connected)
    ensures var events := AloneTcp(st, t, id, first, connected, second);
            var (result, pool) := TcpOutcome(st.tcpPool, first, connected, second);
            && Run(st, events) && After(st, events).tcpPool == pool && After(st, events).udpPool == st.udpPool
            && Ended(After(st, events), t, result.Ok?, if st.tcpPool != [] && first.Answered? then first else second)
  {
    hide Do, Private, Owned, WireId, Run, After, Turns, Poised, SecondTry;
    var e := StartTcp(t, id);
    var (pooled, rest) := Popped(st.tcpPool);
    TcpStarts(st, t, id);
    RunOne(st, e);
    var opening := [e];
    if pooled.Some? {
      var task := Ready(pooled.value, Tcp, Request(t, id), false, 0);
      var turns := Turns(t, pooled.value, Tcp, id, first);
      TurnsRun(Do(st, e), t, task, first);
      RunConcat(st, [e], turns);
      opening := [e] + turns;
    }
    assert [e] + [] == [e];
    if pooled.Some? && first.Answered? {
      assert opening + [] == opening;
    } else {
      SecondTryRuns(After(st, opening), t, id, connected, second);
      RunConcat(st, opening, SecondTry(t, id, connected, second));
    }
  }
}
