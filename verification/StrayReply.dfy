/**
 Stray replies: when exactly a query that has checked out a socket can be given the reply to another query, although
 the upstream behaves from then on.
 */
module StrayReply {
  import opened Bytes
  import opened Pool
  import opened PoolProtocol

  /**
   Something foreign is under way on the socket the query is about to use: the reply at the head of its inbox answers
   another query and will be accepted, or, with nothing in the inbox, a request of another query is unanswered.
   */
  predicate Exposed(st: State, t: TaskId)
    requires t in st.tasks && st.tasks[t].Ready?
  {
    var task := st.tasks[t];
    task.socket in st.net && Foreign(st.net[task.socket], t, task.transport, task.request.id)
  }

  predicate Foreign(traffic: Traffic, t: TaskId, transport: Transport, id: u16) {
    if traffic.inbox != [] then traffic.inbox[0].to != t && (transport.Tcp? || traffic.inbox[0].id == id)
    else exists r <- traffic.unanswered :: r.task != t
  }

  /** The query has ended with the reply to another query. */
  predicate Misled(st: State, t: TaskId) {
    t in st.tasks && st.tasks[t].Done? && st.tasks[t].result.Some? && st.tasks[t].result.value.to != t
  }

  // ----- a query that is not exposed cannot be misled any more

  /** The query has nothing foreign, and will not get it from the socket it holds. */
  predicate Guarded(st: State, t: TaskId, task: Task) {
    match task
    case Ready(s, transport, request, _, _) => s in st.net && !Foreign(st.net[s], t, transport, request.id)
    case Waiting(s, transport, request, _, _) => s in st.net && !Foreign(st.net[s], t, transport, request.id)
    case Holding(_, _, _, reply, _) => reply.to == t
    case Connecting(_, _) => true
    case Done(_, _, result, _, _) => result.Some? ==> result.value.to == t
  }

  lemma AnswerGuarded(st: State, e: Event, t: TaskId)
    requires Enabled(st, e) && e.Answer? && t in st.tasks && Guarded(st, t, st.tasks[t])
    ensures Guarded(Do(st, e), t, st.tasks[t])
  {
    var traffic := st.net[e.s];
    var traffic' := Do(st, e).net[e.s];
    assert traffic.unanswered[e.which] in traffic.unanswered;
    assert forall r <- traffic'.unanswered :: r in traffic.unanswered;
  }

  lemma OwnGuarded(st: State, e: Event, t: TaskId)
    requires Enabled(st, e) && !e.Answer? && !e.Stray? && e.t == t && t in st.tasks
    requires TaskSound(st, t, st.tasks[t]) && Guarded(st, t, st.tasks[t])
    ensures var st' := Do(st, e); t in st'.tasks && Guarded(st', t, st'.tasks[t])
  {
  }

  lemma GuardedStep(st: State, e: Event, t: TaskId)
    requires Safe(st) && Enabled(st, e) && Honest(e) && t in st.tasks && Guarded(st, t, st.tasks[t])
    ensures var st' := Do(st, e); t in st'.tasks && Guarded(st', t, st'.tasks[t])
  {
    if e.Answer? {
      AnswerGuarded(st, e, t);
    } else if e.t == t {
      assert TaskSound(st, t, st.tasks[t]);
      OwnGuarded(st, e, t);
    } else {
      hide Do, Enabled, Owned, TaskSound, Foreign;
      assert TasksSound(st) && TaskSound(st, t, st.tasks[t]);
      var moved := EventConcerns(st, e, e.t);
    }
  }

  lemma {:induction false} GuardedRun(st: State, events: seq<Event>, t: TaskId)
    requires Safe(st) && Run(st, events) && (forall e <- events :: Honest(e))
    requires t in st.tasks && Guarded(st, t, st.tasks[t])
    ensures var st' := After(st, events); t in st'.tasks && Guarded(st', t, st'.tasks[t])
    decreases |events|
  {
    hide Safe, Guarded, Do, Enabled, Honest;
    if events == [] {
    } else {
      assert events[0] in events;
      GuardedStep(st, events[0], t);
      SafeStep(st, events[0]);
      GuardedRun(Do(st, events[0]), events[1..], t);
    }
  }

  // ----- a query that is exposed can be misled

  /** The reply at the head of the inbox is accepted. */
  lemma HeadMisleads(st: State, t: TaskId)
    requires t in st.tasks && st.tasks[t].Waiting? && st.tasks[t].socket in st.net
    requires var task := st.tasks[t];
             var inbox := st.net[task.socket].inbox;
             inbox != [] && inbox[0].to != t && (task.transport.Tcp? || inbox[0].id == task.request.id)
    ensures Run(st, [Receive(t), Return(t)]) && Misled(After(st, [Receive(t), Return(t)]), t)
  {
    hide Run, After;
    var received := Do(st, Receive(t));
    assert received.tasks[t].Holding?;
    RunTwo(st, [Receive(t), Return(t)]);
  }

  lemma ExposedIsMisled(st: State, t: TaskId) returns (events: seq<Event>)
    requires t in st.tasks && st.tasks[t].Ready? && Exposed(st, t)
    ensures Run(st, events) && (forall e <- events :: Honest(e)) && Misled(After(st, events), t)
  {
    hide Run, After, Misled;
    var task := st.tasks[t];
    var s, traffic := task.socket, st.net[task.socket];
    var sent := Do(st, Send(t));
    var opening := [Send(t)];
    RunOne(st, Send(t));
    if traffic.inbox == [] {
      var which :| 0 <= which < |traffic.unanswered| && traffic.unanswered[which].task != t;
      assert sent.net[s].unanswered[which] == traffic.unanswered[which];
      opening := [Send(t), Answer(s, which, task.request.id)];
      RunTwo(st, opening);
    }
    HeadMisleads(After(st, opening), t);
    RunConcat(st, opening, [Receive(t), Return(t)]);
    events := opening + [Receive(t), Return(t)];
  }

  /**
   The exact condition: a query that has just checked out its socket can be given a foreign reply, by some interleaving
   in which the upstream sends no stray reply any more, if and only if something foreign is already under way there.
   */
  lemma MisledExactlyIfExposed(st: State, t: TaskId)
    requires Safe(st) && t in st.tasks && st.tasks[t].Ready?
    ensures Exposed(st, t) <==>
            exists events :: Run(st, events) && (forall e <- events :: Honest(e)) && Misled(After(st, events), t)
  {
    hide Run, After, Honest, Exposed, Misled, Guarded, Safe;
    if Exposed(st, t) {
      var events := ExposedIsMisled(st, t);
    } else {
      NotExposedIsGuarded(st, t);
      forall events | Run(st, events) && forall e <- events :: Honest(e)
        ensures !Misled(After(st, events), t)
      {
        GuardedRun(st, events, t);
        GuardedIsNotMisled(After(st, events), t);
      }
    }
  }

  lemma NotExposedIsGuarded(st: State, t: TaskId)
    requires Safe(st) && t in st.tasks && st.tasks[t].Ready? && !Exposed(st, t)
    ensures Guarded(st, t, st.tasks[t])
  {
    hide Foreign;
    assert TaskSound(st, t, st.tasks[t]);
  }

  lemma GuardedIsNotMisled(st: State, t: TaskId)
    requires t in st.tasks && Guarded(st, t, st.tasks[t])
    ensures !Misled(st, t)
  {
  }

  // ----- one stray reply is enough

  /**
   A query on a new socket is answered twice; the duplicate stays behind in the pooled socket, which the next query
   takes.
   */
  function Duplicate(s: Socket, id: u16): seq<Event> {
    [StartUdp(0, id, Some(s)), Send(0), Answer(s, 0, id), Stray(s, Reply(0, id)), Receive(0), Return(0),
     StartUdp(1, id, None)]
  }

  /** One task at a time on socket `s`, after the given traffic. */
  function OnSocket(s: Socket, pool: seq<Socket>, tasks: map<TaskId, Task>, unanswered: seq<Request>, inbox: seq<Reply>,
                    carried: nat, owner: Owner): State
  {
    State(pool, [], tasks, map[s := Traffic(Udp, unanswered, inbox, carried)], map[s := owner])
  }

  function DuplicateState(i: nat, s: Socket, id: u16): State {
    var request, reply := Request(0, id), Reply(0, id);
    var done := Done(Udp, request, Some(reply), 1, Some(s));
    match i
    case 0 => INITIAL
    case 1 => OnSocket(s, [], map[0 := Ready(s, Udp, request, true, 0)], [], [], 0, HeldBy(0))
    case 2 => OnSocket(s, [], map[0 := Waiting(s, Udp, request, true, 1)], [request], [], 1, HeldBy(0))
    case 3 => OnSocket(s, [], map[0 := Waiting(s, Udp, request, true, 1)], [], [reply], 1, HeldBy(0))
    case 4 => OnSocket(s, [], map[0 := Waiting(s, Udp, request, true, 1)], [], [reply, reply], 1, HeldBy(0))
    case 5 => OnSocket(s, [], map[0 := Holding(s, Udp, request, reply, 1)], [], [reply], 1, HeldBy(0))
    case 6 => OnSocket(s, [s], map[0 := done], [], [reply], 1, InUdpPool)
    case _ => OnSocket(s, [], map[0 := done, 1 := Ready(s, Udp, Request(1, id), false, 0)], [], [reply], 1, HeldBy(1))
  }

  lemma DuplicateAnswered(i: nat, s: Socket, id: u16)
    requires i < 3
    ensures Enabled(DuplicateState(i, s, id), Duplicate(s, id)[i])
    ensures Do(DuplicateState(i, s, id), Duplicate(s, id)[i]) == DuplicateState(i + 1, s, id)
  {
    var st, next := DuplicateState(i, s, id), DuplicateState(i + 1, s, id);
    if i == 1 {
      assert [] + [Request(0, id)] == [Request(0, id)];
    } else if i == 2 {
      assert [Request(0, id)][..0] + [Request(0, id)][1..] == [] && [] + [Reply(0, id)] == [Reply(0, id)];
    }
    assert Do(st, Duplicate(s, id)[i]).net == next.net;
  }

  lemma DuplicateArrives(i: nat, s: Socket, id: u16)
    requires i == 3 || i == 4
    ensures Enabled(DuplicateState(i, s, id), Duplicate(s, id)[i])
    ensures Do(DuplicateState(i, s, id), Duplicate(s, id)[i]) == DuplicateState(i + 1, s, id)
  {
    var st, next := DuplicateState(i, s, id), DuplicateState(i + 1, s, id);
    var reply := Reply(0, id);
    assert [reply] + [reply] == [reply, reply] && [reply, reply][1..] == [reply];
    assert Do(st, Duplicate(s, id)[i]).net == next.net;
  }

  lemma PoolOfOne(s: Socket)
    ensures Pushed([], s, UDP_POOL_CAP) == [s] && Popped([s]) == (Some(s), [])
  {
    assert [] + [s] == [s] && [s][..0] == [];
  }

  lemma DuplicatePooled(s: Socket, id: u16)
    ensures Enabled(DuplicateState(5, s, id), Return(0))
    ensures Do(DuplicateState(5, s, id), Return(0)) == DuplicateState(6, s, id)
  {
    hide Pushed;
    PoolOfOne(s);
    assert Do(DuplicateState(5, s, id), Return(0)).tasks == DuplicateState(6, s, id).tasks;
  }

  lemma DuplicateTaken(s: Socket, id: u16)
    ensures Enabled(DuplicateState(6, s, id), StartUdp(1, id, None))
    ensures Do(DuplicateState(6, s, id), StartUdp(1, id, None)) == DuplicateState(7, s, id)
  {
    hide Popped;
    PoolOfOne(s);
    assert Do(DuplicateState(6, s, id), StartUdp(1, id, None)).tasks == DuplicateState(7, s, id).tasks;
  }

  lemma {:induction false} DuplicateRun(i: nat, s: Socket, id: u16)
    requires i <= 7
    ensures var events := Duplicate(s, id)[i..];
            Run(DuplicateState(i, s, id), events) && After(DuplicateState(i, s, id), events) == DuplicateState(7, s, id)
    decreases 7 - i
  {
    hide Do, Enabled, DuplicateState;
    var events := Duplicate(s, id);
    if i < 7 {
      if i < 3 {
        DuplicateAnswered(i, s, id);
      } else if i < 5 {
        DuplicateArrives(i, s, id);
      } else if i == 5 {
        DuplicatePooled(s, id);
      } else {
        DuplicateTaken(s, id);
      }
      DuplicateRun(i + 1, s, id);
      assert events[i..][0] == events[i] && events[i..][1..] == events[i + 1..];
    }
  }

  /**
   The id check does not keep a stray reply from a later query that reuses the id: whatever the id and the socket, one
   duplicated datagram exposes the next query, and an upstream that is honest from then on can leave it misled.
   */
  lemma StrayReplyLeaks(s: Socket, id: u16) returns (rest: seq<Event>)
    ensures forall e <- rest :: Honest(e)
    ensures var events := Duplicate(s, id) + rest; Run(INITIAL, events) && Misled(After(INITIAL, events), 1)
  {
    hide Do, Enabled, Run, After, Misled, Honest;
    DuplicateRun(0, s, id);
    assert Duplicate(s, id)[0..] == Duplicate(s, id);
    rest := ExposedIsMisled(DuplicateState(7, s, id), 1);
    RunConcat(INITIAL, Duplicate(s, id), rest);
  }
}
