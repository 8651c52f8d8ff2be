/** The pool of connected sockets to one upstream resolver, and the queries that borrow from it. */
module Pool {
  import opened Bytes

  type Socket = nat

  const UDP_POOL_CAP := 16
  const TCP_POOL_CAP := 8

  // ----- what happens under a pool's lock

  /** The most recently returned socket is taken first. */
  function Popped(pool: seq<Socket>): (Option<Socket>, seq<Socket>) {
    if pool == [] then (None, []) else (Some(pool[|pool| - 1]), pool[..|pool| - 1])
  }

  /** A socket is kept if there is room, else dropped. */
  function Pushed(pool: seq<Socket>, s: Socket, cap: nat): seq<Socket> {
    if |pool| < cap then pool + [s] else pool
  }

  /** The id a datagram is taken to carry: its first two octets, 0 when it is shorter. */
  function WireId(b: seq<byte>): u16 {
    if |b| >= 2 then U16At(b, 0) else 0
  }

  // ----- one query at a time

  datatype IoError = OpenFailed | SendFailed | ReceiveFailed | IdMismatch | ConnectFailed

  /** What the network does to one exchange on a socket: refuse the request, stay silent, or answer. */
  datatype Exchange = Refused | Silent | Answered(reply: seq<byte>)

  function ExchangeResult(x: Exchange): Result<seq<byte>, IoError> {
    match x
    case Refused => Err(SendFailed)
    case Silent => Err(ReceiveFailed)
    case Answered(reply) => Ok(reply)
  }

  /** A UDP query: its result, and the pool if no one else touched it meanwhile. */
  function UdpOutcome(pool: seq<Socket>, query: seq<byte>, bound: Option<Socket>, x: Exchange)
    : (Result<seq<byte>, IoError>, seq<Socket>)
  {
    var (pooled, rest) := Popped(pool);
    var socket := if pooled.Some? then pooled else bound;
    if socket.None? then (Err(OpenFailed), rest)
    else if !x.Answered? then (ExchangeResult(x), rest)
    else if WireId(x.reply) != WireId(query) then (Err(IdMismatch), rest)
    else (Ok(x.reply), Pushed(rest, socket.value, UDP_POOL_CAP))
  }

  /** A TCP query: a failed exchange on a pooled connection is repeated once, on a connection of its own. */
  function TcpOutcome(pool: seq<Socket>, first: Exchange, connected: Option<Socket>, second: Exchange)
    : (Result<seq<byte>, IoError>, seq<Socket>)
  {
    var (pooled, rest) := Popped(pool);
    if pooled.Some? && first.Answered? then (Ok(first.reply), Pushed(rest, pooled.value, TCP_POOL_CAP))
    else if connected.None? then (Err(ConnectFailed), rest)
    else if second.Answered? then (Ok(second.reply), Pushed(rest, connected.value, TCP_POOL_CAP))
    else (ExchangeResult(second), rest)
  }

  /** The number in the first two octets, 0 for fewer. */
  function Id(b: seq<byte>): nat {
    if |b| < 2 then 0 else b[0] as int * 0x100 + b[1] as int
  }

  /**
   A UDP query succeeds exactly with a socket, taken from the end of the pool if that has any, and a reply that bears
   its id. Only then does the socket go back, and only to a pool of fewer than 16.
   */
  lemma UdpSocketReturns(pool: seq<Socket>, query: seq<byte>, bound: Option<Socket>, x: Exchange)
    ensures var (r, pool') := UdpOutcome(pool, query, bound, x);
            var left := if pool == [] then [] else pool[..|pool| - 1];
            && (r.Ok? <==> (pool != [] || bound.Some?) && x.Answered? && Id(x.reply) == Id(query))
            && (r.Ok? ==> r.value == x.reply)
            && pool' == if r.Ok? && |left| < 16
                        then left + [if pool == [] then bound.value else pool[|pool| - 1]] else left
  {
  }

  /**
   A TCP query succeeds exactly if the pooled connection at the end of the pool answers, or a fresh one does that is
   opened when there is none or it fails. The one that answered goes back to a pool of fewer than 8, any other is gone.
   */
  lemma TcpConnectionReturns(pool: seq<Socket>, first: Exchange, connected: Option<Socket>, second: Exchange)
    ensures var (r, pool') := TcpOutcome(pool, first, connected, second);
            var left := if pool == [] then [] else pool[..|pool| - 1];
            var reused := pool != [] && first.Answered?;
            && (r.Ok? <==> reused || (connected.Some? && second.Answered?))
            && (r.Ok? ==> r.value == if reused then first.reply else second.reply)
            && pool' == if r.Ok? && |left| < 8
                        then left + [if reused then pool[|pool| - 1] else connected.value] else left
  {
  }

  class Upstream {
    var udpPool: seq<Socket>
    var tcpPool: seq<Socket>

    ghost predicate Valid()
      reads this
    {
      |udpPool| <= UDP_POOL_CAP && |tcpPool| <= TCP_POOL_CAP
    }

    constructor ()
      ensures Valid() && udpPool == [] && tcpPool == []
    {
      udpPool, tcpPool := [], [];
    }

    method TakeUdp() returns (s: Option<Socket>)
      modifies this`udpPool
      ensures (s, udpPool) == Popped(old(udpPool))
    {
      if udpPool == [] {
        return None;
      }
      s := Some(udpPool[|udpPool| - 1]);
      udpPool := udpPool[..|udpPool| - 1];
    }

    method ReturnUdp(s: Socket)
      modifies this`udpPool
      ensures udpPool == Pushed(old(udpPool), s, UDP_POOL_CAP)
    {
      if |udpPool| < UDP_POOL_CAP {
        udpPool := udpPool + [s];
      }
    }

    method TakeTcp() returns (s: Option<Socket>)
      modifies this`tcpPool
      ensures (s, tcpPool) == Popped(old(tcpPool))
    {
      if tcpPool == [] {
        return None;
      }
      s := Some(tcpPool[|tcpPool| - 1]);
      tcpPool := tcpPool[..|tcpPool| - 1];
    }

    method ReturnTcp(s: Socket)
      modifies this`tcpPool
      ensures tcpPool == Pushed(old(tcpPool), s, TCP_POOL_CAP)
    {
      if |tcpPool| < TCP_POOL_CAP {
        tcpPool := tcpPool + [s];
      }
    }

    method UdpQuery(query: seq<byte>, bound: Option<Socket>, x: Exchange) returns (r: Result<seq<byte>, IoError>)
      requires Valid()
      modifies this
      ensures Valid() && tcpPool == old(tcpPool)
      ensures (r, udpPool) == UdpOutcome(old(udpPool), query, bound, x)
    {
      var socket := TakeUdp();
      if socket.None? {
        socket := bound;
        if socket.None? {
          return Err(OpenFailed);
        }
      }
      if x.Refused? {
        return Err(SendFailed);
      }
      var queryId := if |query| >= 2 then U16At(query, 0) else 0;
      if x.Silent? {
        return Err(ReceiveFailed);
      }
      var buf := x.reply;
      var respId := if |buf| >= 2 then U16At(buf, 0) else 0;
      if respId != queryId {
        return Err(IdMismatch);
      }
      ReturnUdp(socket.value);
      return Ok(buf);
    }

    method TcpQuery(first: Exchange, connected: Option<Socket>, second: Exchange)
      returns (r: Result<seq<byte>, IoError>)
      requires Valid()
      modifies this
      ensures Valid() && udpPool == old(udpPool)
      ensures (r, tcpPool) == TcpOutcome(old(tcpPool), first, connected, second)
    {
      var pooled := TakeTcp();
      if pooled.Some? {
        if first.Answered? {
          ReturnTcp(pooled.value);
          return Ok(first.reply);
        }
      }
      if connected.None? {
        return Err(ConnectFailed);
      }
      if !second.Answered? {
        return ExchangeResult(second);
      }
      ReturnTcp(connected.value);
      return Ok(second.reply);
    }
  }
}
