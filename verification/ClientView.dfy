/** What a client gets, told from the rules of the lists and the octets of the replies alone. */
module ClientView {
  import opened Bytes
  import opened Names
  import opened Wire
  import opened Rewrite
  import opened Pool
  import opened Handlers
  import Rules
  import Blocklist

  /** A scan of the rules, allow rules first, blocks the name in lower case. */
  ghost predicate Condemned(engine: Rules.Engine, rules: seq<Rules.Rule>, name: Name) {
    Rules.NaiveVerdict(engine, rules, Rules.Lower(name)) == Rules.Blocked
  }

  ghost predicate FirstCondemned(engine: Rules.Engine, rules: seq<Rules.Rule>, m: Message) {
    m.questions != [] && Condemned(engine, rules, m.questions[0].name)
  }

  /** The reply parses, and one of its answers is a CNAME with a condemned alias. */
  ghost predicate AliasCondemned(engine: Rules.Engine, rules: seq<Rules.Rule>, resp: seq<byte>) {
    MessageAt(resp).Ok? && exists rr <- MessageAt(resp).value.answers ::
      rr.rtype == 5 && rr.cnameTarget.Some? && Condemned(engine, rules, rr.cnameTarget.value)
  }

  /** The client's limit: the class of the first record of type 41 when it is 1 to 4096, else 512. */
  ghost predicate Limit(additionals: seq<Record>, limit: nat) {
    || ((forall r <- additionals :: r.rtype != 41) && limit == 512)
    || (exists k: nat :: FirstOpt(additionals, k) && limit == OptSize(additionals[k].rclass))
  }

  predicate FirstOpt(additionals: seq<Record>, k: nat) {
    k < |additionals| && additionals[k].rtype == 41 && forall i :: 0 <= i < k ==> additionals[i].rtype != 41
  }

  function OptSize(size: nat): nat {
    if 1 <= size <= 4096 then size else 512
  }

  /** The TC bit of the third octet. */
  predicate Marked(resp: seq<byte>) {
    |resp| >= 4 && resp[2] / 2 % 2 == 1
  }

  /** The upstream's reply: over UDP, or over TCP if the former came marked. */
  predicate Final(udp: Result<seq<byte>, IoError>, tcp: Result<seq<byte>, IoError>, final: Result<seq<byte>, IoError>) {
    final == if udp.Ok? && Marked(udp.value) then tcp else udp
  }

  lemma {:induction false} FirstOptSizes(additionals: seq<Record>) returns (k: nat)
    ensures if k < |additionals|
            then FirstOpt(additionals, k) && ClientUdpSize(additionals) == OptSize(additionals[k].rclass)
            else (forall r <- additionals :: r.rtype != 41) && ClientUdpSize(additionals) == 512
  {
    if additionals == [] || additionals[0].rtype == 41 {
      k := 0;
    } else {
      var rest := additionals[1..];
      var j := FirstOptSizes(rest);
      k := j + 1;
      assert forall i :: 0 < i < |additionals| ==> additionals[i] == rest[i - 1];
    }
  }

  lemma LimitIs(additionals: seq<Record>, limit: nat)
    ensures Limit(additionals, limit) <==> limit == ClientUdpSize(additionals)
  {
    hide ClientUdpSize, OptSize;
    var k := FirstOptSizes(additionals);
    if k < |additionals| {
      assert additionals[k] in additionals;
      assert forall j: nat :: FirstOpt(additionals, j) ==> j == k;
    }
  }

  lemma MarkedIs(resp: seq<byte>)
    ensures Marked(resp) <==> TcBitSet(resp)
  {
  }

  lemma CondemnedIs(engine: Rules.Engine, index: Blocklist.Index, rules: seq<Rules.Rule>, name: Name)
    requires Blocklist.Indexes(index, rules)
    ensures Condemned(engine, rules, name) <==> IsBlocked(engine, index, name)
  {
    hide Rules.NaiveVerdict, Blocklist.Looked, Rules.Lower, Blocklist.Indexes;
    Blocklist.LookupIsScan(engine, index, rules, Rules.Lower(name));
  }

  lemma AliasCondemnedIs(engine: Rules.Engine, index: Blocklist.Index, rules: seq<Rules.Rule>, resp: seq<byte>)
    requires Blocklist.Indexes(index, rules)
    ensures AliasCondemned(engine, rules, resp) <==> Cloaks(engine, index, resp)
  {
    hide MessageAt, Condemned, IsBlocked, Blocklist.Indexes;
    forall name
      ensures Condemned(engine, rules, name) <==> IsBlocked(engine, index, name)
    {
      CondemnedIs(engine, index, rules, name);
    }
  }

  /**
   What a UDP client gets. A query whose first name the rules block is refused and never reaches the upstream. Else, if
   the upstream's final reply has an alias the rules block, it is refused. Else it gets that reply: octet for octet if
   it fits the client's limit, cut if it parses, and nothing otherwise.
   */
  lemma UdpClientGets(engine: Rules.Engine, index: Blocklist.Index, rules: seq<Rules.Rule>, packet: seq<byte>,
                      udp: Result<seq<byte>, IoError>, tcp: Result<seq<byte>, IoError>,
                      final: Result<seq<byte>, IoError>, limit: nat)
    requires Blocklist.Indexes(index, rules) && MessageAt(packet).Ok?
    requires Final(udp, tcp, final) && Limit(MessageAt(packet).value.additionals, limit)
    ensures var m := MessageAt(packet).value;
            UdpAnswer(engine, index, packet, udp, tcp) ==
            if FirstCondemned(engine, rules, m) then Ok(MessageBytes(NxdomainFor(m)))
            else if final.Err? then Err(UpstreamFailed(final.error))
            else if m.questions != [] && AliasCondemned(engine, rules, final.value)
            then Ok(MessageBytes(NxdomainFor(m)))
            else if |final.value| <= limit then Ok(final.value)
            else if MessageAt(final.value).Ok? then Ok(MessageBytes(Truncated(MessageAt(final.value).value)))
            else Err(BadPacket(MessageAt(final.value).error))
    ensures var m := MessageAt(packet).value;
            Asked(engine, index, packet) ==
            if FirstCondemned(engine, rules, m) then None else Some(MessageBytes(ForUpstream(m)))
  {
    hide MessageAt, MessageBytes, Cloaks, IsBlocked, TcBitSet, Marked, AliasCondemned, Condemned, ClientUdpSize, Limit,
      Blocklist.Indexes, NxdomainFor, Truncated, ForUpstream;
    var m := MessageAt(packet).value;
    LimitIs(m.additionals, limit);
    if udp.Ok? {
      MarkedIs(udp.value);
    }
    if m.questions != [] {
      CondemnedIs(engine, index, rules, m.questions[0].name);
    }
    if final.Ok? {
      AliasCondemnedIs(engine, index, rules, final.value);
    }
  }

  /** What a TCP client gets: the same verdicts, and a reply that is not refused comes as it is, however long. */
  lemma TcpClientGets(engine: Rules.Engine, index: Blocklist.Index, rules: seq<Rules.Rule>, packet: seq<byte>,
                      tcp: Result<seq<byte>, IoError>)
    requires Blocklist.Indexes(index, rules) && MessageAt(packet).Ok?
    ensures var m := MessageAt(packet).value;
            TcpAnswer(engine, index, packet, tcp) ==
            if FirstCondemned(engine, rules, m) then Ok(MessageBytes(NxdomainFor(m)))
            else if tcp.Err? then Err(UpstreamFailed(tcp.error))
            else if m.questions != [] && AliasCondemned(engine, rules, tcp.value) then Ok(MessageBytes(NxdomainFor(m)))
            else Ok(tcp.value)
  {
    hide MessageAt, MessageBytes, Cloaks, IsBlocked, AliasCondemned, Condemned, Blocklist.Indexes, NxdomainFor;
    var m := MessageAt(packet).value;
    if m.questions != [] {
      CondemnedIs(engine, index, rules, m.questions[0].name);
    }
    if tcp.Ok? {
      AliasCondemnedIs(engine, index, rules, tcp.value);
    }
  }
}
