/** The load balancer: client flows stick to a backend chosen by consistent hashing; backends announce
    themselves by heartbeats and are forgotten when they fall silent. */
module LoadBalancer {
  import opened Counting
  import opened Preference
  import opened Options
  import opened Coherence

  datatype Flow = Flow(srcIp: nat, dstIp: nat, srcPort: nat, dstPort: nat, protocol: nat)

  datatype Backend = Backend(nic: nat, mac: nat, ip: nat)

  datatype Packet = Packet(device: nat, time: int, tcpudp: bool, mac: nat, flow: Flow)

  /** `rank` is how the hash bucket of a flow ranks the backends. */
  datatype Setup = Setup(wan: nat, flowCapacity: nat, backendCapacity: nat,
                         flowExpiry: int, backendExpiry: int, rank: Flow -> nat -> nat)

  /** Flows and the backend each was given; backend addresses and their records. */
  datatype State = State(flows: map<Flow, Entry>, backendOf: seq<nat>, ips: map<nat, Entry>, backends: seq<Backend>)

  /** The backends that are alive: the allocated indexes of the address table. */
  ghost function Active(ips: map<nat, Entry>): (active: set<nat>)
    ensures forall i :: i in active <==> Used(ips, i)
  {
    set ip | ip in ips :: ips[ip].index
  }

  ghost predicate Good(f: Setup, s: State) {
    GoodFlows(f, s.flows, s.backendOf) && GoodIps(f, s.ips, s.backends)
  }

  ghost predicate GoodFlows(f: Setup, flows: map<Flow, Entry>, backendOf: seq<nat>) {
    && GoodView(flows, f.flowCapacity) && |backendOf| == f.flowCapacity
    && forall x :: x in flows ==> backendOf[flows[x].index] < f.backendCapacity
  }

  ghost predicate GoodIps(f: Setup, ips: map<nat, Entry>, backends: seq<Backend>) {
    && GoodView(ips, f.backendCapacity) && |backends| == f.backendCapacity
    && forall ip :: ip in ips ==> Announced(f, backends[ips[ip].index], ip)
  }

  /** A backend's record agrees with the address table, and no backend is reached through the WAN device. */
  ghost predicate Announced(f: Setup, b: Backend, ip: nat) {
    b.ip == ip && b.nic != f.wan
  }

  ghost predicate NotAhead(s: State, time: int) {
    UpTo(s.flows, time) && UpTo(s.ips, time)
  }

  ghost function Aged(f: Setup, s: State, time: int): (s': State) {
    s.(flows := Expire(s.flows, time - f.flowExpiry), ips := Expire(s.ips, time - f.backendExpiry))
  }

  ghost predicate Joins(f: Setup, s: State, ip: nat) {
    ip !in s.ips && |s.ips| < f.backendCapacity
  }

  ghost function Heartbeat(f: Setup, s: State, p: Packet, pick: nat): (s': State)
    requires Good(f, s) && (Joins(f, s, p.flow.srcIp) ==> pick < f.backendCapacity)
  {
    var ip := p.flow.srcIp;
    if ip in s.ips then s.(ips := Touch(s.ips, ip, p.time))
    else if Joins(f, s, ip) then
      s.(ips := s.ips[ip := Entry(pick, p.time)], backends := s.backends[pick := Backend(p.device, p.mac, ip)])
    else s
  }

  /** The flow is recorded with a backend that is still alive. */
  ghost predicate Sticks(f: Setup, s: State, flow: Flow)
    requires Good(f, s)
  {
    flow in s.flows && s.backendOf[s.flows[flow].index] in Active(s.ips)
  }

  /** The flow table without a record that has lost its backend. */
  ghost function Cleared(f: Setup, s: State, flow: Flow): (flows: map<Flow, Entry>) {
    map x | x in s.flows && x != flow :: s.flows[x]
  }

  /** A flow that does not stick is recorded anew if some backend is alive and the table has room; a record that
      has lost its backend always leaves room for the new one. */
  ghost predicate Records(f: Setup, s: State, flow: Flow)
    requires Good(f, s)
  {
    !Sticks(f, s, flow) && Active(s.ips) != {} && (flow in s.flows || |s.flows| < f.flowCapacity)
  }

  ghost function Client(f: Setup, s: State, flow: Flow, time: int, pick: nat): (s': State)
    requires Good(f, s) && (Records(f, s, flow) ==> pick < f.flowCapacity)
  {
    if Sticks(f, s, flow) then s.(flows := Touch(s.flows, flow, time))
    else if Records(f, s, flow) then
      s.(flows := Cleared(f, s, flow)[flow := Entry(pick, time)],
         backendOf := s.backendOf[pick := Choice(f.rank(flow), Active(s.ips))])
    else s.(flows := Cleared(f, s, flow))
  }

  /** The backend a client packet goes to, if any. */
  ghost function Chosen(f: Setup, s: State, flow: Flow): (b: Option<nat>)
    requires Good(f, s)
  {
    if Sticks(f, s, flow) then Some(s.backendOf[s.flows[flow].index])
    else if Active(s.ips) != {} then Some(Choice(f.rank(flow), Active(s.ips)))
    else None
  }

  /** The device a client packet is sent to, and the backend; the WAN device if there is none. */
  ghost function Sent(f: Setup, s: State, flow: Flow): (out: (nat, Option<Backend>))
    requires Good(f, s)
  {
    match Chosen(f, s, flow)
    case None => (f.wan, None)
    case Some(b) => if b < |s.backends| then (s.backends[b].nic, Some(s.backends[b])) else (f.wan, None)
  }

  ghost predicate Legal(f: Setup, s: State, p: Packet, pick: nat) {
    && Good(f, s) && NotAhead(s, p.time)
    && var aged := Aged(f, s, p.time);
    && Good(f, aged)
    && (p.tcpudp && p.device != f.wan && Joins(f, aged, p.flow.srcIp) ==>
          pick < f.backendCapacity && !Used(aged.ips, pick))
    && (p.tcpudp && p.device == f.wan && Records(f, aged, p.flow) ==>
          pick < f.flowCapacity && !Used(Cleared(f, aged, p.flow), pick))
  }

  ghost function Step(f: Setup, s: State, p: Packet, pick: nat): (s': State)
    requires Legal(f, s, p, pick)
  {
    var aged := Aged(f, s, p.time);
    if !p.tcpudp then aged
    else if p.device != f.wan then Heartbeat(f, aged, p, pick)
    else Client(f, aged, p.flow, p.time, pick)
  }

  /** The device a packet leaves on, and where it is sent; its own device means that it is dropped. */
  ghost function Output(f: Setup, s: State, p: Packet): (out: (nat, Option<Backend>))
    requires Good(f, Aged(f, s, p.time))
  {
    var aged := Aged(f, s, p.time);
    if !p.tcpudp || p.device != f.wan then (p.device, None)
    else Sent(f, aged, p.flow)
  }

  // ----- What every step keeps

  lemma {:induction false} AgedFlowsAreGood(f: Setup, s: State, time: int)
    requires GoodFlows(f, s.flows, s.backendOf)
    ensures GoodFlows(f, Aged(f, s, time).flows, s.backendOf)
  {
    ExpireIsGood(s.flows, f.flowCapacity, time - f.flowExpiry);
  }

  lemma {:induction false} AgedIpsAreGood(f: Setup, s: State, time: int)
    requires GoodIps(f, s.ips, s.backends)
    ensures GoodIps(f, Aged(f, s, time).ips, s.backends)
  {
    ExpireIsGood(s.ips, f.backendCapacity, time - f.backendExpiry);
  }

  lemma {:induction false} AgedIsGood(f: Setup, s: State, time: int)
    requires Good(f, s)
    ensures Good(f, Aged(f, s, time))
  {
    AgedFlowsAreGood(f, s, time);
    AgedIpsAreGood(f, s, time);
  }

  lemma {:induction false} AgedIsCurrent(f: Setup, s: State, time: int)
    requires NotAhead(s, time)
    ensures NotAhead(Aged(f, s, time), time)
  {
    assert UpTo(Expire(s.flows, time - f.flowExpiry), time);
    assert UpTo(Expire(s.ips, time - f.backendExpiry), time);
  }

  lemma {:induction false} HeartbeatIsGood(f: Setup, s: State, p: Packet, pick: nat)
    requires Good(f, s) && NotAhead(s, p.time) && p.device != f.wan
    requires Joins(f, s, p.flow.srcIp) ==> pick < f.backendCapacity && !Used(s.ips, pick)
    ensures Good(f, Heartbeat(f, s, p, pick)) && NotAhead(Heartbeat(f, s, p, pick), p.time)
  {
    var ip := p.flow.srcIp;
    if ip in s.ips {
      TouchIsGood(s.ips, f.backendCapacity, ip, p.time);
    } else if Joins(f, s, ip) {
      OpenIsGood(s.ips, f.backendCapacity, ip, pick, p.time);
    }
  }

  lemma {:induction false} ActiveBelow(f: Setup, s: State)
    requires Good(f, s)
    ensures Active(s.ips) <= Below(f.backendCapacity)
  {
    forall i | i in Active(s.ips)
      ensures i in Below(f.backendCapacity)
    {
      assert IsNat(i);
    }
  }

  lemma {:induction false} ClearedIsGood(f: Setup, s: State, flow: Flow)
    requires Good(f, s)
    ensures GoodFlows(f, Cleared(f, s, flow), s.backendOf)
    ensures |Cleared(f, s, flow)| == if flow in s.flows then |s.flows| - 1 else |s.flows|
  {
    var r := Cleared(f, s, flow);
    assert r.Keys == s.flows.Keys - {flow} && |r| == |r.Keys| && |s.flows| == |s.flows.Keys|;
    assert Peek(0, s.flows);
  }

  lemma {:induction false} Unrecorded(f: Setup, s: State, flow: Flow)
    requires Good(f, s) && flow !in s.flows
    ensures Cleared(f, s, flow) == s.flows
  {
  }

  lemma {:induction false} RecordIsGood(f: Setup, flows: map<Flow, Entry>, backendOf: seq<nat>,
                                        flow: Flow, time: int, pick: nat, b: nat)
    requires GoodFlows(f, flows, backendOf) && UpTo(flows, time) && flow !in flows && b < f.backendCapacity
    requires |flows| < f.flowCapacity && pick < f.flowCapacity && !Used(flows, pick)
    ensures GoodFlows(f, flows[flow := Entry(pick, time)], backendOf[pick := b])
    ensures UpTo(flows[flow := Entry(pick, time)], time)
  {
    OpenIsGood(flows, f.flowCapacity, flow, pick, time);
  }

  lemma {:induction false} ClientIsGood(f: Setup, s: State, flow: Flow, time: int, pick: nat)
    requires Good(f, s) && NotAhead(s, time)
    requires Records(f, s, flow) ==> pick < f.flowCapacity && !Used(Cleared(f, s, flow), pick)
    ensures Good(f, Client(f, s, flow, time, pick)) && NotAhead(Client(f, s, flow, time, pick), time)
  {
    ClearedIsGood(f, s, flow);
    if Sticks(f, s, flow) {
      TouchIsGood(s.flows, f.flowCapacity, flow, time);
    } else if Records(f, s, flow) {
      ActiveBelow(f, s);
      var b := Choice(f.rank(flow), Active(s.ips));
      assert b in Below(f.backendCapacity);
      RecordIsGood(f, Cleared(f, s, flow), s.backendOf, flow, time, pick, b);
    }
  }

  /** What a client step does for an unknown flow when some backend is alive. */
  lemma {:induction false} UnknownFlow(f: Setup, s: State, flow: Flow, time: int, pick: nat, b: nat)
    requires Good(f, s) && NotAhead(s, time) && flow !in s.flows && Active(s.ips) != {}
    requires b == Choice(f.rank(flow), Active(s.ips))
    requires |s.flows| < f.flowCapacity ==> pick < f.flowCapacity && !Used(s.flows, pick)
    ensures Records(f, s, flow) <==> |s.flows| < f.flowCapacity
    ensures Good(f, Client(f, s, flow, time, pick))
    ensures Client(f, s, flow, time, pick)
         == if |s.flows| < f.flowCapacity
            then s.(flows := s.flows[flow := Entry(pick, time)], backendOf := s.backendOf[pick := b]) else s
  {
    Unrecorded(f, s, flow);
    ClientIsGood(f, s, flow, time, pick);
  }

  lemma {:induction false} StepIsGood(f: Setup, s: State, p: Packet, pick: nat)
    requires Legal(f, s, p, pick)
    ensures Good(f, Step(f, s, p, pick)) && NotAhead(Step(f, s, p, pick), p.time)
  {
    var aged := Aged(f, s, p.time);
    AgedIsCurrent(f, s, p.time);
    if p.tcpudp {
      if p.device != f.wan {
        HeartbeatIsGood(f, aged, p, pick);
      } else {
        ClientIsGood(f, aged, p.flow, p.time, pick);
      }
    }
  }

  /** A client packet is sent back out of the WAN device exactly when no backend is alive; otherwise it goes to
      a live backend, through a device other than the WAN's. */
  lemma {:induction false} DropIsUnambiguous(f: Setup, s: State, p: Packet)
    requires Good(f, s) && p.tcpudp && p.device == f.wan
    ensures Good(f, Aged(f, s, p.time))
    ensures var aged, out := Aged(f, s, p.time), Output(f, s, p);
            && (out.0 == f.wan <==> Active(aged.ips) == {})
            && (out.0 != f.wan ==> out.1.Some? && out.1.value.nic == out.0 && out.1.value.ip in aged.ips
                                   && aged.backends[aged.ips[out.1.value.ip].index] == out.1.value)
  {
    AgedIsGood(f, s, p.time);
    var aged := Aged(f, s, p.time);
    var b := Chosen(f, aged, p.flow);
    if b.Some? {
      assert b.value in Active(aged.ips);
      assert Used(aged.ips, b.value);
      var ip :| ip in aged.ips && aged.ips[ip].index == b.value;
      assert Announced(f, aged.backends[b.value], ip);
    }
  }

  /** A state and an output that answer a client packet: a free index for a new record, the state of the client
      step, and the backend chosen. */
  ghost predicate Answers(f: Setup, s: State, flow: Flow, time: int, pick: nat, s': State, out: (nat, Option<Backend>))
    requires Good(f, s)
  {
    && (Records(f, s, flow) ==> pick < f.flowCapacity && !Used(Cleared(f, s, flow), pick))
    && s' == Client(f, s, flow, time, pick) && out == Sent(f, s, flow)
  }

  /** Clearing a flow that has lost its backend and asking again answers as the single step does. */
  lemma {:induction false} ClearedAgain(f: Setup, s: State, flow: Flow, time: int, pick: nat, s': State,
                                        out: (nat, Option<Backend>))
    requires Good(f, s) && flow in s.flows && !Sticks(f, s, flow)
    requires Good(f, s.(flows := Cleared(f, s, flow)))
    requires Answers(f, s.(flows := Cleared(f, s, flow)), flow, time, pick, s', out)
    ensures Answers(f, s, flow, time, pick, s', out)
  {
    var c := s.(flows := Cleared(f, s, flow));
    ClearedIsGood(f, s, flow);
    assert Chosen(f, c, flow) == Chosen(f, s, flow) && (Records(f, c, flow) <==> Records(f, s, flow));
    assert Cleared(f, c, flow) == c.flows;
  }

  // ----- Runs

  ghost predicate StepAt(f: Setup, packets: seq<Packet>, picks: seq<nat>, states: seq<State>, i: nat)
    requires i < |packets| == |picks| && |states| == |packets| + 1
  {
    Legal(f, states[i], packets[i], picks[i]) && states[i + 1] == Step(f, states[i], packets[i], picks[i])
  }

  /** A run from empty tables, with the states between its packets. */
  ghost predicate Run(f: Setup, packets: seq<Packet>, picks: seq<nat>, states: seq<State>) {
    && |picks| == |packets| && |states| == |packets| + 1
    && states[0].flows == map[] && states[0].ips == map[] && Good(f, states[0])
    && (forall i: nat {:trigger StepAt(f, packets, picks, states, i)} ::
          i < |packets| ==> StepAt(f, packets, picks, states, i))
    && (forall i, j :: 0 <= i <= j < |packets| ==> packets[i].time <= packets[j].time)
  }

  lemma {:induction false} StateIsGood(f: Setup, packets: seq<Packet>, picks: seq<nat>, states: seq<State>, n: nat)
    requires Run(f, packets, picks, states) && n <= |packets|
    ensures Good(f, states[n])
  {
    if n > 0 {
      assert StepAt(f, packets, picks, states, n - 1);
      StepIsGood(f, states[n - 1], packets[n - 1], picks[n - 1]);
    }
  }

  /** A recorded flow that does not age out keeps its index and its backend, whatever packet comes, as long as
      that backend stays alive. */
  lemma {:induction false} FlowSticks(f: Setup, s: State, p: Packet, pick: nat, x: Flow)
    requires Legal(f, s, p, pick) && Sticks(f, Aged(f, s, p.time), x)
    ensures var s', i := Step(f, s, p, pick), s.flows[x].index;
            x in s'.flows && s'.flows[x].index == i && i < |s'.backendOf| && s'.backendOf[i] == s.backendOf[i]
  {
    var aged := Aged(f, s, p.time);
    assert aged.flows[x] == s.flows[x];
    if p.tcpudp && p.device == f.wan {
      StaysRecorded(f, aged, p.flow, p.time, pick, x);
    }
  }

  lemma {:induction false} StaysRecorded(f: Setup, s: State, flow: Flow, time: int, pick: nat, x: Flow)
    requires Good(f, s) && Sticks(f, s, x)
    requires Records(f, s, flow) ==> pick < f.flowCapacity && !Used(Cleared(f, s, flow), pick)
    ensures var s', i := Client(f, s, flow, time, pick), s.flows[x].index;
            x in s'.flows && s'.flows[x].index == i && |s'.backendOf| == |s.backendOf|
              && s'.backendOf[i] == s.backendOf[i]
  {
    if flow != x && Records(f, s, flow) {
      assert x in Cleared(f, s, flow) && Cleared(f, s, flow)[x].index == s.flows[x].index;
      assert Used(Cleared(f, s, flow), s.flows[x].index);
    }
  }

  /** The record of a backend does not change while the backend is alive: a new one takes an index that is free. */
  lemma {:induction false} RecordStays(f: Setup, s: State, p: Packet, pick: nat, b: nat)
    requires Legal(f, s, p, pick) && b in Active(Aged(f, s, p.time).ips)
    ensures b < |s.backends| == |Step(f, s, p, pick).backends| && Step(f, s, p, pick).backends[b] == s.backends[b]
  {
    assert Used(Aged(f, s, p.time).ips, b);
  }

  lemma {:induction false} ActiveAfterJoining(ips: map<nat, Entry>, ip: nat, pick: nat, time: int)
    requires ip !in ips
    ensures Active(ips[ip := Entry(pick, time)]) == Active(ips) + {pick}
  {
    var ips' := ips[ip := Entry(pick, time)];
    assert ips'[ip].index == pick;
    forall i | i in Active(ips)
      ensures i in Active(ips')
    {
      var x :| x in ips && ips[x].index == i;
      assert ips'[x].index == i;
    }
    forall i | i in Active(ips')
      ensures i in Active(ips) + {pick}
    {
      var x :| x in ips' && ips'[x].index == i;
      assert x == ip || ips[x].index == i;
    }
  }

  /** A flow that has lost its backend when a new backend joins is inherited by it exactly if the new one takes the
      old one's index, whatever a fresh lookup would choose. */
  lemma {:induction false} InheritedExactly(f: Setup, s: State, p: Packet, pick: nat, x: Flow)
    requires Legal(f, s, p, pick) && p.tcpudp && p.device != f.wan
    requires var aged := Aged(f, s, p.time);
             Joins(f, aged, p.flow.srcIp) && x in aged.flows && !Sticks(f, aged, x)
    ensures Good(f, Step(f, s, p, pick))
    ensures var s' := Step(f, s, p, pick);
            && (Sticks(f, s', x) <==> pick == s.backendOf[s.flows[x].index])
            && (Sticks(f, s', x) ==> Sent(f, s', x) == (p.device, Some(Backend(p.device, p.mac, p.flow.srcIp))))
            && pick in Active(s'.ips)
            && (!Sticks(f, s', x) ==> Chosen(f, s', x) == Some(Choice(f.rank(x), Active(s'.ips))))
  {
    var aged, s', b := Aged(f, s, p.time), Step(f, s, p, pick), s.backendOf[s.flows[x].index];
    StepIsGood(f, s, p, pick);
    ActiveAfterJoining(aged.ips, p.flow.srcIp, pick, p.time);
    assert s'.ips == aged.ips[p.flow.srcIp := Entry(pick, p.time)] && b !in Active(aged.ips);
  }

  /** The backends that join with a packet. */
  ghost function JoinedBy(f: Setup, s: State, p: Packet, pick: nat): (joined: set<nat>) {
    if p.tcpudp && p.device != f.wan && Joins(f, Aged(f, s, p.time), p.flow.srcIp) then {pick} else {}
  }

  lemma {:induction false} OnlyJoinersAreNew(f: Setup, s: State, p: Packet, pick: nat)
    requires Legal(f, s, p, pick)
    ensures Active(Step(f, s, p, pick).ips) <= Active(Aged(f, s, p.time).ips) + JoinedBy(f, s, p, pick)
    ensures Active(Aged(f, s, p.time).ips) <= Active(s.ips)
  {
    var aged, s' := Aged(f, s, p.time), Step(f, s, p, pick);
    forall i | i in Active(s'.ips)
      ensures i in Active(aged.ips) + JoinedBy(f, s, p, pick)
    {
      var ip :| ip in s'.ips && s'.ips[ip].index == i;
      if ip in aged.ips {
        assert aged.ips[ip].index == i;
      }
    }
    forall i | i in Active(aged.ips)
      ensures i in Active(s.ips)
    {
      var ip :| ip in aged.ips && aged.ips[ip].index == i;
      assert s.ips[ip].index == i;
    }
  }

  /** The backends that joined with packets `i` to `n - 1`. */
  ghost function Joined(f: Setup, packets: seq<Packet>, picks: seq<nat>, states: seq<State>, i: nat,
                        n: nat): (r: set<nat>)
    requires n <= |packets| == |picks| && |states| == |packets| + 1
  {
    set k: nat | i <= k < n && picks[k] in JoinedBy(f, states[k], packets[k], picks[k]) :: picks[k]
  }

  /** When packet `m` comes, flow `x` has not aged out and backend `b` is alive. */
  ghost predicate KeptAt(f: Setup, packets: seq<Packet>, states: seq<State>, m: nat, x: Flow, b: nat)
    requires m < |packets| && m < |states|
  {
    var aged := Aged(f, states[m], packets[m].time);
    x in aged.flows && b in Active(aged.ips)
  }

  /** Packet `i` records flow `x`. */
  ghost predicate RecordsAt(f: Setup, packets: seq<Packet>, states: seq<State>, i: nat, x: Flow)
    requires i < |packets| && i < |states|
  {
    var p, aged := packets[i], Aged(f, states[i], packets[i].time);
    p.tcpudp && p.device == f.wan && p.flow == x && Good(f, aged) && Records(f, aged, x)
  }

  /** Before packet `m`, flow `x` is recorded with backend `b`. */
  ghost predicate Cached(states: seq<State>, m: nat, x: Flow, b: nat)
    requires m < |states|
  {
    && x in states[m].flows && states[m].flows[x].index < |states[m].backendOf|
    && states[m].backendOf[states[m].flows[x].index] == b
  }

  lemma {:induction false} CachedSince(f: Setup, packets: seq<Packet>, picks: seq<nat>, states: seq<State>,
                                       i: nat, m: nat, x: Flow, b: nat)
    requires Run(f, packets, picks, states) && i < m <= |packets| && Cached(states, i + 1, x, b)
    requires forall k: nat {:trigger KeptAt(f, packets, states, k, x, b)} ::
               i < k < m ==> KeptAt(f, packets, states, k, x, b)
    ensures Cached(states, m, x, b)
    decreases m
  {
    if m > i + 1 {
      CachedSince(f, packets, picks, states, i, m - 1, x, b);
      assert KeptAt(f, packets, states, m - 1, x, b);
      CachedOn(f, packets, picks, states, m - 1, x, b);
    }
  }

  lemma {:induction false} Recorded(f: Setup, s: State, p: Packet, pick: nat, x: Flow)
    requires Legal(f, s, p, pick) && p.tcpudp && p.device == f.wan && p.flow == x
    requires Records(f, Aged(f, s, p.time), x)
    ensures var s', ips := Step(f, s, p, pick), Aged(f, s, p.time).ips;
            && x in s'.flows && s'.flows[x].index < |s'.backendOf|
            && s'.backendOf[s'.flows[x].index] == Choice(f.rank(x), Active(ips)) && s'.ips == ips
            && s'.backends == s.backends
  {
  }

  lemma {:induction false} CachedOn(f: Setup, packets: seq<Packet>, picks: seq<nat>, states: seq<State>,
                                    m: nat, x: Flow, b: nat)
    requires Run(f, packets, picks, states) && m < |packets|
    requires Cached(states, m, x, b) && KeptAt(f, packets, states, m, x, b)
    ensures Cached(states, m + 1, x, b)
  {
    assert StepAt(f, packets, picks, states, m);
    FlowSticks(f, states[m], packets[m], picks[m], x);
  }

  /** A backend alive after packet `m` was alive before it, or joined with it. */
  lemma {:induction false} CameFrom(f: Setup, packets: seq<Packet>, picks: seq<nat>, states: seq<State>, m: nat, b: nat)
    requires Run(f, packets, picks, states) && m < |packets| && b in Active(states[m + 1].ips)
    ensures b in Active(states[m].ips) || b in JoinedBy(f, states[m], packets[m], picks[m])
  {
    assert StepAt(f, packets, picks, states, m);
    OnlyJoinersAreNew(f, states[m], packets[m], picks[m]);
  }

  /** What holds after some steps held before them, or one of them brought it about. */
  lemma {:induction false} HeldOrBrought(holds: seq<bool>, brought: seq<bool>, i: nat, m: nat) returns (k: nat)
    requires i <= m < |holds| == |brought| + 1 && holds[m]
    requires forall q :: 0 <= q < |brought| && holds[q + 1] ==> holds[q] || brought[q]
    ensures holds[i] || (i <= k < m && brought[k])
    decreases m
  {
    k := m;
    if m > i {
      k := m - 1;
      if !brought[k] {
        k := HeldOrBrought(holds, brought, i, m - 1);
      }
    }
  }

  /** A backend alive before packet `m` was alive before packet `i`, or joined since. */
  lemma {:induction false} AliveOrJoined(f: Setup, packets: seq<Packet>, picks: seq<nat>, states: seq<State>,
                                         i: nat, m: nat, b: nat)
    requires Run(f, packets, picks, states) && i <= m <= |packets| && b in Active(states[m].ips)
    ensures b in Active(states[i].ips) || b in Joined(f, packets, picks, states, i, m)
  {
    var holds := seq(|states|, k requires 0 <= k < |states| => b in Active(states[k].ips));
    var brought := seq(|packets|, k requires 0 <= k < |packets| => b in JoinedBy(f, states[k], packets[k], picks[k]));
    forall q | 0 <= q < |brought| && holds[q + 1]
      ensures holds[q] || brought[q]
    {
      CameFrom(f, packets, picks, states, q, b);
    }
    var k := HeldOrBrought(holds, brought, i, m);
    if b !in Active(states[i].ips) {
      assert b == picks[k];
    }
  }

  /** The record of a backend is the one it had at packet `i`. */
  ghost predicate SameRecord(states: seq<State>, i: nat, m: nat, b: nat)
    requires i < |states| && m < |states|
  {
    b < |states[m].backends| && b < |states[i].backends| && states[m].backends[b] == states[i].backends[b]
  }

  /** Backend `b` is alive when packet `m` comes. */
  ghost predicate AliveAt(f: Setup, packets: seq<Packet>, states: seq<State>, m: nat, b: nat)
    requires m < |packets| && m < |states|
  {
    b in Active(Aged(f, states[m], packets[m].time).ips)
  }

  lemma {:induction false} SameRecordOn(f: Setup, packets: seq<Packet>, picks: seq<nat>, states: seq<State>,
                                        m: nat, b: nat)
    requires Run(f, packets, picks, states) && m < |packets| && AliveAt(f, packets, states, m, b)
    ensures SameRecord(states, m, m + 1, b)
  {
    assert StepAt(f, packets, picks, states, m);
    RecordStays(f, states[m], packets[m], picks[m], b);
  }

  lemma {:induction false} SameRecordSince(f: Setup, packets: seq<Packet>, picks: seq<nat>, states: seq<State>,
                                           i: nat, m: nat, b: nat)
    requires Run(f, packets, picks, states) && i < m <= |packets|
    requires forall k: nat {:trigger AliveAt(f, packets, states, k, b)} ::
               i <= k < m ==> AliveAt(f, packets, states, k, b)
    ensures SameRecord(states, i, m, b)
    decreases m
  {
    if m > i + 1 {
      SameRecordSince(f, packets, picks, states, i, m - 1, b);
    }
    assert AliveAt(f, packets, states, m - 1, b);
    SameRecordOn(f, packets, picks, states, m - 1, b);
  }

  lemma {:induction false} RecordedIsAlive(f: Setup, packets: seq<Packet>, states: seq<State>, i: nat, m: nat,
                                           x: Flow, b: nat)
    requires i < m <= |packets| && |states| == |packets| + 1 && RecordsAt(f, packets, states, i, x)
    requires b == Choice(f.rank(x), Active(Aged(f, states[i], packets[i].time).ips))
    requires forall k: nat {:trigger KeptAt(f, packets, states, k, x, b)} ::
               i < k < m ==> KeptAt(f, packets, states, k, x, b)
    ensures forall k: nat {:trigger AliveAt(f, packets, states, k, b)} ::
              i <= k < m ==> AliveAt(f, packets, states, k, b)
  {
    forall k: nat | i <= k < m
      ensures AliveAt(f, packets, states, k, b)
    {
      assert k == i || KeptAt(f, packets, states, k, x, b);
    }
  }

  lemma {:induction false} CachedFirst(f: Setup, packets: seq<Packet>, picks: seq<nat>, states: seq<State>,
                                       i: nat, x: Flow, b: nat)
    requires Run(f, packets, picks, states) && i < |packets| && RecordsAt(f, packets, states, i, x)
    requires b == Choice(f.rank(x), Active(Aged(f, states[i], packets[i].time).ips))
    ensures Cached(states, i + 1, x, b) && states[i + 1].ips == Aged(f, states[i], packets[i].time).ips
  {
    assert StepAt(f, packets, picks, states, i);
    Recorded(f, states[i], packets[i], picks[i], x);
  }

  /** A fresh lookup when packet `n` comes chooses backend `b`, as before packet `i`, or one that joined since. */
  lemma {:induction false} FreshLookup(f: Setup, packets: seq<Packet>, picks: seq<nat>, states: seq<State>,
                                       i: nat, n: nat, x: Flow, b: nat)
    requires Run(f, packets, picks, states) && i <= n < |packets| && Active(states[i].ips) != {}
    requires b == Choice(f.rank(x), Active(states[i].ips)) && AliveAt(f, packets, states, n, b)
    ensures Choice(f.rank(x), Active(Aged(f, states[n], packets[n].time).ips))
            in {b} + Joined(f, packets, picks, states, i, n)
  {
    var after := Active(Aged(f, states[n], packets[n].time).ips);
    var a := Choice(f.rank(x), after);
    assert StepAt(f, packets, picks, states, n);
    OnlyJoinersAreNew(f, states[n], packets[n], picks[n]);
    Disruption(f.rank(x), Active(states[i].ips), after);
    AliveOrJoined(f, packets, picks, states, i, n, a);
  }

  /** A flow that is recorded with a live backend is sent there. */
  lemma {:induction false} SentToRecorded(f: Setup, packets: seq<Packet>, picks: seq<nat>, states: seq<State>,
                                          i: nat, n: nat, x: Flow, b: nat)
    requires Run(f, packets, picks, states) && i < n < |packets| && Cached(states, n, x, b)
    requires KeptAt(f, packets, states, n, x, b) && SameRecord(states, i, n, b)
    ensures var aged := Aged(f, states[n], packets[n].time);
            && Good(f, aged) && Chosen(f, aged, x) == Some(b)
            && Sent(f, aged, x) == (states[i].backends[b].nic, Some(states[i].backends[b]))
  {
    StateIsGood(f, packets, picks, states, n);
    AgedIsGood(f, states[n], packets[n].time);
    assert Aged(f, states[n], packets[n].time).flows[x] == states[n].flows[x];
  }

  lemma {:induction false} StillSent(f: Setup, packets: seq<Packet>, picks: seq<nat>, states: seq<State>,
                                     i: nat, n: nat, x: Flow, b: nat)
    requires Run(f, packets, picks, states) && i < n < |packets| && RecordsAt(f, packets, states, i, x)
    requires b == Choice(f.rank(x), Active(Aged(f, states[i], packets[i].time).ips))
    requires forall k: nat {:trigger KeptAt(f, packets, states, k, x, b)} ::
               i < k <= n ==> KeptAt(f, packets, states, k, x, b)
    ensures SameRecord(states, i, n, b)
    ensures var aged := Aged(f, states[n], packets[n].time);
            && Good(f, aged) && Chosen(f, aged, x) == Some(b)
            && Sent(f, aged, x) == (states[i].backends[b].nic, Some(states[i].backends[b]))
  {
    CachedFirst(f, packets, picks, states, i, x, b);
    CachedSince(f, packets, picks, states, i, n, x, b);
    RecordedIsAlive(f, packets, states, i, n, x, b);
    SameRecordSince(f, packets, picks, states, i, n, b);
    assert KeptAt(f, packets, states, n, x, b);
    SentToRecorded(f, packets, picks, states, i, n, x, b);
  }

  lemma {:induction false} StillPreferred(f: Setup, packets: seq<Packet>, picks: seq<nat>, states: seq<State>,
                                          i: nat, n: nat, x: Flow, b: nat)
    requires Run(f, packets, picks, states) && i < n < |packets| && RecordsAt(f, packets, states, i, x)
    requires b == Choice(f.rank(x), Active(Aged(f, states[i], packets[i].time).ips))
    requires KeptAt(f, packets, states, n, x, b)
    ensures Choice(f.rank(x), Active(Aged(f, states[n], packets[n].time).ips))
            in {b} + Joined(f, packets, picks, states, i + 1, n)
  {
    CachedFirst(f, packets, picks, states, i, x, b);
    FreshLookup(f, packets, picks, states, i + 1, n, x, b);
  }

  /** The flow table agrees with the hash table it caches: while a recorded flow neither ages out nor loses its
      backend, it is sent to the backend it was recorded with, at the same address and through the same device, and
      a fresh lookup would choose that backend too, unless it would choose one that joined after the flow was
      recorded. */
  lemma {:induction false} KeptAgrees(f: Setup, packets: seq<Packet>, picks: seq<nat>, states: seq<State>,
                                       i: nat, n: nat, x: Flow, b: nat)
    requires Run(f, packets, picks, states) && i < n < |packets| && RecordsAt(f, packets, states, i, x)
    requires b == Choice(f.rank(x), Active(Aged(f, states[i], packets[i].time).ips))
    requires forall k: nat {:trigger KeptAt(f, packets, states, k, x, b)} ::
               i < k <= n ==> KeptAt(f, packets, states, k, x, b)
    ensures SameRecord(states, i, n, b)
    ensures var aged := Aged(f, states[n], packets[n].time);
            && Good(f, aged) && Chosen(f, aged, x) == Some(b)
            && Sent(f, aged, x) == (states[i].backends[b].nic, Some(states[i].backends[b]))
            && Choice(f.rank(x), Active(aged.ips)) in {b} + Joined(f, packets, picks, states, i + 1, n)
  {
    StillSent(f, packets, picks, states, i, n, x, b);
    assert KeptAt(f, packets, states, n, x, b);
    StillPreferred(f, packets, picks, states, i, n, x, b);
  }
}
