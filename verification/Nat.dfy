/** The network address translator: flows from inside share one external address, told apart by port. */
module Nat {
  import opened Coherence
  import opened FlowRuns
  import T = FlowTable

  const PORTS: nat := 0x1_0000

  datatype FlowId = FlowId(srcPort: nat, dstPort: nat, srcIp: nat, dstIp: nat, device: nat, protocol: nat)

  datatype Header = Header(srcIp: nat, dstIp: nat, srcPort: nat, dstPort: nat, protocol: nat)

  datatype Packet = Packet(device: nat, time: int, tcpudp: bool, header: Header)

  /** What becomes of a packet. `OutOfBounds` is the use of an index that the flow table does not have. */
  datatype Outcome = Drop | Send(device: nat, header: Header) | OutOfBounds

  datatype Setup = Setup(wan: nat, externalIp: nat, startPort: nat, table: Config)

  function FlowOf(p: Packet): (k: FlowId) {
    FlowId(p.header.srcPort, p.header.dstPort, p.header.srcIp, p.header.dstIp, p.device, p.header.protocol)
  }

  /** The external port of a flow index, in 16 bits. */
  function PortOf(f: Setup, index: nat): (port: nat)
    ensures port < PORTS
  {
    (f.startPort + index) % PORTS
  }

  function Asks(f: Setup, p: Packet, pick: nat): (e: Event<FlowId, ()>) {
    Event(p.time,
          if !p.tcpudp then Nothing
          else if p.device == f.wan then RefreshIndex(p.header.dstPort - f.startPort)
          else Ensure(FlowOf(p), pick, ()))
  }

  function Outbound(f: Setup, h: Header, index: nat): (r: Outcome) {
    Send(f.wan, h.(srcIp := f.externalIp, srcPort := PortOf(f, index)))
  }

  /** A reply must come from where the flow went; then it is turned back to where the flow came from. */
  function Inbound(k: FlowId, h: Header): (r: Outcome) {
    if k.dstIp != h.srcIp || k.dstPort != h.srcPort || k.protocol != h.protocol then Drop
    else Send(k.device, h.(dstIp := k.srcIp, dstPort := k.srcPort))
  }

  /** A packet from outside, on a table that has been expired: its port is a flow index, in range or not. */
  ghost function Received(f: Setup, w: map<FlowId, Entry>, h: Header): (r: Outcome) {
    var index := h.dstPort - f.startPort;
    if !(0 <= index < f.table.capacity) then OutOfBounds
    else if Used(w, index) then Inbound(KeyOf(w, index), h) else Drop
  }

  ghost function Output(f: Setup, s: State<FlowId, ()>, p: Packet, pick: nat): (r: Outcome) {
    var w := Aged(f.table, s, p.time);
    if !p.tcpudp then Drop
    else if p.device == f.wan then Received(f, w, p.header)
    else
      var k := FlowOf(p);
      if k in w then Outbound(f, p.header, w[k].index)
      else if |w| < f.table.capacity then Outbound(f, p.header, pick)
      else Drop
  }

  // ----- Runs

  ghost function Asked(f: Setup, packets: seq<Packet>, picks: seq<nat>): (run: seq<Event<FlowId, ()>>)
    requires |packets| == |picks|
    ensures |run| == |packets| && forall i :: 0 <= i < |run| ==> run[i] == Asks(f, packets[i], picks[i])
  {
    seq(|packets|, i requires 0 <= i < |packets| => Asks(f, packets[i], picks[i]))
  }

  /** A packet that keeps a flow alive: an outbound packet of the flow, or any packet from outside to its port. */
  predicate OfFlow(f: Setup, p: Packet, k: FlowId, index: nat) {
    p.tcpudp && if p.device == f.wan then p.header.dstPort == f.startPort + index else FlowOf(p) == k
  }

  ghost function ActivityOf(f: Setup, packets: seq<Packet>, k: FlowId, index: nat): (acts: seq<Activity>)
    ensures |acts| == |packets|
    ensures forall i :: 0 <= i < |acts| ==> acts[i] == Activity(packets[i].time, OfFlow(f, packets[i], k, index))
  {
    seq(|packets|, i requires 0 <= i < |packets| => Activity(packets[i].time, OfFlow(f, packets[i], k, index)))
  }

  /** The packets of a flow, outbound or to its port, are the uses of its entry. */
  lemma {:induction false} FlowPacketsAreUses(f: Setup, packets: seq<Packet>, picks: seq<nat>, k: FlowId, i: nat)
    requires |packets| == |picks|
    ensures Witnessed(Asked(f, packets, picks), k, i, ActivityOf(f, packets, k, i))
  {
  }

  /** No gap between the packets of the flow from packet `j` on, up to packet `m`, exceeds the expiry time. */
  ghost predicate Alive(f: Setup, packets: seq<Packet>, k: FlowId, i: nat, j: nat, m: nat)
    requires m < |packets|
  {
    Active(f.table, ActivityOf(f, packets, k, i), j, m, packets[m].time)
  }

  lemma {:induction false} AliveIsGapless(f: Setup, packets: seq<Packet>, picks: seq<nat>, k: FlowId, i: nat, j: nat,
                                          m: nat)
    requires |packets| == |picks| && m < |packets|
    ensures Alive(f, packets, k, i, j, m)
            <==> Gapless(f.table, Asked(f, packets, picks), k, i, j, m, packets[m].time)
  {
    FlowPacketsAreUses(f, packets, picks, k, i);
    ActiveIsGapless(f.table, Asked(f, packets, picks), k, i, ActivityOf(f, packets, k, i), j, m, packets[m].time);
  }

  /** Live flows have different external ports whenever there are at most as many flows as ports. */
  lemma {:induction false} PortsAreDistinct(f: Setup, s: State<FlowId, ()>, k: FlowId, l: FlowId)
    requires Good(f.table, s) && f.table.capacity <= PORTS && k in s.view && l in s.view && k != l
    ensures PortOf(f, s.view[k].index) != PortOf(f, s.view[l].index)
  {
    var a, b := s.view[k].index, s.view[l].index;
    DifferentIndexes(s.view, f.table.capacity, k, l);
    assert a != b && a < PORTS && b < PORTS;
  }

  /** What a packet from inside is turned into: it leaves on the WAN device, from the external address and the port of
      its flow index, for where it was going. */
  ghost predicate TranslatedTo(f: Setup, h: Header, index: nat, out: Outcome) {
    && out.Send? && out.device == f.wan
    && out.header.srcIp == f.externalIp
    && out.header.srcPort < PORTS && (f.startPort + index - out.header.srcPort) % PORTS == 0
    && out.header.dstIp == h.dstIp && out.header.dstPort == h.dstPort && out.header.protocol == h.protocol
  }

  /** A flow key holds all that identifies a packet from inside. */
  ghost predicate Identifies(k: FlowId, p: Packet) {
    && k.srcIp == p.header.srcIp && k.srcPort == p.header.srcPort
    && k.dstIp == p.header.dstIp && k.dstPort == p.header.dstPort
    && k.protocol == p.header.protocol && k.device == p.device
  }

  /** What becomes of a packet from inside, in every run: it is dropped exactly when the table is full of other flows,
      and otherwise translated with the index of its flow, which is then live. What is not TCP or UDP is dropped. */
  lemma {:induction false} TranslatedExactly(f: Setup, packets: seq<Packet>, picks: seq<nat>,
                                             states: seq<State<FlowId, ()>>, n: nat)
    requires |packets| == |picks| && Run(f.table, Asked(f, packets, picks), states)
    requires n < |packets| && packets[n].device != f.wan
    ensures var p, out, w := packets[n], Output(f, states[n], packets[n], picks[n]),
                             Aged(f.table, states[n], packets[n].time);
            && (out == Drop <==>
                  !p.tcpudp || (|w| >= f.table.capacity && forall k :: k in w ==> !Identifies(k, p)))
            && (out != Drop ==> exists k :: k in states[n + 1].view && Identifies(k, p)
                                            && states[n + 1].view[k].time == p.time
                                            && TranslatedTo(f, p.header, states[n + 1].view[k].index, out))
  {
    var run, p := Asked(f, packets, picks), packets[n];
    assert IsStep(f.table, states[n], run[n], states[n + 1]) && run[n] == Asks(f, p, picks[n]);
    var k, out := FlowOf(p), Output(f, states[n], p, picks[n]);
    assert Identifies(k, p);
    if out != Drop {
      assert k in states[n + 1].view;
      PortIsCongruent(f, states[n + 1].view[k].index);
    }
  }

  lemma {:induction false} PortIsCongruent(f: Setup, index: nat)
    ensures (f.startPort + index - PortOf(f, index)) % PORTS == 0
  {
  }

  /** While the flow opened by packet `j` has no gap in its activity, every packet of it leaves through the
      same external port. */
  lemma {:induction false} SamePort(f: Setup, packets: seq<Packet>, picks: seq<nat>, states: seq<State<FlowId, ()>>,
                 j: nat, n: nat, m: nat)
    requires |packets| == |picks| && Run(f.table, Asked(f, packets, picks), states)
    requires j <= n < m < |packets| && packets[n].tcpudp && packets[n].device != f.wan
    requires OpensKey(f.table, Asked(f, packets, picks), states, j, FlowOf(packets[n]))
    requires Alive(f, packets, FlowOf(packets[n]), picks[j], j, m)
    ensures TranslatedTo(f, packets[n].header, picks[j], Output(f, states[n], packets[n], picks[n]))
  {
    var run, k := Asked(f, packets, picks), FlowOf(packets[n]);
    PortIsCongruent(f, picks[j]);
    AliveIsGapless(f, packets, picks, k, picks[j], j, m);
    assert run[j] == Asks(f, packets[j], picks[j]) && run[n] == Asks(f, packets[n], picks[n]);
    if j < n {
      assert Mentions(run[n], k, picks[j]);
      assert run[n - 1].time <= run[n].time;
      assert Fresh(f.table, run, k, picks[j], j, n, run[n].time);
      RunFollows(f.table, run, states, k);
      LiveEntry(f.table, run, states, n, run[n].time, k, j);
    }
  }

  /** Packet `n` belongs to the flow that packet `j` opened, and packet `m` answers what `n` was translated to; no gap
      in the flow's activity exceeds the expiry time. Other packets may come between. */
  ghost predicate Answered(f: Setup, packets: seq<Packet>, picks: seq<nat>, states: seq<State<FlowId, ()>>,
                           j: nat, n: nat, m: nat) {
    && |packets| == |picks| && Run(f.table, Asked(f, packets, picks), states)
    && j <= n < m < |packets| && packets[n].tcpudp && packets[n].device != f.wan
    && OpensKey(f.table, Asked(f, packets, picks), states, j, FlowOf(packets[n]))
    && Alive(f, packets, FlowOf(packets[n]), picks[j], j, m)
    && packets[m].tcpudp && packets[m].device == f.wan
    && IsAnswer(f, packets[n].header, picks[j], packets[m].header)
  }

  /** An answer to a translated packet: from where the packet went, to the external address and the flow's port. */
  ghost predicate IsAnswer(f: Setup, h: Header, index: nat, reply: Header) {
    && reply.srcIp == h.dstIp && reply.srcPort == h.dstPort && reply.protocol == h.protocol
    && reply.dstIp == f.externalIp
    && reply.dstPort < PORTS && (f.startPort + index - reply.dstPort) % PORTS == 0
  }

  /** A packet that goes back to where another came from. */
  ghost predicate GoesBackTo(device: nat, h: Header, out: Outcome) {
    && out.Send? && out.device == device
    && out.header.srcIp == h.dstIp && out.header.srcPort == h.dstPort
    && out.header.dstIp == h.srcIp && out.header.dstPort == h.srcPort && out.header.protocol == h.protocol
  }

  /** The answer is turned into the reverse of the original and sent back to its device. */
  ghost predicate ComesBack(f: Setup, packets: seq<Packet>, picks: seq<nat>, states: seq<State<FlowId, ()>>,
                            n: nat, m: nat)
    requires |packets| == |picks| && |states| == |packets| + 1 && n < |packets| && m < |packets|
  {
    GoesBackTo(packets[n].device, packets[n].header, Output(f, states[m], packets[m], picks[m]))
  }

  /** Exactly when one round trip works: if the flow's port did not overflow 16 bits. Otherwise the answer's port
      does not even lead back to the flow's index. */
  lemma {:induction false} RoundTripExactly(f: Setup, packets: seq<Packet>, picks: seq<nat>,
                                            states: seq<State<FlowId, ()>>, j: nat, n: nat, m: nat)
    requires Answered(f, packets, picks, states, j, n, m)
    ensures TranslatedTo(f, packets[n].header, picks[j], Output(f, states[n], packets[n], picks[n]))
    ensures picks[j] < f.table.capacity
    ensures ComesBack(f, packets, picks, states, n, m) <==> f.startPort + picks[j] < PORTS
    ensures packets[m].header.dstPort - f.startPort == picks[j] <==> f.startPort + picks[j] < PORTS
  {
    SamePort(f, packets, picks, states, j, n, m);
    var run, k := Asked(f, packets, picks), FlowOf(packets[n]);
    AliveIsGapless(f, packets, picks, k, picks[j], j, m);
    assert run[j] == Asks(f, packets[j], picks[j]);
    assert run[m - 1].time <= run[m].time;
    RunFollows(f.table, run, states, k);
    LiveEntry(f.table, run, states, m, run[m].time, k, j);
    StatesAreGood(f.table, run, states, m);
    AgedIsGood(f.table, states[m], packets[m].time);
    ReplyExactly(f, Aged(f.table, states[m], packets[m].time), packets[n], picks[j], packets[m].header);
  }

  lemma {:induction false} ReplyExactly(f: Setup, w: map<FlowId, Entry>, p: Packet, i: nat, h: Header)
    requires GoodView(w, f.table.capacity) && FlowOf(p) in w && w[FlowOf(p)].index == i
    requires IsAnswer(f, p.header, i, h)
    ensures i < f.table.capacity
    ensures GoesBackTo(p.device, p.header, Received(f, w, h)) <==> f.startPort + i < PORTS
    ensures h.dstPort - f.startPort == i <==> f.startPort + i < PORTS
  {
    var index, k := h.dstPort - f.startPort, FlowOf(p);
    KeyIsUnique(w, f.table.capacity, k);
    if f.startPort + i < PORTS {
      assert index == i && KeyOf(w, i) == k;
    } else {
      assert index != i;
    }
  }

  /** Every answer of every run comes back. */
  ghost predicate RoundTrips(f: Setup) {
    forall packets: seq<Packet>, picks: seq<nat>, states: seq<State<FlowId, ()>>, j: nat, n: nat, m: nat ::
      Answered(f, packets, picks, states, j, n, m) ==> ComesBack(f, packets, picks, states, n, m)
  }

  /** A first packet from inside that is given index `pick`, and a packet from outside. */
  lemma {:induction false} TwoPackets(f: Setup, p: Packet, q: Packet, pick: nat)
      returns (states: seq<State<FlowId, ()>>)
    requires pick < f.table.capacity && p.time == q.time
    requires p.tcpudp && p.device != f.wan && q.tcpudp && q.device == f.wan
    ensures Run(f.table, Asked(f, [p, q], [pick, 0]), states)
  {
    var s0: State<FlowId, ()> := State(map[], seq(f.table.capacity, _ => ()));
    var e0, e1 := Asks(f, p, pick), Asks(f, q, 0);
    assert Aged(f.table, s0, p.time) == map[];
    var s1 := Step(f.table, s0, e0);
    StepIsGood(f.table, s0, e0);
    states := [s0, s1, Step(f.table, s1, e1)];
    assert Asked(f, [p, q], [pick, 0]) == [e0, e1];
  }

  /** A first packet from inside that is given the last index, and its answer. */
  lemma {:induction false} LastIndexAnswered(f: Setup)
      returns (packets: seq<Packet>, picks: seq<nat>, states: seq<State<FlowId, ()>>)
    requires f.table.capacity > 0 && f.table.expiry >= 0
    ensures Answered(f, packets, picks, states, 0, 0, 1) && picks[0] == f.table.capacity - 1
  {
    var pick := f.table.capacity - 1;
    var p := Packet(f.wan + 1, 0, true, Header(0, 0, 0, 0, 0));
    var q := Packet(f.wan, 0, true, Header(0, f.externalIp, 0, PortOf(f, pick), 0));
    PortIsCongruent(f, pick);
    packets, picks := [p, q], [pick, 0];
    states := TwoPackets(f, p, q, pick);
    assert Asked(f, packets, picks)[0] == Asks(f, p, pick);
    assert Aged(f.table, states[0], 0) == map[];
    assert OfFlow(f, packets[0], FlowOf(p), pick);
    assert ActivityOf(f, packets, FlowOf(p), pick)[0] == Activity(0, true);
  }

  /** The answers of every flow come back in every run if and only if the ports of all flow indexes fit in 16 bits. */
  lemma {:induction false} RoundTripsExactly(f: Setup)
    requires f.table.capacity > 0 && f.table.expiry >= 0
    ensures RoundTrips(f) <==> f.startPort + f.table.capacity <= PORTS
  {
    if f.startPort + f.table.capacity <= PORTS {
      forall packets: seq<Packet>, picks: seq<nat>, states: seq<State<FlowId, ()>>, j: nat, n: nat, m: nat
        | Answered(f, packets, picks, states, j, n, m)
        ensures ComesBack(f, packets, picks, states, n, m)
      {
        RoundTripExactly(f, packets, picks, states, j, n, m);
      }
    } else {
      var packets, picks, states := LastIndexAnswered(f);
      RoundTripExactly(f, packets, picks, states, 0, 0, 1);
      var j: nat, n: nat, m: nat := 0, 0, 1;
      assert Answered(f, packets, picks, states, j, n, m) && !ComesBack(f, packets, picks, states, n, m);
    }
  }

  // ----- Indexes that the table does not have

  /** No packet of any run, with a port of 16 bits, makes the program use an index out of bounds. */
  ghost predicate StaysInBounds(f: Setup) {
    forall packets: seq<Packet>, picks: seq<nat>, states: seq<State<FlowId, ()>>, m: nat ::
      |packets| == |picks| && Run(f.table, Asked(f, packets, picks), states) && m < |packets|
        && packets[m].header.dstPort < PORTS ==>
        Output(f, states[m], packets[m], picks[m]) != OutOfBounds
  }

  /** A first packet from outside, to a port that is no flow's. */
  lemma {:induction false} StrayPacket(f: Setup, port: nat)
      returns (packets: seq<Packet>, picks: seq<nat>, states: seq<State<FlowId, ()>>)
    requires port < f.startPort || port >= f.startPort + f.table.capacity
    ensures |packets| == 1 == |picks| && Run(f.table, Asked(f, packets, picks), states)
    ensures packets[0].header.dstPort == port && Output(f, states[0], packets[0], picks[0]) == OutOfBounds
  {
    var p := Packet(f.wan, 0, true, Header(0, 0, 0, port, 0));
    var s0: State<FlowId, ()> := State(map[], seq(f.table.capacity, _ => ()));
    packets, picks := [p], [0];
    states := [s0, Step(f.table, s0, Asks(f, p, 0))];
    assert Asked(f, packets, picks) == [Asks(f, p, 0)];
  }

  /** Every index is in bounds, in every run, if and only if every port is a flow's. */
  lemma {:induction false} StaysInBoundsExactly(f: Setup)
    ensures StaysInBounds(f) <==> f.startPort == 0 && f.table.capacity >= PORTS
  {
    if !(f.startPort == 0 && f.table.capacity >= PORTS) {
      var packets, picks, states := StrayPacket(f, if f.startPort > 0 then 0 else f.table.capacity);
      var m: nat := 0;
      assert Output(f, states[m], packets[m], picks[m]) == OutOfBounds;
    }
  }

  /** A packet from outside reaches an internal device only as a reply: some packet opened a flow from that
      device to where the reply comes from, and no gap in that flow's activity exceeded the expiry time. */
  lemma {:induction false} OnlyReplies(f: Setup, packets: seq<Packet>, picks: seq<nat>,
                                       states: seq<State<FlowId, ()>>, m: nat)
      returns (j: nat)
    requires |packets| == |picks| && Run(f.table, Asked(f, packets, picks), states)
    requires m < |packets| && packets[m].device == f.wan && Output(f, states[m], packets[m], picks[m]).Send?
    ensures j < m && packets[j].tcpudp && packets[j].device != f.wan
    ensures OpensKey(f.table, Asked(f, packets, picks), states, j, FlowOf(packets[j]))
    ensures Alive(f, packets, FlowOf(packets[j]), picks[j], j, m)
    ensures GoesBackTo(packets[j].device, packets[j].header, Output(f, states[m], packets[m], picks[m]))
    ensures packets[m].header.dstPort == f.startPort + picks[j]
  {
    var run, p := Asked(f, packets, picks), packets[m];
    var w := Aged(f.table, states[m], p.time);
    var k := KeyOf(w, p.header.dstPort - f.startPort);
    RunFollows(f.table, run, states, k);
    j := Opener(f.table, run, states, m, p.time, k);
    assert run[j] == Asks(f, packets[j], picks[j]);
    AliveIsGapless(f, packets, picks, k, picks[j], j, m);
  }

  // ----- The program

  class Nat {
    const setup: Setup
    const expirationTime: nat    // microseconds
    const flows: T.FlowTable<FlowId>

    ghost predicate Valid()
      reads flows, flows.repr
    {
      flows.Valid() && setup.table == Config(flows.capacity, expirationTime * 1000)
    }

    ghost function Current(): (s: FlowRuns.State<FlowId, ()>)
      reads flows
    {
      FlowRuns.State(flows.view, seq(flows.capacity, _ => ()))
    }

    constructor (wan: nat, externalIp: nat, startPort: nat, expirationTime: nat, maxFlows: nat,
                 hash: FlowId -> nat)
      requires maxFlows > 0
      ensures Valid() && fresh(flows.repr) && Current().view == map[]
      ensures setup == Setup(wan, externalIp, startPort, Config(maxFlows, expirationTime * 1000))
    {
      setup := Setup(wan, externalIp, startPort, Config(maxFlows, expirationTime * 1000));
      this.expirationTime := expirationTime;
      flows := new T.FlowTable<FlowId>(maxFlows, FlowId(0, 0, 0, 0, 0, 0), hash);
    }

    method Expire(time: int)
      requires Valid()
      modifies flows.repr
      ensures Valid() && flows.view == Coherence.Expire(old(flows.view), time - setup.table.expiry)
    {
      var _ := flows.ExpireAll(time - expirationTime * 1000);
    }

    method AllocateFlow(id: FlowId, time: int) returns (ok: bool, port: nat, ghost pick: nat)
      requires Valid() && id !in flows.view && UpTo(flows.view, time)
      modifies flows.repr
      ensures Valid()
      ensures ok <==> |old(flows.view)| < flows.capacity
      ensures ok ==> pick < flows.capacity && !Used(old(flows.view), pick) && port == PortOf(setup, pick)
      ensures flows.view == if ok then old(flows.view)[id := Entry(pick, time)] else old(flows.view)
    {
      var index;
      ok, index := flows.Insert(id, time);
      port, pick := (setup.startPort + index) % PORTS, index;
    }

    method GetInternal(id: FlowId, time: int) returns (found: bool, port: nat)
      requires Valid() && UpTo(flows.view, time)
      modifies flows.repr
      ensures Valid()
      ensures found <==> id in old(flows.view)
      ensures found ==> port == PortOf(setup, old(flows.view)[id].index)
      ensures flows.view == if found then Touch(old(flows.view), id, time) else old(flows.view)
    {
      var index;
      found, index := flows.Get(id);
      port := (index + setup.startPort) % PORTS;
      if found {
        flows.Rejuvenate(index, time, id);
      }
    }

    /** The index of a port may be out of bounds; then nothing is found, and the table is left alone. */
    method GetExternal(port: nat, time: int) returns (inBounds: bool, found: bool, k: FlowId)
      requires Valid() && UpTo(flows.view, time)
      modifies flows.repr
      ensures Valid()
      ensures var index := port - setup.startPort;
              && (inBounds <==> 0 <= index < flows.capacity)
              && (found <==> inBounds && Used(old(flows.view), index))
              && (found ==> k == KeyOf(old(flows.view), index))
      ensures flows.view == if found then Touch(old(flows.view), k, time) else old(flows.view)
    {
      flows.Good();
      var index := port - setup.startPort;
      inBounds, found, k := 0 <= index < flows.capacity, false, FlowId(0, 0, 0, 0, 0, 0);
      if inBounds {
        found := flows.IsIndexAllocated(index);
        if found {
          k := flows.KeyAt(index);
          KeyIsUnique(flows.view, flows.capacity, k);
          flows.Rejuvenate(index, time, k);
        }
      }
    }

    method Process(p: Packet) returns (out: Outcome, ghost pick: nat)
      requires Valid() && UpTo(flows.view, p.time)
      modifies flows.repr
      ensures Valid() && Good(setup.table, old(Current())) && Legal(setup.table, old(Current()), Asks(setup, p, pick))
      ensures Current() == Step(setup.table, old(Current()), Asks(setup, p, pick))
      ensures out == Output(setup, old(Current()), p, pick)
    {
      flows.Good();
      pick := 0;
      ghost var c, s := setup.table, Current();
      Expire(p.time);
      ghost var w := flows.view;
      assert w == Aged(c, s, p.time);
      if !p.tcpudp {
        return Drop, 0;
      }
      if p.device == setup.wan {
        out := FromOutside(p.header, p.time);
      } else {
        out, pick := FromInside(p);
        EnsureStep(c, s, Asks(setup, p, pick), w, Current());
      }
    }

    /** A packet from outside, on a table that has been expired. */
    method FromOutside(h: Header, time: int) returns (out: Outcome)
      requires Valid() && UpTo(flows.view, time)
      modifies flows.repr
      ensures Valid()
      ensures out == Received(setup, old(flows.view), h)
      ensures var w, index := old(flows.view), h.dstPort - setup.startPort;
              flows.view == if 0 <= index && Used(w, index) then Touch(w, KeyOf(w, index), time) else w
    {
      flows.Good();
      var inBounds, found, k := GetExternal(h.dstPort, time);
      if !inBounds {
        return OutOfBounds;
      }
      if !found || k.dstIp != h.srcIp || k.dstPort != h.srcPort || k.protocol != h.protocol {
        return Drop;
      }
      out := Send(k.device, h.(dstIp := k.srcIp, dstPort := k.srcPort));
    }

    /** A packet from inside, on a table that has been expired. */
    method FromInside(p: Packet) returns (out: Outcome, ghost pick: nat)
      requires Valid() && UpTo(flows.view, p.time)
      modifies flows.repr
      ensures Valid()
      ensures var w, k := old(flows.view), FlowOf(p);
              if k in w then out == Outbound(setup, p.header, w[k].index) && flows.view == Touch(w, k, p.time)
              else if |w| < flows.capacity then
                && pick < flows.capacity && !Used(w, pick)
                && out == Outbound(setup, p.header, pick) && flows.view == w[k := Entry(pick, p.time)]
              else out == Drop && flows.view == w
    {
      pick := 0;
      var h := p.header;
      var id := FlowId(h.srcPort, h.dstPort, h.srcIp, h.dstIp, p.device, h.protocol);
      var found, port := GetInternal(id, p.time);
      if !found {
        var ok;
        ok, port, pick := AllocateFlow(id, p.time);
        if !ok {
          return Drop, pick;
        }
      }
      out := Send(setup.wan, h.(srcIp := setup.externalIp, srcPort := port));
    }
  }
}
