/** The firewall: outbound packets open flows, inbound packets pass only as replies to open flows. */
module Firewall {
  import opened Coherence
  import opened FlowRuns
  import T = FlowTable

  datatype FlowId = FlowId(srcPort: nat, dstPort: nat, srcIp: nat, dstIp: nat, protocol: nat)

  function Inverse(id: FlowId): (r: FlowId) {
    FlowId(id.dstPort, id.srcPort, id.dstIp, id.srcIp, id.protocol)
  }

  /** A received packet: the device, the time, and the flow it belongs to if it is TCP or UDP over IPv4. */
  datatype Packet = Packet(device: nat, time: int, tcpudp: bool, id: FlowId)

  datatype Setup = Setup(wan: nat, table: Config)

  function Asks(f: Setup, p: Packet, pick: nat): (e: Event<FlowId, nat>) {
    Event(p.time,
          if !p.tcpudp then Nothing
          else if p.device == f.wan then Refresh(Inverse(p.id))
          else Ensure(p.id, pick, p.device))
  }

  /** The device a packet leaves on; its own device means that it is dropped. */
  ghost function Output(f: Setup, s: State<FlowId, nat>, p: Packet): (device: nat)
    requires Good(f.table, s)
  {
    if !p.tcpudp then p.device
    else if p.device == f.wan then
      var k := Inverse(p.id);
      if Live(f.table, s, k, p.time) then s.vals[s.view[k].index] else p.device
    else f.wan
  }

  // ----- Runs

  ghost function Asked(f: Setup, packets: seq<Packet>, picks: seq<nat>): (run: seq<Event<FlowId, nat>>)
    requires |packets| == |picks|
    ensures |run| == |packets| && forall i :: 0 <= i < |run| ==> run[i] == Asks(f, packets[i], picks[i])
  {
    seq(|packets|, i requires 0 <= i < |packets| => Asks(f, packets[i], picks[i]))
  }

  /** A 5-tuple that answers another: each comes from where the other goes to, over the same protocol. */
  predicate Answers(reply: FlowId, id: FlowId) {
    && reply.srcIp == id.dstIp && reply.srcPort == id.dstPort
    && reply.dstIp == id.srcIp && reply.dstPort == id.srcPort
    && reply.protocol == id.protocol
  }

  /** A packet of the flow with the given outbound 5-tuple: from inside with that 5-tuple, or from outside with one
      that answers it. */
  predicate OfFlow(f: Setup, p: Packet, id: FlowId) {
    p.tcpudp && if p.device == f.wan then Answers(p.id, id) else p.id == id
  }

  ghost function ActivityOf(f: Setup, packets: seq<Packet>, id: FlowId): (acts: seq<Activity>)
    ensures |acts| == |packets|
    ensures forall i :: 0 <= i < |acts| ==> acts[i] == Activity(packets[i].time, OfFlow(f, packets[i], id))
  {
    seq(|packets|, i requires 0 <= i < |packets| => Activity(packets[i].time, OfFlow(f, packets[i], id)))
  }

  /** The packets of a flow, in either direction, are the uses of its entry. */
  lemma {:induction false} FlowPacketsAreUses(f: Setup, packets: seq<Packet>, picks: seq<nat>, id: FlowId, i: nat)
    requires |packets| == |picks|
    ensures Witnessed(Asked(f, packets, picks), id, i, ActivityOf(f, packets, id))
  {
  }

  /** Packet `j` came from inside on the flow that packet `n` answers, it opened the flow's entry, and from
      then until packet `n` no gap between packets of the flow exceeded the expiry time. */
  ghost predicate Solicits(f: Setup, packets: seq<Packet>, picks: seq<nat>, states: seq<State<FlowId, nat>>,
                           j: nat, n: nat)
    requires |packets| == |picks| && Run(f.table, Asked(f, packets, picks), states)
    requires j < |packets| && n < |packets|
  {
    var id := packets[j].id;
    && j < n && packets[j].device != f.wan && packets[j].tcpudp && Answers(packets[n].id, id)
    && OpensKey(f.table, Asked(f, packets, picks), states, j, id)
    && Active(f.table, ActivityOf(f, packets, id), j, n, packets[n].time)
  }

  /** The firewall lets an external packet in exactly when an earlier packet from inside solicits it, and
      sends it to the device that packet came from. */
  lemma {:induction false} ForwardedExactly(f: Setup, packets: seq<Packet>, picks: seq<nat>,
                                            states: seq<State<FlowId, nat>>, n: nat)
    requires |packets| == |picks| && Run(f.table, Asked(f, packets, picks), states)
    requires n < |packets| && packets[n].tcpudp && packets[n].device == f.wan
    ensures Good(f.table, states[n])
    ensures Output(f, states[n], packets[n]) != f.wan <==>
            exists j :: 0 <= j < n && Solicits(f, packets, picks, states, j, n)
    ensures forall j :: 0 <= j < n && Solicits(f, packets, picks, states, j, n) ==>
              Output(f, states[n], packets[n]) == packets[j].device
  {
    var run, k, t := Asked(f, packets, picks), Inverse(packets[n].id), packets[n].time;
    StatesAreGood(f.table, run, states, n);
    RunFollows(f.table, run, states, k);
    if Live(f.table, states[n], k, t) {
      var j := Opener(f.table, run, states, n, t, k);
      assert run[j] == Asks(f, packets[j], picks[j]);
      FlowPacketsAreUses(f, packets, picks, k, picks[j]);
      ActiveIsGapless(f.table, run, k, picks[j], ActivityOf(f, packets, k), j, n, t);
      assert Solicits(f, packets, picks, states, j, n);
    }
    forall j: nat | j < n && Solicits(f, packets, picks, states, j, n)
      ensures Output(f, states[n], packets[n]) == packets[j].device
    {
      assert run[n - 1].time <= run[n].time;
      assert run[j] == Asks(f, packets[j], picks[j]);
      FlowPacketsAreUses(f, packets, picks, k, picks[j]);
      ActiveIsGapless(f.table, run, k, picks[j], ActivityOf(f, packets, k), j, n, t);
      LiveEntry(f.table, run, states, n, t, k, j);
    }
  }

  /** All other packets: what is not TCP or UDP stays on its device, and what comes from inside goes outside. */
  lemma {:induction false} OthersExactly(f: Setup, packets: seq<Packet>, picks: seq<nat>,
                                         states: seq<State<FlowId, nat>>, n: nat)
    requires |packets| == |picks| && Run(f.table, Asked(f, packets, picks), states) && n < |packets|
    ensures Good(f.table, states[n])
    ensures !packets[n].tcpudp ==> Output(f, states[n], packets[n]) == packets[n].device
    ensures packets[n].tcpudp && packets[n].device != f.wan ==> Output(f, states[n], packets[n]) == f.wan
  {
    StatesAreGood(f.table, Asked(f, packets, picks), states, n);
  }

  // ----- The program

  class Firewall {
    const wan: nat
    const expirationTime: int     // microseconds
    const flows: T.FlowTable<FlowId>
    var devices: seq<nat>         // the internal device of each flow index

    ghost function Config(): Setup {
      Setup(wan, FlowRuns.Config(flows.capacity, expirationTime * 1000))
    }

    ghost predicate Valid()
      reads this, flows, flows.repr
    {
      flows.Valid() && this !in flows.repr && |devices| == flows.capacity
    }

    ghost function Current(): (s: FlowRuns.State<FlowId, nat>)
      reads this, flows
    {
      FlowRuns.State(flows.view, devices)
    }

    constructor (wan: nat, expirationTime: int, maxFlows: nat, hash: FlowId -> nat)
      requires maxFlows > 0
      ensures Valid() && fresh(flows.repr) && Config() == Setup(wan, FlowRuns.Config(maxFlows, expirationTime * 1000))
      ensures Current().view == map[]
    {
      this.wan, this.expirationTime := wan, expirationTime;
      flows := new T.FlowTable<FlowId>(maxFlows, FlowId(0, 0, 0, 0, 0), hash);
      devices := seq(maxFlows, _ => 0);
    }

    method Expire(time: int)
      requires Valid()
      modifies this, flows.repr
      ensures Valid() && devices == old(devices)
      ensures flows.view == Coherence.Expire(old(flows.view), time - expirationTime * 1000)
    {
      var lastTime := time - expirationTime * 1000;
      var _ := flows.ExpireAll(lastTime);
    }

    /** Refreshes or opens a flow; a full table is ignored. */
    method AllocateOrRefreshFlow(id: FlowId, device: nat, time: int) returns (ghost pick: nat)
      requires Valid() && UpTo(flows.view, time)
      modifies this, flows.repr
      ensures Valid()
      ensures var w := old(flows.view);
              if id in w then flows.view == Touch(w, id, time) && devices == old(devices)
              else if |w| < flows.capacity then
                pick < flows.capacity && !Used(w, pick)
                && flows.view == w[id := Entry(pick, time)] && devices == old(devices)[pick := device]
              else flows.view == w && devices == old(devices)
    {
      pick := 0;
      var present, index := flows.Get(id);
      if present {
        flows.Rejuvenate(index, time, id);
        return;
      }
      var ok;
      ok, index := flows.Insert(id, time);
      if !ok {
        return;
      }
      pick := index;
      devices := devices[index := device];
    }

    method GetRefreshFlow(id: FlowId, time: int) returns (found: bool, device: nat)
      requires Valid() && UpTo(flows.view, time)
      modifies this, flows.repr
      ensures Valid() && devices == old(devices)
      ensures found <==> id in old(flows.view)
      ensures found ==> old(flows.view)[id].index < |devices| && device == devices[old(flows.view)[id].index]
      ensures flows.view == if found then Touch(old(flows.view), id, time) else old(flows.view)
    {
      var index;
      found, index := flows.Get(id);
      device := 0;
      if found {
        flows.Good();
        device := devices[index];
        flows.Rejuvenate(index, time, id);
      }
    }

    method Process(p: Packet) returns (out: nat, ghost pick: nat)
      requires Valid() && UpTo(flows.view, p.time)
      modifies this, flows.repr
      ensures Valid() && Good(Config().table, old(Current()))
              && Legal(Config().table, old(Current()), Asks(Config(), p, pick))
      ensures Current() == Step(Config().table, old(Current()), Asks(Config(), p, pick))
      ensures out == Output(Config(), old(Current()), p)
    {
      flows.Good();
      pick := 0;
      ghost var c, s := Config().table, Current();
      Expire(p.time);
      ghost var w := flows.view;
      assert w == Aged(c, s, p.time);
      if !p.tcpudp {
        return p.device, 0;
      }
      if p.device == wan {
        var id := FlowId(p.id.dstPort, p.id.srcPort, p.id.dstIp, p.id.srcIp, p.id.protocol);
        var found, device := GetRefreshFlow(id, p.time);
        out := if found then device else p.device;
      } else {
        pick := AllocateOrRefreshFlow(p.id, p.device, p.time);
        out := wan;
        EnsureStep(c, s, Asks(Config(), p, pick), w, Current());
      }
    }
  }
}
