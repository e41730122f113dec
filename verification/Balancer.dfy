/** The load balancer's program: two expiring tables, two vectors and the consistent hash table. */
module Balancer {
  import opened Primes
  import opened Counting
  import opened Preference
  import opened ConsistentHash
  import opened Options
  import opened Stamps
  import opened Coherence
  import opened LoadBalancer
  import HashTable
  import T = FlowTable

  class Balancer {
    const wan: nat
    const flowExpiration: nat       // in microseconds
    const backendExpiration: nat
    const height: nat
    const hash: Flow -> nat
    const flows: T.FlowTable<Flow>
    const ips: T.FlowTable<nat>
    var backendOf: seq<nat>         // by flow index
    var backends: seq<Backend>      // by backend index
    const cht: array<nat>
    ghost const filled: seq<nat>    // what the consistent hash table holds from the start
    ghost const setup: Setup

    ghost function Current(): (s: State)
      reads this, flows, ips
    {
      State(flows.view, backendOf, ips.view, backends)
    }

    ghost predicate Valid()
      reads this, flows, flows.repr, ips, ips.repr, cht
    {
      && flows.Valid() && ips.Valid() && flows.repr !! ips.repr
      && this !in flows.repr && this !in ips.repr && cht !in flows.repr && cht !in ips.repr
      && setup.wan == wan && setup.flowCapacity == flows.capacity && setup.backendCapacity == ips.capacity
      && setup.flowExpiry == flowExpiration * 1000 && setup.backendExpiry == backendExpiration * 1000
      && cht[..] == filled && (forall u {:trigger Show(u)} :: Show(u) ==> Hashes())
      && Good(setup, Current())
    }

    /** Backends are ranked by the consistent hash table, which is filled. */
    ghost predicate Hashes() {
      && IsPrime(height) && HashTable.IsTable(filled, height, ips.capacity)
      && forall x :: setup.rank(x) == RankIn(height, hash(x) % height)
    }

    // Always true. It keeps the hash table out of sight of the verifier until it is mentioned.
    ghost predicate Show(u: int) { true }

    constructor (wan: nat, flowCapacity: nat, backendCapacity: nat, height: nat, backendExpiration: nat,
                 flowExpiration: nat, hash: Flow -> nat, ipHash: nat -> nat)
      requires IsPrime(height) && height * backendCapacity <= 0x7fff_ffff && flowCapacity > 0 && backendCapacity > 0
      ensures Valid() && fresh(flows.repr) && fresh(ips.repr) && fresh(cht)
      ensures Current().flows == map[] && Current().ips == map[]
    {
      this.wan, this.flowExpiration, this.backendExpiration := wan, flowExpiration, backendExpiration;
      this.height, this.hash := height, hash;
      flows := new T.FlowTable<Flow>(flowCapacity, Flow(0, 0, 0, 0, 0), hash);
      ips := new T.FlowTable<nat>(backendCapacity, 0, ipHash);
      backendOf := seq(flowCapacity, _ => 0);
      backends := seq(backendCapacity, _ => Backend(0, 0, 0));
      var table := new nat[height * backendCapacity];
      ghost var _ := HashTable.Fill(table, height, backendCapacity);
      cht, filled := table, table[..];
      setup := Setup(wan, flowCapacity, backendCapacity, flowExpiration * 1000, backendExpiration * 1000,
                     x => if IsPrime(height) then RankIn(height, hash(x) % height) else b => 0);
    }

    method ExpireFlows(time: int)
      requires Valid()
      modifies flows.repr
      ensures Valid()
      ensures Current() == old(Current()).(flows := Expire(old(flows.view), time - setup.flowExpiry))
    {
      ghost var s := Current();
      AgedFlowsAreGood(setup, s, time);
      var _ := flows.ExpireAll(time - flowExpiration * 1000);
      assert flows.view == Aged(setup, s, time).flows && ips.view == s.ips;
    }

    method ExpireBackends(time: int)
      requires Valid()
      modifies ips.repr
      ensures Valid()
      ensures Current() == old(Current()).(ips := Expire(old(ips.view), time - setup.backendExpiry))
    {
      ghost var s := Current();
      AgedIpsAreGood(setup, s, time);
      var _ := ips.ExpireAll(time - backendExpiration * 1000);
      assert ips.view == Aged(setup, s, time).ips && flows.view == s.flows;
    }

    method ExpireAll(time: int)
      requires Valid() && NotAhead(Current(), time)
      modifies flows.repr, ips.repr
      ensures Valid() && NotAhead(Current(), time) && Current() == Aged(setup, old(Current()), time)
    {
      ghost var s := Current();
      AgedIsCurrent(setup, s, time);
      ExpireFlows(time);
      ExpireBackends(time);
      assert Current() == Aged(setup, s, time);
    }

    method ProcessHeartbeat(p: Packet) returns (ghost pick: nat)
      requires Valid() && NotAhead(Current(), p.time) && p.device != wan
      modifies this, ips.repr
      ensures Valid()
      ensures Joins(setup, old(Current()), p.flow.srcIp) ==> pick < ips.capacity && !Used(old(ips.view), pick)
      ensures Current() == Heartbeat(setup, old(Current()), p, pick)
    {
      var ip := p.flow.srcIp;
      var known, index := ips.Get(ip);
      if known {
        HeartbeatIsGood(setup, Current(), p, 0);
        ips.Rejuvenate(index, p.time, ip);
        pick := 0;
      } else {
        pick := Join(p);
      }
    }

    /** Records a new backend; a full table is ignored. */
    method Join(p: Packet) returns (ghost pick: nat)
      requires Valid() && NotAhead(Current(), p.time) && p.device != wan && p.flow.srcIp !in ips.view
      modifies this, ips.repr
      ensures Valid()
      ensures Joins(setup, old(Current()), p.flow.srcIp) ==> pick < ips.capacity && !Used(old(ips.view), pick)
      ensures Current() == Heartbeat(setup, old(Current()), p, pick)
    {
      ghost var s := Current();
      pick := 0;
      var ok, index := ips.Insert(p.flow.srcIp, p.time);
      if ok {
        HeartbeatIsGood(setup, s, p, index);
        backends := backends[index := Backend(p.device, p.mac, p.flow.srcIp)];
        pick := index;
      }
    }

    /** Looks a flow up in the consistent hash table. */
    method Choose(flow: Flow) returns (found: bool, b: nat)
      requires Valid()
      ensures found <==> Active(ips.view) != {}
      ensures found ==> b == Choice(setup.rank(flow), Active(ips.view)) && b < |backends|
    {
      assert Show(0);
      ActiveBelow(setup, Current());
      ips.Allocated();
      assert Indexes(ips.chain.stamps) == Active(ips.view);
      found, b := HashTable.FindPreferred(hash(flow), cht, ips.chain, height, ips.capacity);
      assert found ==> b in Below(ips.capacity);
    }

    /** Chooses a backend for an unknown flow, and records the choice if there is room. */
    method Assign(flow: Flow, now: int) returns (nic: nat, backend: Option<Backend>, ghost pick: nat)
      requires Valid() && NotAhead(Current(), now) && flow !in flows.view
      modifies this, flows.repr
      ensures Valid()
      ensures Answers(setup, old(Current()), flow, now, pick, Current(), (nic, backend))
    {
      Unrecorded(setup, Current(), flow);
      var found, b := Choose(flow);
      if !found {
        return wan, None, 0;
      }
      pick := Record(flow, now, b);
      nic, backend := backends[b].nic, Some(backends[b]);
    }

    /** Records the backend chosen for an unknown flow; a full table is ignored. */
    method Record(flow: Flow, now: int, b: nat) returns (ghost pick: nat)
      requires Valid() && NotAhead(Current(), now) && flow !in flows.view
      requires Active(ips.view) != {} && b == Choice(setup.rank(flow), Active(ips.view))
      modifies this, flows.repr
      ensures Valid()
      ensures Records(setup, old(Current()), flow) ==> pick < flows.capacity && !Used(old(flows.view), pick)
      ensures Current() == Client(setup, old(Current()), flow, now, pick)
    {
      ghost var s := Current();
      var ok, index := flows.Insert(flow, now);
      pick := index;
      UnknownFlow(setup, s, flow, now, pick, b);
      if ok {
        backendOf := backendOf[index := b];
      }
      assert Current() == Client(setup, s, flow, now, pick);
    }

    /** Refreshes a flow whose backend is alive. */
    method Keep(flow: Flow, index: nat, now: int) returns (nic: nat, backend: Option<Backend>)
      requires Valid() && NotAhead(Current(), now) && Sticks(setup, Current(), flow)
      requires index == flows.view[flow].index
      modifies flows.repr
      ensures Valid()
      ensures Answers(setup, old(Current()), flow, now, 0, Current(), (nic, backend))
    {
      ClientIsGood(setup, Current(), flow, now, 0);
      flows.Rejuvenate(index, now, flow);
      var b := backendOf[index];
      nic, backend := backends[b].nic, Some(backends[b]);
    }

    /** Removes the record of a flow. */
    method Forget(flow: Flow, ghost now: int)
      requires Valid() && NotAhead(Current(), now) && flow in flows.view
      modifies flows.repr
      ensures Valid() && NotAhead(Current(), now)
      ensures Current() == old(Current()).(flows := Cleared(setup, old(Current()), flow))
    {
      ghost var s := Current();
      ClearedIsGood(setup, s, flow);
      flows.Erase(flow);
      assert flows.view == Cleared(setup, s, flow);
    }

    /** Where a client packet goes; the WAN device says that it is dropped. A recorded flow that has lost its
        backend is forgotten and looked up again, once. */
    method GetBackend(flow: Flow, now: int) returns (nic: nat, backend: Option<Backend>, ghost pick: nat)
      requires Valid() && NotAhead(Current(), now)
      modifies this, flows.repr
      ensures Valid()
      ensures Answers(setup, old(Current()), flow, now, pick, Current(), (nic, backend))
      decreases flow in flows.view
    {
      ghost var s := Current();
      var known, index := flows.Get(flow);
      if !known {
        nic, backend, pick := Assign(flow, now);
      } else {
        var b := backendOf[index];
        var alive := ips.IsIndexAllocated(b);
        if alive {
          nic, backend := Keep(flow, index, now);
          pick := 0;
        } else {
          Forget(flow, now);
          nic, backend, pick := GetBackend(flow, now);
          ClearedAgain(setup, s, flow, now, pick, Current(), (nic, backend));
        }
      }
    }

    method Process(p: Packet) returns (device: nat, backend: Option<Backend>, ghost pick: nat)
      requires Valid() && NotAhead(Current(), p.time)
      modifies this, flows.repr, ips.repr
      ensures Valid() && Legal(setup, old(Current()), p, pick)
      ensures Current() == Step(setup, old(Current()), p, pick)
      ensures (device, backend) == Output(setup, old(Current()), p)
    {
      pick, backend := 0, None;
      ExpireAll(p.time);
      if !p.tcpudp {
        return p.device, None, 0;
      }
      if p.device != wan {
        pick := ProcessHeartbeat(p);
        device := p.device;
      } else {
        device, backend, pick := GetBackend(p.flow, p.time);
      }
    }
  }
}
