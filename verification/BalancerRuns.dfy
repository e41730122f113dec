/** Runs of the load balancer: which backends and which records are alive, told from the packets alone. */
module BalancerRuns {
  import opened Options
  import opened Coherence
  import opened Preference
  import opened LoadBalancer
  import R = FlowRuns

  // ----- Backends

  /** A heartbeat of a backend: a packet from inside with its address. */
  predicate IsHeartbeat(f: Setup, p: Packet, ip: nat) {
    p.tcpudp && p.device != f.wan && p.flow.srcIp == ip
  }

  ghost function Heartbeats(f: Setup, packets: seq<Packet>, ip: nat): (acts: seq<R.Activity>)
    ensures |acts| == |packets|
    ensures forall i :: 0 <= i < |acts| ==> acts[i] == R.Activity(packets[i].time, IsHeartbeat(f, packets[i], ip))
  {
    seq(|packets|, i requires 0 <= i < |packets| => R.Activity(packets[i].time, IsHeartbeat(f, packets[i], ip)))
  }

  function BackendTable(f: Setup): (c: R.Config) { R.Config(f.backendCapacity, f.backendExpiry) }

  /** What a packet asks of the address table. */
  function Announces(f: Setup, p: Packet, pick: nat): (e: R.Event<nat, Backend>) {
    R.Event(p.time,
            if p.tcpudp && p.device != f.wan then R.Ensure(p.flow.srcIp, pick, Backend(p.device, p.mac, p.flow.srcIp))
            else R.Nothing)
  }

  ghost function Announced(f: Setup, packets: seq<Packet>, picks: seq<nat>): (run: seq<R.Event<nat, Backend>>)
    requires |packets| == |picks|
    ensures |run| == |packets| && forall i :: 0 <= i < |run| ==> run[i] == Announces(f, packets[i], picks[i])
  {
    seq(|packets|, i requires 0 <= i < |packets| => Announces(f, packets[i], picks[i]))
  }

  ghost function Addresses(states: seq<State>): (r: seq<R.State<nat, Backend>>)
    ensures |r| == |states| && forall i :: 0 <= i < |r| ==> r[i] == R.State(states[i].ips, states[i].backends)
  {
    seq(|states|, i requires 0 <= i < |states| => R.State(states[i].ips, states[i].backends))
  }

  /** Only heartbeats change the address table, but for expiry. */
  lemma {:induction false} QuietStep(f: Setup, s: State, p: Packet, pick: nat)
    requires Legal(f, s, p, pick) && !(p.tcpudp && p.device != f.wan)
    ensures Step(f, s, p, pick).ips == Aged(f, s, p.time).ips && Step(f, s, p, pick).backends == s.backends
  {
  }

  lemma {:induction false} HeartbeatStep(f: Setup, s: State, p: Packet, pick: nat)
    requires Legal(f, s, p, pick) && p.tcpudp && p.device != f.wan
    ensures var s', w, ip := Step(f, s, p, pick), Aged(f, s, p.time).ips, p.flow.srcIp;
            if ip in w then s'.ips == Touch(w, ip, p.time) && s'.backends == s.backends
            else if |w| < f.backendCapacity then
              && pick < f.backendCapacity && !Used(w, pick) && s'.ips == w[ip := Entry(pick, p.time)]
              && s'.backends == s.backends[pick := Backend(p.device, p.mac, ip)]
            else s'.ips == w && s'.backends == s.backends
  {
  }

  lemma {:induction false} AnnounceStep(f: Setup, s: State, p: Packet, pick: nat)
    requires Legal(f, s, p, pick)
    ensures var s' := Step(f, s, p, pick);
            R.IsStep(BackendTable(f), R.State(s.ips, s.backends), Announces(f, p, pick), R.State(s'.ips, s'.backends))
  {
    var s', r, e := Step(f, s, p, pick), R.State(s.ips, s.backends), Announces(f, p, pick);
    assert R.Good(BackendTable(f), r);
    if p.tcpudp && p.device != f.wan {
      HeartbeatStep(f, s, p, pick);
      R.EnsureStep(BackendTable(f), r, e, Aged(f, s, p.time).ips, R.State(s'.ips, s'.backends));
    } else {
      QuietStep(f, s, p, pick);
    }
  }

  /** Seen from the address table a run of the balancer is a run of an expiring table. */
  lemma {:induction false} IsBackendRun(f: Setup, packets: seq<Packet>, picks: seq<nat>, states: seq<State>)
    requires Run(f, packets, picks, states)
    ensures R.Run(BackendTable(f), Announced(f, packets, picks), Addresses(states))
  {
    var run, rs := Announced(f, packets, picks), Addresses(states);
    forall i | 0 <= i < |run|
      ensures R.IsStep(BackendTable(f), rs[i], run[i], rs[i + 1])
    {
      assert StepAt(f, packets, picks, states, i);
      AnnounceStep(f, states[i], packets[i], picks[i]);
    }
  }

  /** Packet `j` is a heartbeat of an address that has no backend yet, and there is room for one. */
  ghost predicate JoinsAt(f: Setup, packets: seq<Packet>, states: seq<State>, j: nat, ip: nat)
    requires j < |packets| && j < |states|
  {
    var ips := Aged(f, states[j], packets[j].time).ips;
    IsHeartbeat(f, packets[j], ip) && ip !in ips && |ips| < f.backendCapacity
  }

  /** Packet `j` made the address a backend, and no gap between its heartbeats since, up to time `t`, exceeds the
      backend expiry time. */
  ghost predicate BeatsSince(f: Setup, packets: seq<Packet>, states: seq<State>, j: nat, n: nat, t: int, ip: nat)
    requires j < |packets| && j < |states|
  {
    JoinsAt(f, packets, states, j, ip) && R.Active(BackendTable(f), Heartbeats(f, packets, ip), j, n, t)
  }

  /** The address is that of a live backend at time `t`. */
  ghost predicate AliveAddress(f: Setup, s: State, ip: nat, t: int) {
    ip in s.ips && t - s.ips[ip].time <= f.backendExpiry
  }

  lemma {:induction false} BeatsAreGapless(f: Setup, packets: seq<Packet>, picks: seq<nat>, states: seq<State>,
                                           j: nat, n: nat, t: int, ip: nat)
    requires Run(f, packets, picks, states) && j < n <= |packets|
    ensures BeatsSince(f, packets, states, j, n, t, ip) <==>
            var run := Announced(f, packets, picks);
            && R.OpensKey(BackendTable(f), run, Addresses(states), j, ip)
            && R.Gapless(BackendTable(f), run, ip, picks[j], j, n, t)
  {
    var run := Announced(f, packets, picks);
    assert R.Witnessed(run, ip, picks[j], Heartbeats(f, packets, ip));
    R.ActiveIsGapless(BackendTable(f), run, ip, picks[j], Heartbeats(f, packets, ip), j, n, t);
    assert run[j] == Announces(f, packets[j], picks[j]);
  }

  /** A backend is alive exactly when some heartbeat of its address made it one, and no gap between its heartbeats since
      exceeds the expiry time; its record is then that heartbeat's. */
  lemma {:induction false} BackendAliveExactly(f: Setup, packets: seq<Packet>, picks: seq<nat>, states: seq<State>,
                                               n: nat, t: int, ip: nat)
    requires Run(f, packets, picks, states) && n <= |packets| && (n == 0 || t >= packets[n - 1].time)
    ensures AliveAddress(f, states[n], ip, t) <==>
            exists j: nat :: j < n && BeatsSince(f, packets, states, j, n, t, ip)
    ensures forall j: nat :: j < n && BeatsSince(f, packets, states, j, n, t, ip) ==>
              BackendIs(f, packets, picks, states[n], j, ip)
  {
    var c, run, rs := BackendTable(f), Announced(f, packets, picks), Addresses(states);
    IsBackendRun(f, packets, picks, states);
    R.RunFollows(c, run, rs, ip);
    if AliveAddress(f, states[n], ip, t) {
      var j := R.Opener(c, run, rs, n, t, ip);
      assert run[j] == Announces(f, packets[j], picks[j]);
      BeatsAreGapless(f, packets, picks, states, j, n, t, ip);
      assert BeatsSince(f, packets, states, j, n, t, ip);
    }
    forall j: nat | j < n && BeatsSince(f, packets, states, j, n, t, ip)
      ensures AliveAddress(f, states[n], ip, t) && BackendIs(f, packets, picks, states[n], j, ip)
    {
      BeatsAreGapless(f, packets, picks, states, j, n, t, ip);
      assert run[j] == Announces(f, packets[j], picks[j]);
      R.LiveEntry(c, run, rs, n, t, ip, j);
    }
  }

  /** The backend of an address is the one that heartbeat `j` announced. */
  ghost predicate BackendIs(f: Setup, packets: seq<Packet>, picks: seq<nat>, s: State, j: nat, ip: nat)
    requires j < |packets| == |picks|
  {
    && ip in s.ips && s.ips[ip].index == picks[j] && picks[j] < |s.backends|
    && s.backends[picks[j]].ip == ip
    && s.backends[picks[j]].nic == packets[j].device && s.backends[picks[j]].mac == packets[j].mac
  }

  // ----- Records of flows

  /** A client packet of a flow. */
  predicate IsClient(f: Setup, p: Packet, x: Flow) {
    p.tcpudp && p.device == f.wan && p.flow == x
  }

  ghost function Clients(f: Setup, packets: seq<Packet>, x: Flow): (acts: seq<R.Activity>)
    ensures |acts| == |packets|
    ensures forall i :: 0 <= i < |acts| ==> acts[i] == R.Activity(packets[i].time, IsClient(f, packets[i], x))
  {
    seq(|packets|, i requires 0 <= i < |packets| => R.Activity(packets[i].time, IsClient(f, packets[i], x)))
  }

  function RecordTable(f: Setup): (c: R.Config) { R.Config(f.flowCapacity, f.flowExpiry) }

  /** The same as events, of which the client packets are the uses of the record. */
  ghost function Uses(f: Setup, packets: seq<Packet>, x: Flow): (run: seq<R.Event<Flow, ()>>)
    ensures |run| == |packets|
    ensures forall i :: 0 <= i < |run| ==>
              run[i] == R.Event(packets[i].time, if IsClient(f, packets[i], x) then R.Refresh(x) else R.Nothing)
    ensures R.Witnessed(run, x, 0, Clients(f, packets, x))
  {
    seq(|packets|, i requires 0 <= i < |packets| =>
          R.Event(packets[i].time, if IsClient(f, packets[i], x) then R.Refresh(x) else R.Nothing))
  }

  /** The table has a record of the flow: its index, the time of its last use, and its backend. */
  ghost predicate HasRecord(s: State, x: Flow, index: nat, time: int, b: nat) {
    && x in s.flows && s.flows[x] == Entry(index, time)
    && index < |s.backendOf| && s.backendOf[index] == b
  }

  /** What a client packet does to the record of its own flow. */
  lemma {:induction false} OwnStep(f: Setup, s: State, p: Packet, pick: nat, x: Flow)
    requires Legal(f, s, p, pick) && IsClient(f, p, x)
    ensures var aged, s' := Aged(f, s, p.time), Step(f, s, p, pick);
            if Sticks(f, aged, x)
            then HasRecord(s', x, s.flows[x].index, p.time, s.backendOf[s.flows[x].index])
            else if Records(f, aged, x)
            then HasRecord(s', x, pick, p.time, Choice(f.rank(x), Active(aged.ips)))
            else x !in s'.flows
  {
    var aged := Aged(f, s, p.time);
    if Sticks(f, aged, x) {
      assert aged.flows[x] == s.flows[x];
    }
  }

  /** Any other packet leaves the record alone, but for expiry. */
  lemma {:induction false} OtherStep(f: Setup, s: State, p: Packet, pick: nat, x: Flow)
    requires Legal(f, s, p, pick) && !IsClient(f, p, x)
    ensures var aged, s' := Aged(f, s, p.time), Step(f, s, p, pick);
            && (x in s'.flows <==> x in aged.flows)
            && (x in s'.flows ==> HasRecord(s', x, s.flows[x].index, s.flows[x].time, s.backendOf[s.flows[x].index]))
  {
    var aged := Aged(f, s, p.time);
    if x in aged.flows {
      assert aged.flows[x] == s.flows[x];
      if p.tcpudp && p.device == f.wan {
        OthersKeep(f, aged, p.flow, p.time, pick, x);
      }
    }
  }

  lemma {:induction false} OthersKeep(f: Setup, s: State, flow: Flow, time: int, pick: nat, x: Flow)
    requires Good(f, s) && x in s.flows && flow != x
    requires Records(f, s, flow) ==> pick < f.flowCapacity && !Used(Cleared(f, s, flow), pick)
    ensures var s', i := Client(f, s, flow, time, pick), s.flows[x].index;
            x in s'.flows && s'.flows[x] == s.flows[x] && |s'.backendOf| == |s.backendOf|
              && s'.backendOf[i] == s.backendOf[i]
  {
    if !Sticks(f, s, flow) {
      assert x in Cleared(f, s, flow) && Cleared(f, s, flow)[x].index == s.flows[x].index;
      assert Used(Cleared(f, s, flow), s.flows[x].index);
    }
  }

  /** Packet `i` records flow `x` with backend `b`. It is a client packet of the flow, which has no record with a live
      backend; a record that has lost its backend is replaced, otherwise the table has room for one more; and `b` is the
      backend that the flow's hash bucket prefers among those alive. */
  ghost predicate RecordsWith(f: Setup, packets: seq<Packet>, states: seq<State>, i: nat, x: Flow, b: nat)
    requires i < |packets| && i < |states|
  {
    var aged := Aged(f, states[i], packets[i].time);
    && IsClient(f, packets[i], x)
    && (if x in aged.flows
        then aged.flows[x].index < |aged.backendOf| && aged.backendOf[aged.flows[x].index] !in Active(aged.ips)
        else |aged.flows| < f.flowCapacity)
    && Active(aged.ips) != {} && b == Choice(f.rank(x), Active(aged.ips))
  }

  lemma {:induction false} RecordsWithIs(f: Setup, packets: seq<Packet>, picks: seq<nat>, states: seq<State>, i: nat,
                                         x: Flow, b: nat)
    requires Run(f, packets, picks, states) && i < |packets|
    ensures RecordsWith(f, packets, states, i, x, b) <==>
            && RecordsAt(f, packets, states, i, x)
            && b == Choice(f.rank(x), Active(Aged(f, states[i], packets[i].time).ips))
  {
    assert StepAt(f, packets, picks, states, i);
  }

  /** At every client packet of the flow since `i` its backend was alive. */
  ghost predicate ServedSince(f: Setup, packets: seq<Packet>, states: seq<State>, i: nat, n: nat, x: Flow, b: nat)
    requires n <= |packets| < |states|
  {
    forall q: nat {:trigger AliveAt(f, packets, states, q, b)} ::
      i < q < n && IsClient(f, packets[q], x) ==> AliveAt(f, packets, states, q, b)
  }

  /** Packet `i` recorded the flow, no gap between its client packets since, up to time `t`, exceeds the flow expiry
      time, and its backend was alive at each of them. */
  ghost predicate HeldSince(f: Setup, packets: seq<Packet>, states: seq<State>, i: nat, n: nat, t: int, x: Flow, b: nat)
    requires i < n <= |packets| < |states|
  {
    && RecordsWith(f, packets, states, i, x, b) && ServedSince(f, packets, states, i, n, x, b)
    && R.Active(RecordTable(f), Clients(f, packets, x), i, n, t)
  }

  /** What is known of a record before packet `n`, if packet `i` made it and `last` used it last. */
  ghost predicate Since(f: Setup, packets: seq<Packet>, picks: seq<nat>, states: seq<State>, i: nat, last: nat, n: nat,
                        x: Flow, b: nat)
    requires i < n <= |packets| == |picks| && |states| == |packets| + 1
  {
    && R.IsLast(Uses(f, packets, x), x, 0, i, last, n)
    && HasRecord(states[n], x, picks[i], packets[last].time, b)
  }

  lemma {:induction false} RecordStep(f: Setup, packets: seq<Packet>, picks: seq<nat>, states: seq<State>, i: nat,
                                      x: Flow, b: nat)
    requires Run(f, packets, picks, states) && i < |packets| && RecordsWith(f, packets, states, i, x, b)
    ensures Since(f, packets, picks, states, i, i, i + 1, x, b)
  {
    RecordsWithIs(f, packets, picks, states, i, x, b);
    assert StepAt(f, packets, picks, states, i);
    OwnStep(f, states[i], packets[i], picks[i], x);
  }

  /** One more packet while the record is young enough and its backend alive. */
  lemma {:induction false} HoldOn(f: Setup, packets: seq<Packet>, picks: seq<nat>, states: seq<State>, i: nat,
                                  last: nat, m: nat, x: Flow, b: nat) returns (last': nat)
    requires Run(f, packets, picks, states) && i < m < |packets| && Since(f, packets, picks, states, i, last, m, x, b)
    requires packets[m].time - packets[last].time <= f.flowExpiry
    requires IsClient(f, packets[m], x) ==> AliveAt(f, packets, states, m, b)
    ensures Since(f, packets, picks, states, i, last', m + 1, x, b)
  {
    assert StepAt(f, packets, picks, states, m);
    var aged := Aged(f, states[m], packets[m].time);
    assert x in aged.flows && aged.flows[x] == states[m].flows[x];
    if IsClient(f, packets[m], x) {
      OwnStep(f, states[m], packets[m], picks[m], x);
      last' := m;
    } else {
      OtherStep(f, states[m], packets[m], picks[m], x);
      last' := last;
    }
  }

  /** A record lasts as long as its client packets leave no gap and find its backend alive. */
  lemma {:induction false} Holds(f: Setup, packets: seq<Packet>, picks: seq<nat>, states: seq<State>, i: nat, m: nat,
                                 n: nat, t: int, x: Flow, b: nat) returns (last: nat)
    requires Run(f, packets, picks, states) && i < m <= n <= |packets| && t >= packets[n - 1].time
    requires Since(f, packets, picks, states, i, i, i + 1, x, b) && ServedSince(f, packets, states, i, n, x, b)
    requires R.Active(RecordTable(f), Clients(f, packets, x), i, n, t)
    ensures Since(f, packets, picks, states, i, last, m, x, b)
    decreases m
  {
    if m == i + 1 {
      last := i;
    } else {
      last := Holds(f, packets, picks, states, i, m - 1, n, t, x, b);
      last := HoldsOn(f, packets, picks, states, i, last, m - 1, n, t, x, b);
    }
  }

  lemma {:induction false} HoldsOn(f: Setup, packets: seq<Packet>, picks: seq<nat>, states: seq<State>, i: nat,
                                   last: nat, m: nat, n: nat, t: int, x: Flow, b: nat) returns (last': nat)
    requires Run(f, packets, picks, states) && i < m < n <= |packets| && t >= packets[n - 1].time
    requires Since(f, packets, picks, states, i, last, m, x, b) && ServedSince(f, packets, states, i, n, x, b)
    requires R.Active(RecordTable(f), Clients(f, packets, x), i, n, t)
    ensures Since(f, packets, picks, states, i, last', m + 1, x, b)
  {
    YoungEnough(f, packets, i, last, m, n, t, x);
    assert IsClient(f, packets[m], x) ==> AliveAt(f, packets, states, m, b);
    last' := HoldOn(f, packets, picks, states, i, last, m, x, b);
  }

  ghost predicate Monotone(packets: seq<Packet>) {
    forall i, j :: 0 <= i <= j < |packets| ==> packets[i].time <= packets[j].time
  }

  lemma {:induction false} YoungEnough(f: Setup, packets: seq<Packet>, i: nat, last: nat, m: nat, n: nat, t: int,
                                       x: Flow)
    requires Monotone(packets) && i < m < n <= |packets| && t >= packets[n - 1].time
    requires R.Active(RecordTable(f), Clients(f, packets, x), i, n, t)
    requires R.IsLast(Uses(f, packets, x), x, 0, i, last, m)
    ensures packets[m].time - packets[last].time <= f.flowExpiry
  {
    var c, run := RecordTable(f), Uses(f, packets, x);
    R.ActiveIsGapless(c, run, x, 0, Clients(f, packets, x), i, n, t);
    R.FreshThroughout(c, run, x, 0, i, n, t, m);
    var p :| i <= p < m && R.Mentions(run[p], x, 0) && run[m].time - run[p].time <= c.expiry;
    assert p <= last;
  }

  /** What a record has behind it. */
  ghost predicate Behind(f: Setup, packets: seq<Packet>, picks: seq<nat>, states: seq<State>, i: nat, last: nat, n: nat,
                         x: Flow, b: nat)
    requires i < n <= |packets| == |picks| && |states| == |packets| + 1
  {
    && Since(f, packets, picks, states, i, last, n, x, b)
    && RecordsWith(f, packets, states, i, x, b) && ServedSince(f, packets, states, i, n, x, b)
    && R.NoGapSoFar(RecordTable(f), Uses(f, packets, x), x, 0, i, n)
  }

  /** A record that survives expiry at a packet goes on, unless the packet finds its backend gone. */
  lemma {:induction false} BehindOn(f: Setup, packets: seq<Packet>, picks: seq<nat>, states: seq<State>, i: nat,
                                    last: nat, m: nat, x: Flow, b: nat) returns (last': nat)
    requires Run(f, packets, picks, states) && i < m < |packets| && Behind(f, packets, picks, states, i, last, m, x, b)
    requires packets[m].time - packets[last].time <= f.flowExpiry
    requires IsClient(f, packets[m], x) ==> AliveAt(f, packets, states, m, b)
    ensures Behind(f, packets, picks, states, i, last', m + 1, x, b)
  {
    last' := HoldOn(f, packets, picks, states, i, last, m, x, b);
    R.NoGapExtends(RecordTable(f), Uses(f, packets, x), x, 0, i, last, m);
    ServedOn(f, packets, states, i, m, x, b);
  }

  lemma {:induction false} ServedOn(f: Setup, packets: seq<Packet>, states: seq<State>, i: nat, m: nat, x: Flow, b: nat)
    requires m < |packets| < |states| && ServedSince(f, packets, states, i, m, x, b)
    requires IsClient(f, packets[m], x) ==> AliveAt(f, packets, states, m, b)
    ensures ServedSince(f, packets, states, i, m + 1, x, b)
  {
  }

  /** The packet that made a record, and the packets of the flow since. */
  lemma {:induction false} History(f: Setup, packets: seq<Packet>, picks: seq<nat>, states: seq<State>, n: nat, x: Flow)
      returns (i: nat, last: nat, b: nat)
    requires Run(f, packets, picks, states) && n <= |packets| && x in states[n].flows
    ensures i < n && Behind(f, packets, picks, states, i, last, n, x, b)
    decreases n
  {
    var m := n - 1;
    assert StepAt(f, packets, picks, states, m);
    var aged := Aged(f, states[m], packets[m].time);
    if IsClient(f, packets[m], x) && !Sticks(f, aged, x) {
      OwnStep(f, states[m], packets[m], picks[m], x);
      i, last, b := m, m, Choice(f.rank(x), Active(aged.ips));
      RecordsWithIs(f, packets, picks, states, i, x, b);
      RecordStep(f, packets, picks, states, i, x, b);
    } else {
      Survived(f, states[m], packets[m], picks[m], x);
      i, last, b := History(f, packets, picks, states, m, x);
      last := BehindOn(f, packets, picks, states, i, last, m, x, b);
    }
  }

  /** A record that a packet has not made was there before it. */
  lemma {:induction false} Survived(f: Setup, s: State, p: Packet, pick: nat, x: Flow)
    requires Legal(f, s, p, pick) && x in Step(f, s, p, pick).flows
    requires IsClient(f, p, x) ==> Sticks(f, Aged(f, s, p.time), x)
    ensures x in s.flows && p.time - s.flows[x].time <= f.flowExpiry
    ensures IsClient(f, p, x) ==> s.flows[x].index < |s.backendOf|
                                  && s.backendOf[s.flows[x].index] in Active(Aged(f, s, p.time).ips)
  {
    if !IsClient(f, p, x) {
      OtherStep(f, s, p, pick, x);
    }
  }

  /** The flow has a record with backend `b` that is young enough at time `t`. */
  ghost predicate Recorded(f: Setup, s: State, x: Flow, b: nat, t: int) {
    && x in s.flows && t - s.flows[x].time <= f.flowExpiry
    && s.flows[x].index < |s.backendOf| && s.backendOf[s.flows[x].index] == b
  }

  /** A flow is recorded with a backend exactly when some client packet of it chose that backend, no gap between its
      client packets since exceeds the expiry time, and all of them found the backend alive. */
  lemma {:induction false} RecordedExactly(f: Setup, packets: seq<Packet>, picks: seq<nat>, states: seq<State>, n: nat,
                                           t: int, x: Flow, b: nat)
    requires Run(f, packets, picks, states) && n <= |packets| && (n == 0 || t >= packets[n - 1].time)
    ensures Recorded(f, states[n], x, b, t) <==>
            exists i: nat :: i < n && HeldSince(f, packets, states, i, n, t, x, b)
  {
    if Recorded(f, states[n], x, b, t) {
      var i, last, b' := History(f, packets, picks, states, n, x);
      StillHeld(f, packets, picks, states, i, last, n, t, x, b');
      assert HeldSince(f, packets, states, i, n, t, x, b);
    }
    if i: nat :| i < n && HeldSince(f, packets, states, i, n, t, x, b) {
      StillRecorded(f, packets, picks, states, i, n, t, x, b);
    }
  }

  lemma {:induction false} StillHeld(f: Setup, packets: seq<Packet>, picks: seq<nat>, states: seq<State>, i: nat,
                                     last: nat, n: nat, t: int, x: Flow, b: nat)
    requires Run(f, packets, picks, states) && i < n <= |packets| && Behind(f, packets, picks, states, i, last, n, x, b)
    requires t - packets[last].time <= f.flowExpiry
    ensures HeldSince(f, packets, states, i, n, t, x, b)
  {
    var c, run := RecordTable(f), Uses(f, packets, x);
    assert R.Fresh(c, run, x, 0, i, n, t);
    R.ActiveIsGapless(c, run, x, 0, Clients(f, packets, x), i, n, t);
  }

  lemma {:induction false} StillRecorded(f: Setup, packets: seq<Packet>, picks: seq<nat>, states: seq<State>, i: nat,
                                         n: nat, t: int, x: Flow, b: nat)
    requires Run(f, packets, picks, states) && i < n <= |packets| && t >= packets[n - 1].time
    requires HeldSince(f, packets, states, i, n, t, x, b)
    ensures Recorded(f, states[n], x, b, t)
  {
    RecordStep(f, packets, picks, states, i, x, b);
    var last := Holds(f, packets, picks, states, i, n, n, t, x, b);
    var c, run := RecordTable(f), Uses(f, packets, x);
    R.ActiveIsGapless(c, run, x, 0, Clients(f, packets, x), i, n, t);
    var p :| i <= p < n && R.Mentions(run[p], x, 0) && t - run[p].time <= c.expiry;
    assert p <= last && run[p].time <= run[last].time;
  }

  // ----- Where packets go

  /** Some address has been backend `b`, with heartbeat `j`, and its heartbeats have left no gap up to packet `n`. */
  ghost predicate ServesAt(f: Setup, packets: seq<Packet>, picks: seq<nat>, states: seq<State>, j: nat, n: nat, b: nat)
    requires j < n < |packets| == |picks| && |states| == |packets| + 1
  {
    picks[j] == b && BeatsSince(f, packets, states, j, n, packets[n].time, packets[j].flow.srcIp)
  }

  /** A backend is alive when packet `n` comes exactly when its heartbeats say so. */
  lemma {:induction false} AliveExactly(f: Setup, packets: seq<Packet>, picks: seq<nat>, states: seq<State>, n: nat,
                                        b: nat)
    requires Run(f, packets, picks, states) && n < |packets|
    ensures AliveAt(f, packets, states, n, b) <==>
            exists j: nat :: j < n && ServesAt(f, packets, picks, states, j, n, b)
  {
    var t := packets[n].time;
    var ips := Aged(f, states[n], t).ips;
    if AliveAt(f, packets, states, n, b) {
      assert Used(ips, b);
      var ip :| ip in ips && ips[ip].index == b;
      assert AliveAddress(f, states[n], ip, t);
      BackendAliveExactly(f, packets, picks, states, n, t, ip);
      var j: nat :| j < n && BeatsSince(f, packets, states, j, n, t, ip);
      assert ServesAt(f, packets, picks, states, j, n, b);
    }
    if j: nat :| j < n && ServesAt(f, packets, picks, states, j, n, b) {
      Serves(f, packets, picks, states, j, n, b);
    }
  }

  lemma {:induction false} Serves(f: Setup, packets: seq<Packet>, picks: seq<nat>, states: seq<State>, j: nat, n: nat,
                                  b: nat)
    requires Run(f, packets, picks, states) && j < n < |packets| && ServesAt(f, packets, picks, states, j, n, b)
    ensures AliveAt(f, packets, states, n, b) && b < |states[n].backends|
    ensures states[n].backends[b] == Backend(packets[j].device, packets[j].mac, packets[j].flow.srcIp)
  {
    var ip, t := packets[j].flow.srcIp, packets[n].time;
    BackendAliveExactly(f, packets, picks, states, n, t, ip);
    assert BackendIs(f, packets, picks, states[n], j, ip);
    var ips := Aged(f, states[n], t).ips;
    assert ip in ips && ips[ip].index == b;
    assert Used(ips, b);
  }

  /** A packet leaves for a backend: on its device, with its address. */
  ghost predicate GoesTo(out: (nat, Option<Backend>), p: Packet) {
    && out.1.Some? && out.0 == p.device && out.1.value.nic == p.device
    && out.1.value.mac == p.mac && out.1.value.ip == p.flow.srcIp
  }

  /** The flow of packet `n` has a record, made by packet `i`, with a backend that heartbeat `j` announced and that is
      alive. */
  ghost predicate RecordServes(f: Setup, packets: seq<Packet>, picks: seq<nat>, states: seq<State>, i: nat, j: nat,
                               n: nat, b: nat)
    requires i < n < |packets| == |picks| && j < n && |states| == |packets| + 1
  {
    && HeldSince(f, packets, states, i, n, packets[n].time, packets[n].flow, b)
    && ServesAt(f, packets, picks, states, j, n, b)
  }

  ghost predicate SomeRecordServes(f: Setup, packets: seq<Packet>, picks: seq<nat>, states: seq<State>, n: nat)
    requires n < |packets| == |picks| && |states| == |packets| + 1
  {
    exists i: nat, j: nat, b: nat :: i < n && j < n && RecordServes(f, packets, picks, states, i, j, n, b)
  }

  /** The live backend that the hash bucket of packet `n` prefers. */
  ghost predicate Prefers(f: Setup, packets: seq<Packet>, states: seq<State>, n: nat, b: nat)
    requires n < |packets| < |states|
  {
    var active := Active(Aged(f, states[n], packets[n].time).ips);
    active != {} && b == Choice(f.rank(packets[n].flow), active)
  }

  /** Where every client packet goes. If its flow has a record whose backend is alive, to that backend; otherwise to the
      live backend that its hash bucket prefers; and if there is none it is dropped. A backend is reached as the
      heartbeat that announced it says. */
  lemma {:induction false} ClientExactly(f: Setup, packets: seq<Packet>, picks: seq<nat>, states: seq<State>, n: nat)
    requires Run(f, packets, picks, states) && n < |packets|
    requires packets[n].tcpudp && packets[n].device == f.wan
    ensures Good(f, Aged(f, states[n], packets[n].time))
    ensures forall i: nat, j: nat, b: nat | i < n && j < n && RecordServes(f, packets, picks, states, i, j, n, b) ::
              GoesTo(Output(f, states[n], packets[n]), packets[j])
    ensures !SomeRecordServes(f, packets, picks, states, n) ==>
              forall j: nat, b: nat
                | j < n && Prefers(f, packets, states, n, b) && ServesAt(f, packets, picks, states, j, n, b) ::
                GoesTo(Output(f, states[n], packets[n]), packets[j])
    ensures (forall b: nat :: !AliveAt(f, packets, states, n, b)) ==>
              Output(f, states[n], packets[n]) == (packets[n].device, None)
  {
    StateIsGood(f, packets, picks, states, n);
    AgedIsGood(f, states[n], packets[n].time);
    forall i: nat, j: nat, b: nat | i < n && j < n && RecordServes(f, packets, picks, states, i, j, n, b)
      ensures GoesTo(Output(f, states[n], packets[n]), packets[j])
    {
      SentToRecord(f, packets, picks, states, i, j, n, b);
    }
    if !SomeRecordServes(f, packets, picks, states, n) {
      if Sticks(f, Aged(f, states[n], packets[n].time), packets[n].flow) {
        SticksIsServed(f, packets, picks, states, n);
      }
      SentToChoice(f, packets, picks, states, n);
    }
    if forall b: nat :: !AliveAt(f, packets, states, n, b) {
      NobodyServes(f, packets, states, n);
    }
  }

  lemma {:induction false} NobodyServes(f: Setup, packets: seq<Packet>, states: seq<State>, n: nat)
    requires n < |packets| < |states| && Good(f, Aged(f, states[n], packets[n].time))
    requires packets[n].tcpudp && packets[n].device == f.wan && forall b: nat :: !AliveAt(f, packets, states, n, b)
    ensures Output(f, states[n], packets[n]) == (packets[n].device, None)
  {
    var active := Active(Aged(f, states[n], packets[n].time).ips);
    if active != {} {
      var b :| b in active;
      assert AliveAt(f, packets, states, n, b);
    }
  }

  lemma {:induction false} SentToRecord(f: Setup, packets: seq<Packet>, picks: seq<nat>, states: seq<State>, i: nat,
                                        j: nat, n: nat, b: nat)
    requires Run(f, packets, picks, states) && i < n < |packets| && j < n
    requires packets[n].tcpudp && packets[n].device == f.wan
    requires RecordServes(f, packets, picks, states, i, j, n, b)
    ensures Good(f, Aged(f, states[n], packets[n].time))
    ensures GoesTo(Output(f, states[n], packets[n]), packets[j])
  {
    var x, t := packets[n].flow, packets[n].time;
    StateIsGood(f, packets, picks, states, n);
    AgedIsGood(f, states[n], t);
    StillRecorded(f, packets, picks, states, i, n, t, x, b);
    Serves(f, packets, picks, states, j, n, b);
    assert Aged(f, states[n], t).flows[x] == states[n].flows[x];
  }

  lemma {:induction false} SticksIsServed(f: Setup, packets: seq<Packet>, picks: seq<nat>, states: seq<State>, n: nat)
    requires Run(f, packets, picks, states) && n < |packets| && Good(f, Aged(f, states[n], packets[n].time))
    requires Sticks(f, Aged(f, states[n], packets[n].time), packets[n].flow)
    ensures SomeRecordServes(f, packets, picks, states, n)
  {
    var x, t, aged := packets[n].flow, packets[n].time, Aged(f, states[n], packets[n].time);
    var b := aged.backendOf[aged.flows[x].index];
    assert Recorded(f, states[n], x, b, t) && AliveAt(f, packets, states, n, b);
    RecordedExactly(f, packets, picks, states, n, t, x, b);
    AliveExactly(f, packets, picks, states, n, b);
    var i: nat :| i < n && HeldSince(f, packets, states, i, n, t, x, b);
    var j: nat :| j < n && ServesAt(f, packets, picks, states, j, n, b);
    assert RecordServes(f, packets, picks, states, i, j, n, b);
  }

  lemma {:induction false} SentToChoice(f: Setup, packets: seq<Packet>, picks: seq<nat>, states: seq<State>, n: nat)
    requires Run(f, packets, picks, states) && n < |packets| && Good(f, Aged(f, states[n], packets[n].time))
    requires packets[n].tcpudp && packets[n].device == f.wan
    requires !Sticks(f, Aged(f, states[n], packets[n].time), packets[n].flow)
    ensures forall j: nat, b: nat
              | j < n && Prefers(f, packets, states, n, b) && ServesAt(f, packets, picks, states, j, n, b) ::
              GoesTo(Output(f, states[n], packets[n]), packets[j])
  {
    forall j: nat, b: nat | j < n && Prefers(f, packets, states, n, b) && ServesAt(f, packets, picks, states, j, n, b)
      ensures GoesTo(Output(f, states[n], packets[n]), packets[j])
    {
      Serves(f, packets, picks, states, j, n, b);
    }
  }

  /** All other packets stay on their device. */
  lemma {:induction false} OthersExactly(f: Setup, packets: seq<Packet>, picks: seq<nat>, states: seq<State>, n: nat)
    requires Run(f, packets, picks, states) && n < |packets|
    requires !packets[n].tcpudp || packets[n].device != f.wan
    ensures Good(f, Aged(f, states[n], packets[n].time))
    ensures Output(f, states[n], packets[n]) == (packets[n].device, None)
  {
    StateIsGood(f, packets, picks, states, n);
    AgedIsGood(f, states[n], packets[n].time);
  }

  // ----- The flow table as a cache

  /** Heartbeats that leave no gap up to a packet leave none up to an earlier one. */
  lemma {:induction false} ServedBefore(f: Setup, packets: seq<Packet>, picks: seq<nat>, states: seq<State>, j: nat,
                                        m: nat, n: nat, b: nat)
    requires Run(f, packets, picks, states) && j < m <= n < |packets| && ServesAt(f, packets, picks, states, j, n, b)
    ensures ServesAt(f, packets, picks, states, j, m, b)
  {
    var ip := packets[j].flow.srcIp;
    Shorten(BackendTable(f), Heartbeats(f, packets, ip), j, m, n, packets[m].time, packets[n].time);
  }

  lemma {:induction false} ActiveBefore(f: Setup, packets: seq<Packet>, picks: seq<nat>, states: seq<State>, i: nat,
                                        m: nat, n: nat, x: Flow)
    requires Run(f, packets, picks, states) && i < m <= n < |packets|
    requires R.Active(RecordTable(f), Clients(f, packets, x), i, n, packets[n].time)
    ensures R.Active(RecordTable(f), Clients(f, packets, x), i, m, packets[m].time)
  {
    Shorten(RecordTable(f), Clients(f, packets, x), i, m, n, packets[m].time, packets[n].time);
  }

  lemma {:induction false} Shorten(c: R.Config, acts: seq<R.Activity>, j: nat, m: nat, n: nat, u: int, t: int)
    requires R.Active(c, acts, j, n, t) && j < m <= n < |acts| && u == acts[m].time && t == acts[n].time
    requires forall x, y :: 0 <= x <= y < |acts| ==> acts[x].time <= acts[y].time
    ensures R.Active(c, acts, j, m, u)
  {
    var run := AsUses(acts);
    R.ActiveIsGapless(c, run, 0, 0, acts, j, n, t);
    if m < n {
      R.FreshThroughout(c, run, 0, 0, j, n, t, m);
    }
    R.ActiveIsGapless(c, run, 0, 0, acts, j, m, u);
  }

  ghost function AsUses(acts: seq<R.Activity>): (run: seq<R.Event<nat, ()>>)
    ensures |run| == |acts| && R.Witnessed(run, 0, 0, acts)
  {
    seq(|acts|, i requires 0 <= i < |acts| => R.Event(acts[i].time, if acts[i].mine then R.Refresh(0) else R.Nothing))
  }

  lemma {:induction false} Kept(f: Setup, packets: seq<Packet>, picks: seq<nat>, states: seq<State>, i: nat, j: nat,
                                n: nat, x: Flow, b: nat, k: nat)
    requires Run(f, packets, picks, states) && j < i < k <= n < |packets| && RecordsWith(f, packets, states, i, x, b)
    requires R.Active(RecordTable(f), Clients(f, packets, x), i, n, packets[n].time)
    requires ServesAt(f, packets, picks, states, j, n, b)
    ensures KeptAt(f, packets, states, k, x, b)
  {
    forall q: nat | i < q <= k
      ensures AliveAt(f, packets, states, q, b)
    {
      ServedBefore(f, packets, picks, states, j, q, n, b);
      Serves(f, packets, picks, states, j, q, b);
    }
    ActiveBefore(f, packets, picks, states, i, k, n, x);
    assert HeldSince(f, packets, states, i, k, packets[k].time, x, b);
    StillRecorded(f, packets, picks, states, i, k, packets[k].time, x, b);
    assert AliveAt(f, packets, states, k, b);
  }

  /** The flow table agrees with the hash table it caches. Packet `i` records a flow with a backend that heartbeat `j`
      announced. While neither the client packets of the flow nor the heartbeats of the backend leave a gap longer than
      their expiry times, the flow's packets go to that backend, as the heartbeat announced it; and a fresh lookup would
      choose that backend too, unless it would choose one that joined after the flow was recorded. */
  lemma {:induction false} CacheAgrees(f: Setup, packets: seq<Packet>, picks: seq<nat>, states: seq<State>,
                                       i: nat, j: nat, n: nat, b: nat)
    requires Run(f, packets, picks, states) && j < i <= n < |packets|
    requires packets[n].tcpudp && packets[n].device == f.wan
    requires RecordsWith(f, packets, states, i, packets[n].flow, b)
    requires i < n ==> R.Active(RecordTable(f), Clients(f, packets, packets[n].flow), i, n, packets[n].time)
    requires ServesAt(f, packets, picks, states, j, n, b)
    ensures Good(f, Aged(f, states[n], packets[n].time))
    ensures GoesTo(Output(f, states[n], packets[n]), packets[j])
    ensures Active(Aged(f, states[n], packets[n].time).ips) != {}
    ensures Choice(f.rank(packets[n].flow), Active(Aged(f, states[n], packets[n].time).ips))
            in {b} + Joined(f, packets, picks, states, i + 1, n)
  {
    var x := packets[n].flow;
    Serves(f, packets, picks, states, j, n, b);
    RecordsWithIs(f, packets, picks, states, i, x, b);
    if i == n {
      StateIsGood(f, packets, picks, states, n);
      AgedIsGood(f, states[n], packets[n].time);
    } else {
      forall k: nat | i < k <= n
        ensures KeptAt(f, packets, states, k, x, b)
      {
        Kept(f, packets, picks, states, i, j, n, x, b, k);
      }
      KeptAgrees(f, packets, picks, states, i, n, x, b);
      assert states[n].backends[b] == states[i].backends[b];
    }
  }
}
