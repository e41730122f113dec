/** The policer and the firewall in one network function: a packet passes if both let it pass, and then the two
    must agree on the device. */
module PolicerFirewall {
  import opened Coherence
  import R = FlowRuns
  import F = Firewall
  import P = Policer
  import B = TokenBucket

  /** A TCP or UDP packet over IPv4. */
  datatype Packet = Packet(device: nat, time: int, id: F.FlowId, size: nat)

  /** Rate and burst are those of the configuration. */
  datatype Setup = Setup(lan: nat, wan: nat, flows: R.Config, capacity: nat, rate: nat, burst: nat)

  datatype State = State(flows: R.State<F.FlowId, nat>, buckets: P.State)

  /** The indexes the two allocators pick. */
  datatype Picks = Picks(flow: nat, bucket: nat)

  /** Where a packet goes; its own device means that it is dropped. */
  datatype Outcome = Sent(device: nat) | AssertionFails | DividesByZero

  function FirewallOf(f: Setup): (r: F.Setup) { F.Setup(f.wan, f.flows) }

  const HALFWORD: nat := 0x1_0000

  /** The policer's functions take rate and burst as 16-bit arguments; a rate of zero is not sound. */
  function Narrow(rate: nat, burst: nat): (c: B.Config) {
    if rate % HALFWORD == 0 then B.Config(0, burst % HALFWORD, 0, 0)
    else B.BySeconds(rate % HALFWORD, burst % HALFWORD)
  }

  function PolicerOf(f: Setup): (r: P.Setup) { P.Setup(f.lan, f.wan, f.capacity, Narrow(f.rate, f.burst)) }

  function ToFirewall(p: Packet): (q: F.Packet) { F.Packet(p.device, p.time, true, p.id) }

  function ToPolicer(p: Packet): (q: P.Packet) { P.Packet(p.device, p.time, true, p.id.dstIp, p.size) }

  ghost predicate Good(f: Setup, s: State) {
    R.Good(f.flows, s.flows) && P.Good(PolicerOf(f), s.buckets)
  }

  ghost predicate Legal(f: Setup, s: State, p: Packet, picks: Picks) {
    && R.Good(f.flows, s.flows) && R.Legal(f.flows, s.flows, F.Asks(FirewallOf(f), ToFirewall(p), picks.flow))
    && P.Legal(PolicerOf(f), s.buckets, ToPolicer(p), picks.bucket)
  }

  ghost function Step(f: Setup, s: State, p: Packet, picks: Picks): (s': State)
    requires Legal(f, s, p, picks)
  {
    State(R.Step(f.flows, s.flows, F.Asks(FirewallOf(f), ToFirewall(p), picks.flow)),
          P.Step(PolicerOf(f), s.buckets, ToPolicer(p), picks.bucket))
  }

  function Combine(device: nat, byFirewall: nat, byPolicer: nat): (out: Outcome) {
    if byPolicer == device || byFirewall == device then Sent(device)
    else if byPolicer == byFirewall then Sent(byPolicer)
    else AssertionFails
  }

  ghost function Output(f: Setup, s: State, p: Packet): (out: Outcome)
    requires Good(f, s) && UpTo(s.buckets.view, p.time)
  {
    Combine(p.device, F.Output(FirewallOf(f), s.flows, ToFirewall(p)),
            P.Output(PolicerOf(f), s.buckets, ToPolicer(p)))
  }

  // ----- Runs

  ghost predicate StepAt(f: Setup, packets: seq<Packet>, picks: seq<Picks>, states: seq<State>, i: nat)
    requires i < |packets| == |picks| && |states| == |packets| + 1
  {
    Legal(f, states[i], packets[i], picks[i]) && states[i + 1] == Step(f, states[i], packets[i], picks[i])
  }

  ghost predicate Empty(f: Setup, s: State) {
    && s.flows.view == map[] && |s.flows.vals| == f.flows.capacity
    && s.buckets.view == map[] && |s.buckets.vals| == f.capacity
  }

  /** A run from empty tables, with the states between its packets. */
  ghost predicate Run(f: Setup, packets: seq<Packet>, picks: seq<Picks>, states: seq<State>) {
    && |picks| == |packets| && |states| == |packets| + 1 && Empty(f, states[0]) && B.Sound(Narrow(f.rate, f.burst))
    && (forall i: nat {:trigger StepAt(f, packets, picks, states, i)} ::
          i < |packets| ==> StepAt(f, packets, picks, states, i))
    && (forall i, j :: 0 <= i <= j < |packets| ==> packets[i].time <= packets[j].time)
  }

  ghost function FirewallPackets(packets: seq<Packet>): (r: seq<F.Packet>)
    ensures |r| == |packets| && forall i :: 0 <= i < |r| ==> r[i] == ToFirewall(packets[i])
  {
    seq(|packets|, i requires 0 <= i < |packets| => ToFirewall(packets[i]))
  }

  ghost function PolicerPackets(packets: seq<Packet>): (r: seq<P.Packet>)
    ensures |r| == |packets| && forall i :: 0 <= i < |r| ==> r[i] == ToPolicer(packets[i])
  {
    seq(|packets|, i requires 0 <= i < |packets| => ToPolicer(packets[i]))
  }

  ghost function FlowPicks(picks: seq<Picks>): (r: seq<nat>)
    ensures |r| == |picks| && forall i :: 0 <= i < |r| ==> r[i] == picks[i].flow
  {
    seq(|picks|, i requires 0 <= i < |picks| => picks[i].flow)
  }

  ghost function BucketPicks(picks: seq<Picks>): (r: seq<nat>)
    ensures |r| == |picks| && forall i :: 0 <= i < |r| ==> r[i] == picks[i].bucket
  {
    seq(|picks|, i requires 0 <= i < |picks| => picks[i].bucket)
  }

  ghost function FlowStates(states: seq<State>): (r: seq<R.State<F.FlowId, nat>>)
    ensures |r| == |states| && forall i :: 0 <= i < |r| ==> r[i] == states[i].flows
  {
    seq(|states|, i requires 0 <= i < |states| => states[i].flows)
  }

  ghost function BucketStates(states: seq<State>): (r: seq<P.State>)
    ensures |r| == |states| && forall i :: 0 <= i < |r| ==> r[i] == states[i].buckets
  {
    seq(|states|, i requires 0 <= i < |states| => states[i].buckets)
  }

  /** A run of the two together is a run of the firewall. */
  lemma {:induction false} IsFirewallRun(f: Setup, packets: seq<Packet>, picks: seq<Picks>, states: seq<State>)
    requires Run(f, packets, picks, states)
    ensures R.Run(f.flows, F.Asked(FirewallOf(f), FirewallPackets(packets), FlowPicks(picks)), FlowStates(states))
  {
    var run, fs := F.Asked(FirewallOf(f), FirewallPackets(packets), FlowPicks(picks)), FlowStates(states);
    forall i | 0 <= i < |run|
      ensures R.IsStep(f.flows, fs[i], run[i], fs[i + 1])
    {
      assert StepAt(f, packets, picks, states, i);
    }
  }

  /** A run of the two together is a run of the policer. */
  lemma {:induction false} IsPolicerRun(f: Setup, packets: seq<Packet>, picks: seq<Picks>, states: seq<State>)
    requires Run(f, packets, picks, states)
    ensures P.Run(PolicerOf(f), PolicerPackets(packets), BucketPicks(picks), BucketStates(states))
  {
    var ps, qs, ss := PolicerPackets(packets), BucketPicks(picks), BucketStates(states);
    forall i: nat | i < |ps|
      ensures P.StepAt(PolicerOf(f), ps, qs, ss, i)
    {
      assert StepAt(f, packets, picks, states, i);
    }
  }

  lemma {:induction false} StatesAreGood(f: Setup, packets: seq<Packet>, picks: seq<Picks>, states: seq<State>,
                                         n: nat)
    requires Run(f, packets, picks, states) && n < |packets|
    ensures Good(f, states[n]) && UpTo(states[n].buckets.view, packets[n].time)
  {
    assert StepAt(f, packets, picks, states, n);
  }

  // ----- The assertion

  /** Every flow in the table was opened from one of the devices, and not from the WAN's. */
  ghost predicate OpenedFrom(f: Setup, s: R.State<F.FlowId, nat>, devices: set<nat>)
    requires R.Good(f.flows, s)
  {
    forall k :: k in s.view ==> s.vals[s.view[k].index] in devices - {f.wan}
  }

  lemma {:induction false} OpenedFromStep(f: Setup, s: R.State<F.FlowId, nat>, p: F.Packet, pick: nat,
                                          devices: set<nat>)
    requires R.Good(f.flows, s) && OpenedFrom(f, s, devices) && p.device in devices && p.tcpudp
    requires R.Legal(f.flows, s, F.Asks(FirewallOf(f), p, pick))
    ensures R.Good(f.flows, R.Step(f.flows, s, F.Asks(FirewallOf(f), p, pick)))
    ensures OpenedFrom(f, R.Step(f.flows, s, F.Asks(FirewallOf(f), p, pick)), devices)
  {
    var e := F.Asks(FirewallOf(f), p, pick);
    var s' := R.Step(f.flows, s, e);
    R.StepIsGood(f.flows, s, e);
    forall k | k in s'.view
      ensures s'.vals[s'.view[k].index] in devices - {f.wan}
    {
      if k in R.Aged(f.flows, s, e.time) {
        R.StepOnLive(f.flows, s, e, k);
      } else {
        R.StepOnDead(f.flows, s, e, k);
      }
    }
  }

  ghost predicate Uses(packets: seq<Packet>, devices: set<nat>) {
    forall i :: 0 <= i < |packets| ==> packets[i].device in devices
  }

  /** In every run over a set of devices, every live flow was opened from one of them. */
  lemma {:induction false} AlwaysOpenedFrom(f: Setup, packets: seq<Packet>, picks: seq<Picks>, states: seq<State>,
                                            devices: set<nat>, n: nat)
    requires Run(f, packets, picks, states) && Uses(packets, devices) && n < |states|
    ensures R.Good(f.flows, states[n].flows) && OpenedFrom(f, states[n].flows, devices)
  {
    if n > 0 {
      AlwaysOpenedFrom(f, packets, picks, states, devices, n - 1);
      assert StepAt(f, packets, picks, states, n - 1);
      OpenedFromStep(f, states[n - 1].flows, ToFirewall(packets[n - 1]), picks[n - 1].flow, devices);
    }
  }

  ghost predicate NeverFails(f: Setup, devices: set<nat>) {
    forall packets: seq<Packet>, picks: seq<Picks>, states: seq<State>, n: nat
      | Run(f, packets, picks, states) && Uses(packets, devices) && n < |packets| && Good(f, states[n])
        && UpTo(states[n].buckets.view, packets[n].time) ::
      Output(f, states[n], packets[n]) != AssertionFails
  }

  predicate Agreeable(f: Setup, devices: set<nat>) {
    f.lan == f.wan || f.wan !in devices || devices <= {f.lan, f.wan}
  }

  lemma {:induction false} AgreementAt(f: Setup, s: State, p: Packet, devices: set<nat>)
    requires Good(f, s) && UpTo(s.buckets.view, p.time) && OpenedFrom(f, s.flows, devices)
    requires p.device in devices && Agreeable(f, devices)
    ensures Output(f, s, p) != AssertionFails
  {
  }

  /** A packet from a third device opens a flow to that device. */
  lemma {:induction false} ThirdDeviceOpens(f: Setup, s: State, p: Packet, picks: Picks)
    requires B.Sound(Narrow(f.rate, f.burst)) && f.flows.capacity > 0 && Empty(f, s)
    requires p.device != f.lan && p.device != f.wan && p.size == 0 && picks == Picks(0, 0)
    ensures Legal(f, s, p, picks)
    ensures var s' := Step(f, s, p, picks);
            && s'.flows.view == map[p.id := Entry(0, p.time)] && |s'.flows.vals| == f.flows.capacity
            && s'.flows.vals[0] == p.device && s'.buckets == s.buckets
  {
  }

  /** The reply from outside is for that device by the firewall's word, and for the LAN by the policer's. */
  lemma {:induction false} ReplyDisagrees(f: Setup, s: State, q: Packet, picks: Picks, device: nat)
    requires B.Sound(Narrow(f.rate, f.burst)) && f.flows.capacity > 0 && f.capacity > 0 && f.flows.expiry >= 0
    requires f.lan != f.wan && device != f.lan && device != f.wan
    requires s.flows.view == map[F.Inverse(q.id) := Entry(0, q.time)] && |s.flows.vals| == f.flows.capacity
    requires s.flows.vals[0] == device && s.buckets.view == map[] && |s.buckets.vals| == f.capacity
    requires q.device == f.wan && q.size == 0 && picks == Picks(0, 0)
    ensures Good(f, s) && Legal(f, s, q, picks) && Output(f, s, q) == AssertionFails
  {
  }

  lemma {:induction false} Disagreement(f: Setup, device: nat)
      returns (packets: seq<Packet>, picks: seq<Picks>, states: seq<State>)
    requires B.Sound(Narrow(f.rate, f.burst)) && f.flows.capacity > 0 && f.capacity > 0 && f.flows.expiry >= 0
    requires f.lan != f.wan && device != f.lan && device != f.wan
    ensures Run(f, packets, picks, states) && Uses(packets, {device, f.wan}) && |packets| == 2
    ensures Good(f, states[1]) && UpTo(states[1].buckets.view, packets[1].time)
    ensures Output(f, states[1], packets[1]) == AssertionFails
  {
    var id := F.FlowId(0, 0, 0, 0, 0);
    var p, q, pick := Packet(device, 0, id, 0), Packet(f.wan, 0, id, 0), Picks(0, 0);
    assert F.Inverse(id) == id;
    var s0 := State(R.State(map[], seq(f.flows.capacity, _ => 0)),
                    P.State(map[], seq(f.capacity, _ => B.Bucket(0, 0))));
    ThirdDeviceOpens(f, s0, p, pick);
    var s1 := Step(f, s0, p, pick);
    ReplyDisagrees(f, s1, q, pick, device);
    packets, picks, states := [p, q], [pick, pick], [s0, s1, Step(f, s1, q, pick)];
  }

  /** The assertion that the two agree holds in every run over a set of devices if and only if the LAN is the WAN,
      or nothing comes from outside, or there are no devices but these two. */
  lemma {:induction false} NeverFailsExactly(f: Setup, devices: set<nat>)
    requires B.Sound(Narrow(f.rate, f.burst)) && f.flows.capacity > 0 && f.capacity > 0 && f.flows.expiry >= 0
    ensures NeverFails(f, devices) <==> Agreeable(f, devices)
  {
    if Agreeable(f, devices) {
      forall packets: seq<Packet>, picks: seq<Picks>, states: seq<State>, n: nat
        | Run(f, packets, picks, states) && Uses(packets, devices) && n < |packets| && Good(f, states[n])
          && UpTo(states[n].buckets.view, packets[n].time)
        ensures Output(f, states[n], packets[n]) != AssertionFails
      {
        AlwaysOpenedFrom(f, packets, picks, states, devices, n);
        AgreementAt(f, states[n], packets[n], devices);
      }
    } else {
      var device :| device in devices && device !in {f.lan, f.wan};
      var packets, picks, states := Disagreement(f, device);
      assert Uses(packets, devices);
      var n: nat := 1;
      assert Output(f, states[n], packets[n]) == AssertionFails;
    }
  }

  // ----- What both guarantee together

  /** With two devices: a packet from inside goes outside; a packet from outside goes inside exactly when the
      firewall has a live flow that it answers and it is within the rate of its destination. */
  lemma {:induction false} PassesExactly(f: Setup, packets: seq<Packet>, picks: seq<Picks>, states: seq<State>,
                                         n: nat)
    requires Run(f, packets, picks, states) && Uses(packets, {f.lan, f.wan}) && n < |packets| && f.lan != f.wan
    ensures Good(f, states[n]) && UpTo(states[n].buckets.view, packets[n].time)
    ensures P.Good(PolicerOf(f), P.Aged(PolicerOf(f), states[n].buckets, packets[n].time))
    ensures var p, aged := packets[n], P.Aged(PolicerOf(f), states[n].buckets, packets[n].time);
            && UpTo(aged.view, p.time)
            && Output(f, states[n], p)
               == if p.device == f.lan then Sent(f.wan)
                  else if (exists id :: F.Answers(p.id, id) && R.Live(f.flows, states[n].flows, id, p.time))
                          && P.Fits(PolicerOf(f), aged, p.id.dstIp, p.size, p.time)
                  then Sent(f.lan) else Sent(f.wan)
  {
    StatesAreGood(f, packets, picks, states, n);
    P.AgedIsGood(PolicerOf(f), states[n].buckets, packets[n].time);
    assert F.Answers(packets[n].id, F.Inverse(packets[n].id));
    AlwaysOpenedFrom(f, packets, picks, states, {f.lan, f.wan}, n);
  }

  /** Packet `n` from outside was let in to destination `d`. */
  ghost predicate LetIn(f: Setup, s: State, p: Packet, d: nat)
    requires Good(f, s) && UpTo(s.buckets.view, p.time)
  {
    p.device == f.wan && p.id.dstIp == d && Output(f, s, p) == Sent(f.lan) && f.lan != f.wan
  }

  /** A packet let in was solicited from inside, without a gap in its flow longer than the expiry time. */
  lemma {:induction false} LetInIsSolicited(f: Setup, packets: seq<Packet>, picks: seq<Picks>, states: seq<State>,
                                            n: nat) returns (j: nat)
    requires Run(f, packets, picks, states) && n < |packets|
    requires Good(f, states[n]) && UpTo(states[n].buckets.view, packets[n].time)
    requires LetIn(f, states[n], packets[n], packets[n].id.dstIp)
    ensures R.Run(f.flows, F.Asked(FirewallOf(f), FirewallPackets(packets), FlowPicks(picks)), FlowStates(states))
    ensures j < n && F.Solicits(FirewallOf(f), FirewallPackets(packets), FlowPicks(picks), FlowStates(states), j, n)
  {
    IsFirewallRun(f, packets, picks, states);
    var g, ps, qs, ss := FirewallOf(f), FirewallPackets(packets), FlowPicks(picks), FlowStates(states);
    F.ForwardedExactly(g, ps, qs, ss, n);
    j :| 0 <= j < n && F.Solicits(g, ps, qs, ss, j, n);
  }

  /** Bytes let in to `d` by packets `lo` to `hi - 1`. */
  ghost function BytesIn(f: Setup, packets: seq<Packet>, picks: seq<Picks>, states: seq<State>,
                         d: nat, lo: nat, hi: nat): (n: nat)
    requires Run(f, packets, picks, states) && hi <= |packets|
  {
    if hi <= lo then 0
    else
      StatesAreGood(f, packets, picks, states, hi - 1);
      BytesIn(f, packets, picks, states, d, lo, hi - 1)
      + if LetIn(f, states[hi - 1], packets[hi - 1], d) then packets[hi - 1].size else 0
  }

  lemma {:induction false} NoMoreThanPoliced(f: Setup, packets: seq<Packet>, picks: seq<Picks>, states: seq<State>,
                                             d: nat, lo: nat, hi: nat)
    requires Run(f, packets, picks, states) && hi <= |packets|
    ensures P.Run(PolicerOf(f), PolicerPackets(packets), BucketPicks(picks), BucketStates(states))
    ensures BytesIn(f, packets, picks, states, d, lo, hi)
         <= P.BytesTo(PolicerOf(f), PolicerPackets(packets), BucketPicks(picks), BucketStates(states), d, lo, hi)
  {
    IsPolicerRun(f, packets, picks, states);
    if hi > lo {
      NoMoreThanPoliced(f, packets, picks, states, d, lo, hi - 1);
      StatesAreGood(f, packets, picks, states, hi - 1);
    }
  }

  /** In every run, to every destination, in every window, what is let in is at most the configured burst and what
      the configured rate adds. */
  ghost predicate KeepsRate(f: Setup) {
    forall packets: seq<Packet>, picks: seq<Picks>, states: seq<State>, d: nat, lo: nat, hi: nat ::
      Run(f, packets, picks, states) && lo < hi <= |packets| ==> KeepsRateIn(f, packets, picks, states, d, lo, hi)
  }

  ghost predicate KeepsRateIn(f: Setup, packets: seq<Packet>, picks: seq<Picks>, states: seq<State>,
                              d: nat, lo: nat, hi: nat)
    requires Run(f, packets, picks, states) && lo < hi <= |packets|
  {
    BytesIn(f, packets, picks, states, d, lo, hi)
    <= f.burst + f.rate * (packets[hi - 1].time - packets[lo].time) / B.SECOND
  }

  lemma {:induction false} NarrowIsLess(rate: nat, burst: nat)
    ensures Narrow(rate, burst).rate <= rate && Narrow(rate, burst).burst <= burst
  {
  }

  /** The policer bounds what is let in, although packets the firewall drops are charged too. */
  lemma {:induction false} HonestKeepsRate(f: Setup, packets: seq<Packet>, picks: seq<Picks>, states: seq<State>,
                                           d: nat, lo: nat, hi: nat)
    requires Run(f, packets, picks, states) && B.Honest(Narrow(f.rate, f.burst), f.rate) && lo < hi <= |packets|
    ensures KeepsRateIn(f, packets, picks, states, d, lo, hi)
  {
    NarrowIsLess(f.rate, f.burst);
    NoMoreThanPoliced(f, packets, picks, states, d, lo, hi);
    P.Window(PolicerOf(f), f.rate, f.burst, PolicerPackets(packets), BucketPicks(picks),
             BucketStates(states), d, lo, hi);
  }

  // ----- A run of one bucket as a run of the two together

  const ID: F.FlowId := F.FlowId(0, 0, 0, 0, 0)   // its own inverse

  /** Only one flow, opened from the LAN, and only its destination. */
  ghost predicate Lone(f: Setup, s: State) {
    && Good(f, s) && P.Alone(s.buckets)
    && (forall k :: k in s.flows.view ==> k == ID && s.flows.vals[s.flows.view[k].index] == f.lan)
  }

  ghost predicate NotAhead(s: State, time: int) {
    UpTo(s.flows.view, time) && UpTo(s.buckets.view, time)
  }

  ghost function Opening(f: Setup, time: int): (p: Packet) { Packet(f.lan, time, ID, 0) }

  ghost function Answer(f: Setup, a: B.Arrival): (p: Packet)
    requires a.kind.Police?
  {
    Packet(f.wan, a.time, ID, a.kind.size)
  }

  const NONE: Picks := Picks(0, 0)

  /** A packet from the LAN keeps the flow alive, and only ages the buckets. */
  lemma {:induction false} OpeningStep(f: Setup, s: State, time: int)
    requires Lone(f, s) && NotAhead(s, time) && f.flows.capacity > 0 && f.flows.expiry >= 0 && f.lan != f.wan
    ensures Legal(f, s, Opening(f, time), NONE)
    ensures var s' := Step(f, s, Opening(f, time), NONE);
            && Lone(f, s') && NotAhead(s', time) && s'.buckets == P.Aged(PolicerOf(f), s.buckets, time)
            && R.Live(f.flows, s'.flows, ID, time)
  {
    var w := R.Aged(f.flows, s.flows, time);
    if ID !in w {
      assert w == map[];
    }
    var e := F.Asks(FirewallOf(f), ToFirewall(Opening(f, time)), 0);
    R.StepIsGood(f.flows, s.flows, e);
    P.AgedIsGood(PolicerOf(f), s.buckets, time);
  }

  /** A packet from outside that answers it is let in whenever the policer forwards it. */
  lemma {:induction false} AnswerStep(f: Setup, s: State, a: B.Arrival)
    requires Lone(f, s) && NotAhead(s, a.time) && f.capacity > 0 && f.lan != f.wan
    requires a.kind.Police? && a.kind.room && a.kind.size <= B.MAX_SIZE && R.Live(f.flows, s.flows, ID, a.time)
    ensures Legal(f, s, Answer(f, a), NONE)
    ensures Lone(f, Step(f, s, Answer(f, a), NONE)) && NotAhead(Step(f, s, Answer(f, a), NONE), a.time)
    ensures B.UpTo(P.CellOf(s.buckets, 0), a.time)
    ensures var c, o, s' := Narrow(f.rate, f.burst), P.CellOf(s.buckets, 0), Step(f, s, Answer(f, a), NONE);
            && P.CellOf(s'.buckets, 0) == B.Step(c, o, a)
            && (if LetIn(f, s, Answer(f, a), 0) then a.kind.size else 0) == B.Sent(c, o, a)
  {
    var g, p := PolicerOf(f), Answer(f, a);
    P.AloneStep(g, s.buckets, a);
    assert ToPolicer(p) == P.PacketOf(g, a) && F.Inverse(ID) == ID;
    P.StepIsGood(g, s.buckets, ToPolicer(p), 0);
    P.StepProjects(g, s.buckets, ToPolicer(p), 0, 0);
    P.SentProjects(g, s.buckets, ToPolicer(p), 0);
    var e := F.Asks(FirewallOf(f), ToFirewall(p), 0);
    R.StepIsGood(f.flows, s.flows, e);
    R.StepOnLive(f.flows, s.flows, e, ID);
  }

  lemma {:induction false} Extend(f: Setup, packets: seq<Packet>, picks: seq<Picks>, states: seq<State>, p: Packet,
                                  pick: Picks, s: State)
    requires Run(f, packets, picks, states) && (packets != [] ==> packets[|packets| - 1].time <= p.time)
    requires Legal(f, states[|packets|], p, pick) && s == Step(f, states[|packets|], p, pick)
    ensures Run(f, packets + [p], picks + [pick], states + [s])
  {
    var ps, qs, ss := packets + [p], picks + [pick], states + [s];
    forall i: nat | i < |ps|
      ensures StepAt(f, ps, qs, ss, i)
    {
      if i < |packets| {
        assert StepAt(f, packets, picks, states, i);
      }
    }
    forall i, j | 0 <= i <= j < |ps|
      ensures ps[i].time <= ps[j].time
    {
      if i < |packets| {
        assert packets[i].time <= packets[|packets| - 1].time;
      }
    }
  }

  /** One more packet adds its bytes. */
  lemma {:induction false} ExtendBytes(f: Setup, packets: seq<Packet>, picks: seq<Picks>, states: seq<State>,
                                       p: Packet, pick: Picks, s: State, n: nat)
    requires Run(f, packets, picks, states) && Run(f, packets + [p], picks + [pick], states + [s]) && n <= |packets|
    ensures BytesIn(f, packets + [p], picks + [pick], states + [s], 0, 0, n)
         == BytesIn(f, packets, picks, states, 0, 0, n)
  {
    if n > 0 {
      ExtendBytes(f, packets, picks, states, p, pick, s, n - 1);
    }
  }

  /** A run of the two together that has carried a run of one bucket. */
  ghost predicate Carries(f: Setup, packets: seq<Packet>, picks: seq<Picks>, states: seq<State>, run: seq<B.Arrival>)
    requires B.Sound(Narrow(f.rate, f.burst))
  {
    && B.Plain(run) && B.Timely(run) && Run(f, packets, picks, states) && Lone(f, states[|packets|])
    && (run == [] <==> packets == [])
    && (run != [] ==> packets[0].time == run[0].time && packets[|packets| - 1].time == run[|run| - 1].time
                      && NotAhead(states[|packets|], run[|run| - 1].time))
    && (run == [] ==> Empty(f, states[0]))
    && P.CellOf(states[|packets|].buckets, 0) == B.After(Narrow(f.rate, f.burst), run)
    && BytesIn(f, packets, picks, states, 0, 0, |packets|) == B.Bytes(Narrow(f.rate, f.burst), run, 0)
  }

  /** The same, with one more packet from the LAN at time `t` that keeps the flow alive. */
  ghost predicate CarriesOpen(f: Setup, packets: seq<Packet>, picks: seq<Picks>, states: seq<State>,
                              run: seq<B.Arrival>, t: int)
    requires B.Sound(Narrow(f.rate, f.burst))
  {
    && B.Plain(run) && B.Timely(run) && Run(f, packets, picks, states) && Lone(f, states[|packets|])
    && packets != [] && packets[|packets| - 1].time == t
    && packets[0].time == (if run == [] then t else run[0].time) && NotAhead(states[|packets|], t)
    && R.Live(f.flows, states[|packets|].flows, ID, t)
    && P.CellOf(states[|packets|].buckets, 0)
       == B.Aged(Narrow(f.rate, f.burst), B.After(Narrow(f.rate, f.burst), run), t)
    && BytesIn(f, packets, picks, states, 0, 0, |packets|) == B.Bytes(Narrow(f.rate, f.burst), run, 0)
  }

  lemma {:induction false} CarryOpening(f: Setup, packets: seq<Packet>, picks: seq<Picks>, states: seq<State>,
                                        run: seq<B.Arrival>, t: int)
      returns (ps: seq<Packet>, qs: seq<Picks>, ss: seq<State>)
    requires B.Sound(Narrow(f.rate, f.burst)) && f.flows.capacity > 0 && f.flows.expiry >= 0
    requires f.lan != f.wan && Carries(f, packets, picks, states, run)
    requires run != [] ==> run[|run| - 1].time <= t
    ensures CarriesOpen(f, ps, qs, ss, run, t)
  {
    var s, p := states[|packets|], Opening(f, t);
    OpeningStep(f, s, t);
    var s' := Step(f, s, p, NONE);
    Extend(f, packets, picks, states, p, NONE, s');
    ExtendBytes(f, packets, picks, states, p, NONE, s', |packets|);
    P.AgedProjects(PolicerOf(f), s.buckets, t, 0);
    ps, qs, ss := packets + [p], picks + [NONE], states + [s'];
  }

  lemma {:induction false} CarryAnswer(f: Setup, packets: seq<Packet>, picks: seq<Picks>, states: seq<State>,
                                       run: seq<B.Arrival>, a: B.Arrival)
      returns (ps: seq<Packet>, qs: seq<Picks>, ss: seq<State>)
    requires B.Sound(Narrow(f.rate, f.burst)) && f.capacity > 0 && f.lan != f.wan
    requires CarriesOpen(f, packets, picks, states, run, a.time) && B.Plain(run + [a]) && B.Timely(run + [a])
    ensures Carries(f, ps, qs, ss, run + [a])
  {
    assert (run + [a])[|run|] == a;
    var s, q := states[|packets|], Answer(f, a);
    AnswerStep(f, s, a);
    var s' := Step(f, s, q, NONE);
    Extend(f, packets, picks, states, q, NONE, s');
    ExtendBytes(f, packets, picks, states, q, NONE, s', |packets|);
    B.Extend(Narrow(f.rate, f.burst), run, a, 0);
    ps, qs, ss := packets + [q], picks + [NONE], states + [s'];
  }

  /** One more arrival is two more packets: one from the LAN that keeps the flow alive, and the one that is policed. */
  lemma {:induction false} CarryOn(f: Setup, packets: seq<Packet>, picks: seq<Picks>, states: seq<State>,
                                   run: seq<B.Arrival>, a: B.Arrival)
      returns (ps: seq<Packet>, qs: seq<Picks>, ss: seq<State>)
    requires B.Sound(Narrow(f.rate, f.burst)) && f.flows.capacity > 0 && f.capacity > 0 && f.flows.expiry >= 0
    requires f.lan != f.wan && Carries(f, packets, picks, states, run)
    requires B.Plain(run + [a]) && B.Timely(run + [a])
    ensures Carries(f, ps, qs, ss, run + [a])
  {
    assert (run + [a])[|run|] == a && (run != [] ==> (run + [a])[|run| - 1] == run[|run| - 1]);
    ps, qs, ss := CarryOpening(f, packets, picks, states, run, a.time);
    ps, qs, ss := CarryAnswer(f, ps, qs, ss, run, a);
  }

  lemma {:induction false} CarryNothing(f: Setup) returns (s: State)
    requires B.Sound(Narrow(f.rate, f.burst))
    ensures Carries(f, [], [], [s], [])
  {
    s := State(R.State(map[], seq(f.flows.capacity, _ => 0)),
               P.State(map[], seq(f.capacity, _ => B.Bucket(0, 0))));
  }

  lemma {:induction false} Front(run: seq<B.Arrival>, n: nat)
    requires n < |run| && B.Plain(run) && B.Timely(run)
    ensures B.Plain(run[..n]) && B.Timely(run[..n])
  {
  }

  /** Every plain run of one bucket happens in the two together. */
  lemma {:induction false} Realize(f: Setup, run: seq<B.Arrival>)
      returns (packets: seq<Packet>, picks: seq<Picks>, states: seq<State>)
    requires B.Sound(Narrow(f.rate, f.burst)) && f.flows.capacity > 0 && f.capacity > 0 && f.flows.expiry >= 0
    requires f.lan != f.wan && B.Plain(run) && B.Timely(run)
    ensures Carries(f, packets, picks, states, run)
  {
    if run == [] {
      var s := CarryNothing(f);
      packets, picks, states := [], [], [s];
    } else {
      var n := |run| - 1;
      assert run == run[..n] + [run[n]];
      Front(run, n);
      packets, picks, states := Realize(f, run[..n]);
      packets, picks, states := CarryOn(f, packets, picks, states, run[..n], run[n]);
    }
  }

  lemma {:induction false} DishonestBreaksRate(f: Setup)
    requires B.Sound(Narrow(f.rate, f.burst)) && f.flows.capacity > 0 && f.capacity > 0 && f.flows.expiry >= 0
    requires f.lan != f.wan && !B.Honest(Narrow(f.rate, f.burst), f.rate)
    ensures !KeepsRate(f)
  {
    NarrowIsLess(f.rate, f.burst);
    var run := B.DishonestExcess(Narrow(f.rate, f.burst), f.rate, f.burst);
    var packets, picks, states := Realize(f, run);
    var d: nat, lo: nat, hi: nat := 0, 0, |packets|;
    assert !KeepsRateIn(f, packets, picks, states, d, lo, hi);
  }

  /** Exactly when the two together keep to the configured rate and burst: the truncated bucket must not be
      forgotten or filled sooner than the configured rate pays for. */
  lemma {:induction false} KeepsRateExactly(f: Setup)
    requires B.Sound(Narrow(f.rate, f.burst)) && f.flows.capacity > 0 && f.capacity > 0 && f.flows.expiry >= 0
    requires f.lan != f.wan
    ensures KeepsRate(f) <==> B.Honest(Narrow(f.rate, f.burst), f.rate)
  {
    if B.Honest(Narrow(f.rate, f.burst), f.rate) {
      forall packets: seq<Packet>, picks: seq<Picks>, states: seq<State>, d: nat, lo: nat, hi: nat
        | Run(f, packets, picks, states) && lo < hi <= |packets|
        ensures KeepsRateIn(f, packets, picks, states, d, lo, hi)
      {
        HonestKeepsRate(f, packets, picks, states, d, lo, hi);
      }
    } else {
      DishonestBreaksRate(f);
    }
  }

  /** A rate and a burst that the policer on its own keeps to, and the two together do not: truncated to 16 bits the
      burst is smaller than the rate, so that every bucket is forgotten at once. */
  lemma {:induction false} TruncationBreaksRate(f: Setup)
    requires f.rate == 125537 && f.burst == 6375271008 && f.flows.capacity > 0 && f.capacity > 0
    requires f.flows.expiry >= 0 && f.lan != f.wan
    ensures Narrow(f.rate, f.burst) == B.BySeconds(60001, 60000) && !KeepsRate(f)
    ensures P.KeepsRate(P.Setup(f.lan, f.wan, f.capacity, B.BySeconds(f.rate, f.burst)), f.rate, f.burst)
  {
    assert B.Show(0);
    KeepsRateExactly(f);
    P.DividingKeepsRateExactly(P.Setup(f.lan, f.wan, f.capacity, B.BySeconds(f.rate, f.burst)));
  }

  // ----- The program

  class PolicerFirewall {
    const firewall: F.Firewall
    const policer: P.Policer
    const rate: nat
    const burst: nat

    ghost function Config(): (f: Setup) {
      Setup(policer.setup.lan, policer.setup.wan, firewall.Config().table, policer.setup.capacity, rate, burst)
    }

    /** The policer has the truncated rate and burst, and is never asked where the rate is then zero. */
    ghost predicate Valid()
      reads firewall, firewall.flows, firewall.flows.repr, policer, policer.table, policer.table.repr
    {
      && firewall.Valid() && policer.Valid() && firewall.wan == policer.setup.wan
      && (rate % HALFWORD != 0 ==> policer.setup.bucket == Narrow(rate, burst))
      && firewall.flows.repr !! policer.table.repr && firewall !in policer.table.repr && policer !in firewall.flows.repr
    }

    ghost function Current(): (s: State)
      reads firewall, firewall.flows, policer, policer.table
    {
      State(firewall.Current(), policer.Current())
    }

    constructor (lan: nat, wan: nat, expirationTime: int, maxFlows: nat, rate: nat, burst: nat, capacity: nat,
                 flowHash: F.FlowId -> nat, hash: nat -> nat)
      requires rate > 0 && maxFlows > 0 && capacity > 0
      ensures Valid() && fresh(firewall) && fresh(firewall.flows.repr) && fresh(policer) && fresh(policer.table.repr)
      ensures Empty(Config(), Current()) && this.rate == rate && this.burst == burst
    {
      this.rate, this.burst := rate, burst;
      firewall := new F.Firewall(wan, expirationTime, maxFlows, flowHash);
      var narrow := if rate % HALFWORD == 0 then 1 else rate % HALFWORD;
      policer := new P.Policer(lan, wan, narrow, burst % HALFWORD, capacity, hash);
    }

    /** A packet that is not TCP or UDP over IPv4 is dropped and changes nothing, not even by expiry. Any other packet
        divides by zero where the truncated rate is zero. */
    method Process(p: Packet, tcpudp: bool) returns (out: Outcome, ghost picks: Picks)
      requires Valid() && UpTo(firewall.flows.view, p.time) && UpTo(policer.table.view, p.time)
      requires p.size <= B.MAX_SIZE && 0 <= p.time < B.WORD / 2
      modifies firewall, firewall.flows.repr, policer, policer.table.repr
      ensures Valid()
      ensures !tcpudp ==> out == Sent(p.device) && Current() == old(Current())
      ensures tcpudp && rate % HALFWORD == 0 ==> out == DividesByZero
      ensures tcpudp && rate % HALFWORD != 0 ==>
                && Good(Config(), old(Current())) && Legal(Config(), old(Current()), p, picks)
                && Current() == Step(Config(), old(Current()), p, picks)
                && out == Output(Config(), old(Current()), p)
    {
      firewall.flows.Good();
      if !tcpudp {
        return Sent(p.device), Picks(0, 0);
      }
      var byFirewall, pick := firewall.Process(ToFirewall(p));
      if rate % HALFWORD == 0 {
        return DividesByZero, Picks(pick, 0);
      }
      var byPolicer, pick' := policer.Process(ToPolicer(p));
      picks := Picks(pick, pick');
      if byPolicer == p.device || byFirewall == p.device {
        out := Sent(p.device);
      } else if byPolicer != byFirewall {
        out := AssertionFails;
      } else {
        out := Sent(byPolicer);
      }
    }
  }
}
