/** The policer: packets from outside pass only within the rate granted to their destination. */
module Policer {
  import opened Coherence
  import B = TokenBucket
  import T = FlowTable

  datatype Setup = Setup(lan: nat, wan: nat, capacity: nat, bucket: B.Config)

  datatype Packet = Packet(device: nat, time: int, ipv4: bool, dst: nat, size: nat)

  datatype State = State(view: map<nat, Entry>, vals: seq<B.Bucket>)

  ghost function Aged(f: Setup, s: State, time: int): (s': State)
    requires B.Sound(f.bucket)
  {
    s.(view := Expire(s.view, B.Threshold(f.bucket, time)))
  }

  predicate Policed(f: Setup, p: Packet) {
    p.ipv4 && p.device != f.lan && p.device == f.wan
  }

  /** The table and the buckets agree on the time of every destination's last packet. */
  ghost predicate Good(f: Setup, s: State) {
    && B.Sound(f.bucket) && GoodView(s.view, f.capacity) && |s.vals| == f.capacity
    && forall d :: d in s.view ==> s.vals[s.view[d].index].time == s.view[d].time
  }

  /** A new destination gets a bucket if the packet fits into one and the table has room. */
  ghost predicate Admits(f: Setup, s: State, dst: nat, size: nat) {
    dst !in s.view && size <= f.bucket.burst && |s.view| < f.capacity
  }

  /** Whether a packet is within the rate of its destination. */
  ghost predicate Fits(f: Setup, s: State, dst: nat, size: nat, time: int)
    requires Good(f, s) && UpTo(s.view, time)
  {
    if dst in s.view then B.Refill(f.bucket, s.vals[s.view[dst].index], time) > size else Admits(f, s, dst, size)
  }

  /** Charging a packet to the bucket of its destination. */
  ghost function Charge(f: Setup, s: State, dst: nat, size: nat, time: int, pick: nat): (s': State)
    requires Good(f, s) && UpTo(s.view, time) && (Admits(f, s, dst, size) ==> pick < f.capacity)
  {
    if dst in s.view then
      var i := s.view[dst].index;
      var level := B.Refill(f.bucket, s.vals[i], time);
      State(s.view[dst := Entry(i, time)],
            s.vals[i := B.Bucket(if level > size then level - size else level, time)])
    else if Admits(f, s, dst, size) then
      State(s.view[dst := Entry(pick, time)], s.vals[pick := B.Bucket(f.bucket.burst - size, time)])
    else s
  }

  /** Time does not run backwards, lengths are 16-bit, and the allocator picks a free index. */
  ghost predicate Legal(f: Setup, s: State, p: Packet, pick: nat) {
    && Good(f, s) && UpTo(s.view, p.time) && p.size <= B.MAX_SIZE
    && var aged := Aged(f, s, p.time);
       Policed(f, p) && Admits(f, aged, p.dst, p.size) ==> pick < f.capacity && !Used(aged.view, pick)
  }

  ghost function Step(f: Setup, s: State, p: Packet, pick: nat): (s': State)
    requires Legal(f, s, p, pick)
  {
    AgedIsGood(f, s, p.time);
    if !p.ipv4 then s
    else if !Policed(f, p) then Aged(f, s, p.time)
    else Charge(f, Aged(f, s, p.time), p.dst, p.size, p.time, pick)
  }

  /** The device a packet leaves on; its own device means that it is dropped. */
  ghost function Output(f: Setup, s: State, p: Packet): (device: nat)
    requires Good(f, s) && UpTo(s.view, p.time)
  {
    AgedIsGood(f, s, p.time);
    if !p.ipv4 then p.device
    else if p.device == f.lan then f.wan
    else if p.device == f.wan then
      if Fits(f, Aged(f, s, p.time), p.dst, p.size, p.time) then f.lan else f.wan
    else p.device
  }

  lemma {:induction false} AgedIsGood(f: Setup, s: State, time: int)
    requires Good(f, s)
    ensures Good(f, Aged(f, s, time))
    ensures UpTo(s.view, time) ==> UpTo(Aged(f, s, time).view, time)
  {
    ExpireIsGood(s.view, f.capacity, B.Threshold(f.bucket, time));
  }

  lemma {:induction false} ChargeIsGood(f: Setup, s: State, dst: nat, size: nat, time: int, pick: nat)
    requires Good(f, s) && UpTo(s.view, time)
    requires Admits(f, s, dst, size) ==> pick < f.capacity && !Used(s.view, pick)
    ensures Good(f, Charge(f, s, dst, size, time, pick)) && UpTo(Charge(f, s, dst, size, time, pick).view, time)
  {
    var s' := Charge(f, s, dst, size, time, pick);
    if dst in s.view {
      PutIsGood(f, s, dst, s.view[dst].index, s'.vals[s.view[dst].index], time);
    } else if Admits(f, s, dst, size) {
      PutIsGood(f, s, dst, pick, s'.vals[pick], time);
    }
  }

  lemma {:induction false} StepIsGood(f: Setup, s: State, p: Packet, pick: nat)
    requires Legal(f, s, p, pick)
    ensures Good(f, Step(f, s, p, pick)) && UpTo(Step(f, s, p, pick).view, p.time)
  {
    AgedIsGood(f, s, p.time);
    if Policed(f, p) {
      ChargeIsGood(f, Aged(f, s, p.time), p.dst, p.size, p.time, pick);
    }
  }

  lemma {:induction false} PutIsGood(f: Setup, s: State, d: nat, i: nat, b: B.Bucket, t: int)
    requires Good(f, s) && i < f.capacity && b.time == t && UpTo(s.view, t)
    requires if d in s.view then i == s.view[d].index else |s.view| < f.capacity && !Used(s.view, i)
    ensures Good(f, State(s.view[d := Entry(i, t)], s.vals[i := b])) && UpTo(s.view[d := Entry(i, t)], t)
  {
    if d in s.view {
      assert Peek(0, s.view);
      TouchIsGood(s.view, f.capacity, d, t);
    } else {
      OpenIsGood(s.view, f.capacity, d, i, t);
    }
  }

  // ----- One destination at a time

  ghost function CellOf(s: State, d: nat): (o: B.Cell)
    requires d in s.view ==> s.view[d].index < |s.vals|
  {
    if d in s.view then B.Present(s.vals[s.view[d].index]) else B.Absent
  }

  ghost function ArrivalOf(f: Setup, s: State, p: Packet, d: nat): (a: B.Arrival)
    requires B.Sound(f.bucket)
  {
    var w := Aged(f, s, p.time).view;
    B.Arrival(p.time,
              if !p.ipv4 then B.Skip
              else if Policed(f, p) && p.dst == d then B.Police(p.size, d in w || |w| < f.capacity)
              else B.Tick)
  }

  /** Seen from one destination, expiry is the expiry of one bucket. */
  lemma {:induction false} AgedProjects(f: Setup, s: State, time: int, d: nat)
    requires Good(f, s)
    ensures Good(f, Aged(f, s, time))
    ensures CellOf(Aged(f, s, time), d) == B.Aged(f.bucket, CellOf(s, d), time)
  {
    AgedIsGood(f, s, time);
  }

  /** Charging another destination leaves a bucket alone. */
  lemma {:induction false} ChargeOther(f: Setup, s: State, dst: nat, size: nat, time: int, pick: nat, d: nat)
    requires Good(f, s) && UpTo(s.view, time) && d != dst
    requires Admits(f, s, dst, size) ==> pick < f.capacity && !Used(s.view, pick)
    ensures var s' := Charge(f, s, dst, size, time, pick);
            (d in s'.view ==> s'.view[d].index < f.capacity) && CellOf(s', d) == CellOf(s, d)
  {
    ChargeIsGood(f, s, dst, size, time, pick);
    assert Peek(0, s.view);
  }

  /** Seen from one destination the table is a single bucket: other destinations only take up room. */
  lemma {:induction false} StepProjects(f: Setup, s: State, p: Packet, pick: nat, d: nat)
    requires Legal(f, s, p, pick)
    ensures B.UpTo(CellOf(s, d), p.time)
    ensures Good(f, Step(f, s, p, pick))
    ensures CellOf(Step(f, s, p, pick), d) == B.Step(f.bucket, CellOf(s, d), ArrivalOf(f, s, p, d))
  {
    StepIsGood(f, s, p, pick);
    AgedProjects(f, s, p.time, d);
    if Policed(f, p) && p.dst != d {
      AgedIsGood(f, s, p.time);
      ChargeOther(f, Aged(f, s, p.time), p.dst, p.size, p.time, pick, d);
    }
  }

  // ----- Runs

  ghost predicate IsStep(f: Setup, s: State, p: Packet, pick: nat, s': State) {
    Legal(f, s, p, pick) && s' == Step(f, s, p, pick)
  }

  /** A run from an empty table, with the states between its packets. */
  ghost predicate Run(f: Setup, packets: seq<Packet>, picks: seq<nat>, states: seq<State>) {
    && |picks| == |packets| && |states| == |packets| + 1
    && states[0].view == map[] && |states[0].vals| == f.capacity && B.Sound(f.bucket)
    && (forall i: nat {:trigger StepAt(f, packets, picks, states, i)} ::
          i < |packets| ==> StepAt(f, packets, picks, states, i))
    && (forall i, j :: 0 <= i <= j < |packets| ==> packets[i].time <= packets[j].time)
  }

  ghost predicate StepAt(f: Setup, packets: seq<Packet>, picks: seq<nat>, states: seq<State>, i: nat)
    requires i < |packets| == |picks| && |states| == |packets| + 1
  {
    IsStep(f, states[i], packets[i], picks[i], states[i + 1])
  }

  /** A packet from outside was forwarded, and not to another destination than `d`; one that is not IPv4 has none. */
  ghost predicate ForwardedTo(f: Setup, s: State, p: Packet, d: nat)
    requires Good(f, s) && UpTo(s.view, p.time)
  {
    p.device == f.wan && (p.ipv4 ==> p.dst == d) && Output(f, s, p) == f.lan && f.lan != f.wan
  }

  /** Bytes forwarded to `d` by packets `lo` to `hi - 1`. */
  ghost function BytesTo(f: Setup, packets: seq<Packet>, picks: seq<nat>, states: seq<State>,
                         d: nat, lo: nat, hi: nat): (n: nat)
    requires Run(f, packets, picks, states) && hi <= |packets|
  {
    if hi <= lo then 0
    else
      assert StepAt(f, packets, picks, states, hi - 1);
      BytesTo(f, packets, picks, states, d, lo, hi - 1)
      + if ForwardedTo(f, states[hi - 1], packets[hi - 1], d) then packets[hi - 1].size else 0
  }

  /** In every run, to every destination, in every window, at most the burst and what the rate adds; they need not
      be the policer's own. */
  ghost predicate KeepsRate(f: Setup, rate: nat, burst: nat)
    requires B.Sound(f.bucket)
  {
    forall packets: seq<Packet>, picks: seq<nat>, states: seq<State>, d: nat, lo: nat, hi: nat ::
      Run(f, packets, picks, states) && lo < hi <= |packets| ==>
        BytesTo(f, packets, picks, states, d, lo, hi)
        <= burst + rate * (packets[hi - 1].time - packets[lo].time) / B.SECOND
  }

  ghost function Project(f: Setup, packets: seq<Packet>, states: seq<State>, d: nat, n: nat): (run: seq<B.Arrival>)
    requires B.Sound(f.bucket) && n <= |packets| && n <= |states|
    ensures |run| == n && forall i :: 0 <= i < n ==> run[i] == ArrivalOf(f, states[i], packets[i], d)
  {
    seq(n, i requires 0 <= i < n => ArrivalOf(f, states[i], packets[i], d))
  }

  lemma {:induction false} ProjectTimely(f: Setup, packets: seq<Packet>, picks: seq<nat>, states: seq<State>,
                                         d: nat, n: nat)
    requires Run(f, packets, picks, states) && n <= |packets|
    ensures B.Timely(Project(f, packets, states, d, n))
  {
    var run := Project(f, packets, states, d, n);
    forall i | 0 <= i < n && run[i].kind.Police?
      ensures run[i].kind.size <= B.MAX_SIZE
    {
      assert StepAt(f, packets, picks, states, i);
    }
  }

  lemma {:induction false} StateIsGood(f: Setup, packets: seq<Packet>, picks: seq<nat>, states: seq<State>, n: nat)
    requires Run(f, packets, picks, states) && n <= |packets|
    ensures Good(f, states[n])
  {
    if n > 0 {
      assert StepAt(f, packets, picks, states, n - 1);
      StepIsGood(f, states[n - 1], packets[n - 1], picks[n - 1]);
    }
  }

  lemma {:induction false} ProjectSnoc(f: Setup, packets: seq<Packet>, states: seq<State>, d: nat, n: nat)
    requires B.Sound(f.bucket) && 0 < n <= |packets| && n <= |states|
    ensures Project(f, packets, states, d, n)
         == Project(f, packets, states, d, n - 1) + [ArrivalOf(f, states[n - 1], packets[n - 1], d)]
  {
  }

  /** What packet `n - 1` of a run does to destination `d`. */
  lemma {:induction false} PacketProjects(f: Setup, packets: seq<Packet>, picks: seq<nat>, states: seq<State>,
                                          d: nat, lo: nat, n: nat)
    requires Run(f, packets, picks, states) && 0 < n <= |packets|
    ensures Good(f, states[n - 1]) && Good(f, states[n])
    ensures var o, a := CellOf(states[n - 1], d), ArrivalOf(f, states[n - 1], packets[n - 1], d);
            && B.UpTo(o, a.time) && CellOf(states[n], d) == B.Step(f.bucket, o, a)
            && BytesTo(f, packets, picks, states, d, lo, n)
               == if n <= lo then 0 else BytesTo(f, packets, picks, states, d, lo, n - 1) + B.Sent(f.bucket, o, a)
  {
    assert StepAt(f, packets, picks, states, n - 1);
    StateIsGood(f, packets, picks, states, n);
    StepProjects(f, states[n - 1], packets[n - 1], picks[n - 1], d);
    SentProjects(f, states[n - 1], packets[n - 1], d);
  }

  /** A run of the policer, seen from one destination, is a run of one bucket. */
  lemma {:induction false} RunProjects(f: Setup, packets: seq<Packet>, picks: seq<nat>, states: seq<State>,
                                       d: nat, lo: nat, n: nat)
    requires Run(f, packets, picks, states) && n <= |packets|
    ensures Good(f, states[n]) && B.Timely(Project(f, packets, states, d, n))
    ensures CellOf(states[n], d) == B.After(f.bucket, Project(f, packets, states, d, n))
    ensures BytesTo(f, packets, picks, states, d, lo, n) == B.Bytes(f.bucket, Project(f, packets, states, d, n), lo)
  {
    ProjectTimely(f, packets, picks, states, d, n);
    if n > 0 {
      RunProjects(f, packets, picks, states, d, lo, n - 1);
      PacketProjects(f, packets, picks, states, d, lo, n);
      ProjectSnoc(f, packets, states, d, n);
      B.Extend(f.bucket, Project(f, packets, states, d, n - 1),
               ArrivalOf(f, states[n - 1], packets[n - 1], d), lo);
    }
  }

  lemma {:induction false} SentProjects(f: Setup, s: State, p: Packet, d: nat)
    requires Good(f, s) && UpTo(s.view, p.time)
    ensures B.UpTo(CellOf(s, d), p.time)
    ensures B.Sent(f.bucket, CellOf(s, d), ArrivalOf(f, s, p, d)) == if ForwardedTo(f, s, p, d) then p.size else 0
  {
    AgedProjects(f, s, p.time, d);
  }

  /** Where every packet of a run goes. From outside it goes inside exactly when it is IPv4 and within what the packets
      before it have left of the bucket of its destination; from inside it goes outside exactly when it is IPv4; and it
      stays on its device otherwise. */
  lemma {:induction false} PassesExactly(f: Setup, packets: seq<Packet>, picks: seq<nat>, states: seq<State>, n: nat)
    requires Run(f, packets, picks, states) && n < |packets| && f.lan != f.wan
    ensures Good(f, states[n]) && UpTo(states[n].view, packets[n].time)
    ensures B.Timely(Project(f, packets, states, packets[n].dst, n))
    ensures var p, out := packets[n], Output(f, states[n], packets[n]);
            var o, a := B.After(f.bucket, Project(f, packets, states, p.dst, n)), ArrivalOf(f, states[n], p, p.dst);
            && B.UpTo(o, a.time)
            && (p.device == f.wan && out != p.device <==> p.device == f.wan && p.ipv4 && B.Forwards(f.bucket, o, a))
            && (p.device == f.lan && out != p.device <==> p.device == f.lan && p.ipv4)
            && (out != p.device ==> (p.device == f.wan && out == f.lan) || (p.device == f.lan && out == f.wan))
  {
    assert StepAt(f, packets, picks, states, n);
    RunProjects(f, packets, picks, states, packets[n].dst, 0, n);
    AgedProjects(f, states[n], packets[n].time, packets[n].dst);
  }

  // ----- The other way: a run of one bucket as a run of the policer

  ghost function PacketOf(f: Setup, a: B.Arrival): (p: Packet)
    requires a.kind.Police?
  {
    Packet(f.wan, a.time, true, 0, a.kind.size)
  }

  /** Destination 0 alone in the table. */
  ghost predicate Alone(s: State) {
    forall d :: d in s.view ==> d == 0
  }

  lemma {:induction false} AloneStep(f: Setup, s: State, a: B.Arrival)
    requires Good(f, s) && Alone(s) && UpTo(s.view, a.time) && f.capacity > 0 && f.lan != f.wan
    requires a.kind.Police? && a.kind.room && a.kind.size <= B.MAX_SIZE
    ensures Legal(f, s, PacketOf(f, a), 0) && ArrivalOf(f, s, PacketOf(f, a), 0) == a
    ensures Alone(Step(f, s, PacketOf(f, a), 0))
  {
    var w := Aged(f, s, a.time).view;
    if 0 !in w {
      assert w == map[];
    }
  }

  /** Every plain run of one bucket happens in the policer. */
  lemma {:induction false} Realize(f: Setup, run: seq<B.Arrival>)
      returns (packets: seq<Packet>, picks: seq<nat>, states: seq<State>)
    requires B.Sound(f.bucket) && f.capacity > 0 && f.lan != f.wan && B.Plain(run) && B.Timely(run)
    ensures Run(f, packets, picks, states) && |packets| == |run|
    ensures Project(f, packets, states, 0, |run|) == run
    ensures Alone(states[|run|]) && forall i :: 0 <= i < |run| ==> packets[i].time == run[i].time
  {
    if run == [] {
      packets, picks := [], [];
      states := [State(map[], seq(f.capacity, _ => B.Bucket(0, 0)))];
    } else {
      var n := |run| - 1;
      packets, picks, states := Realize(f, run[..n]);
      var s, a := states[n], run[n];
      StateIsGood(f, packets, picks, states, n);
      StateUpTo(f, packets, picks, states, n, a.time);
      AloneStep(f, s, a);
      ExtendRun(f, packets, picks, states, PacketOf(f, a), 0);
      ProjectExtend(f, packets, states, PacketOf(f, a), Step(f, s, PacketOf(f, a), 0));
      packets, picks, states :=
        packets + [PacketOf(f, a)], picks + [0], states + [Step(f, s, PacketOf(f, a), 0)];
      assert run == run[..n] + [a];
    }
  }

  lemma {:induction false} ProjectExtend(f: Setup, packets: seq<Packet>, states: seq<State>, p: Packet, s: State)
    requires B.Sound(f.bucket) && |states| == |packets| + 1
    ensures Project(f, packets + [p], states + [s], 0, |packets| + 1)
         == Project(f, packets, states, 0, |packets|) + [ArrivalOf(f, states[|packets|], p, 0)]
  {
  }

  lemma {:induction false} StateUpTo(f: Setup, packets: seq<Packet>, picks: seq<nat>, states: seq<State>, n: nat,
                                     t: int)
    requires Run(f, packets, picks, states) && n <= |packets| && (n > 0 ==> packets[n - 1].time <= t)
    ensures UpTo(states[n].view, t)
  {
    if n > 0 {
      assert StepAt(f, packets, picks, states, n - 1);
      StepIsGood(f, states[n - 1], packets[n - 1], picks[n - 1]);
    }
  }

  lemma {:induction false} ExtendRun(f: Setup, packets: seq<Packet>, picks: seq<nat>, states: seq<State>,
                                     p: Packet, pick: nat)
    requires Run(f, packets, picks, states) && Legal(f, states[|packets|], p, pick)
    requires packets != [] ==> packets[|packets| - 1].time <= p.time
    ensures Run(f, packets + [p], picks + [pick], states + [Step(f, states[|packets|], p, pick)])
  {
    ExtendSteps(f, packets, picks, states, p, pick, Step(f, states[|packets|], p, pick));
    var ps := packets + [p];
    forall i, j | 0 <= i <= j < |ps|
      ensures ps[i].time <= ps[j].time
    {
      if i < |packets| { assert packets[i].time <= packets[|packets| - 1].time; }
    }
  }

  lemma {:induction false} ExtendSteps(f: Setup, packets: seq<Packet>, picks: seq<nat>, states: seq<State>,
                                       p: Packet, pick: nat,
                    s: State)
    requires |picks| == |packets| && |states| == |packets| + 1
    requires forall i: nat {:trigger StepAt(f, packets, picks, states, i)} ::
               i < |packets| ==> StepAt(f, packets, picks, states, i)
    requires IsStep(f, states[|packets|], p, pick, s)
    ensures forall i: nat {:trigger StepAt(f, packets + [p], picks + [pick], states + [s], i)} ::
              i < |packets + [p]| ==> StepAt(f, packets + [p], picks + [pick], states + [s], i)
  {
    forall i: nat | i < |packets + [p]|
      ensures StepAt(f, packets + [p], picks + [pick], states + [s], i)
    {
      if i < |packets| { assert StepAt(f, packets, picks, states, i); }
    }
  }

  /** Exactly when the policer keeps to a rate and a burst at least its own: in every run, across expiry,
      re-creation and drops for want of room, for every destination and window. */
  lemma {:induction false} KeepsRateExactly(f: Setup, rate: nat, burst: nat)
    requires B.Sound(f.bucket) && f.capacity > 0 && f.lan != f.wan && f.bucket.rate <= rate && f.bucket.burst <= burst
    ensures KeepsRate(f, rate, burst) <==> B.Honest(f.bucket, rate)
  {
    if B.Honest(f.bucket, rate) {
      HonestKeepsRate(f, rate, burst);
    } else {
      DishonestBreaksRate(f, rate, burst);
    }
  }

  /** A policer whose rate divides its burst keeps to them if and only if its products fit in 64 bits. */
  lemma {:induction false} DividingKeepsRateExactly(f: Setup)
    requires B.Sound(f.bucket) && f.capacity > 0 && f.lan != f.wan
    requires f.bucket == B.BySeconds(f.bucket.rate, f.bucket.burst)
    requires f.bucket.burst > 0 && f.bucket.burst % f.bucket.rate == 0
    ensures KeepsRate(f, f.bucket.rate, f.bucket.burst) <==> B.Fits(f.bucket)
  {
    KeepsRateExactly(f, f.bucket.rate, f.bucket.burst);
    B.DividingRateExactly(f.bucket);
  }

  lemma {:induction false} DishonestBreaksRate(f: Setup, rate: nat, burst: nat)
    requires B.Sound(f.bucket) && f.capacity > 0 && f.lan != f.wan
    requires f.bucket.burst <= burst && !B.Honest(f.bucket, rate)
    ensures !KeepsRate(f, rate, burst)
  {
    var run := B.DishonestExcess(f.bucket, rate, burst);
    var packets, picks, states := RealizeBytes(f, run);
    ExceedsRate(f, rate, burst, packets, picks, states, run, run[0].time, run[|run| - 1].time);
  }

  lemma {:induction false} RealizeBytes(f: Setup, run: seq<B.Arrival>)
      returns (packets: seq<Packet>, picks: seq<nat>, states: seq<State>)
    requires B.Sound(f.bucket) && f.capacity > 0 && f.lan != f.wan && B.Plain(run) && B.Timely(run)
    ensures Run(f, packets, picks, states) && |packets| == |run|
    ensures forall i :: 0 <= i < |run| ==> packets[i].time == run[i].time
    ensures BytesTo(f, packets, picks, states, 0, 0, |packets|) == B.Bytes(f.bucket, run, 0)
  {
    packets, picks, states := Realize(f, run);
    RunProjects(f, packets, picks, states, 0, 0, |run|);
  }

  lemma {:induction false} ExceedsRate(f: Setup, rate: nat, burst: nat, packets: seq<Packet>, picks: seq<nat>,
                                       states: seq<State>, run: seq<B.Arrival>, t0: int, t1: int)
    requires Run(f, packets, picks, states) && 0 < |run| == |packets| && B.Timely(run)
    requires packets[0].time == t0 && packets[|packets| - 1].time == t1
    requires BytesTo(f, packets, picks, states, 0, 0, |packets|) == B.Bytes(f.bucket, run, 0)
    requires B.Bytes(f.bucket, run, 0) > burst + rate * (t1 - t0) / B.SECOND
    ensures !KeepsRate(f, rate, burst)
  {
    var lo: nat, hi: nat := 0, |packets|;
    assert packets[hi - 1].time - packets[lo].time == t1 - t0;
  }

  lemma {:induction false} Window(f: Setup, rate: nat, burst: nat, packets: seq<Packet>, picks: seq<nat>,
                                  states: seq<State>, d: nat, lo: nat, hi: nat)
    requires B.Sound(f.bucket) && f.bucket.rate <= rate && f.bucket.burst <= burst && B.Honest(f.bucket, rate)
    requires Run(f, packets, picks, states) && lo < hi <= |packets|
    ensures BytesTo(f, packets, picks, states, d, lo, hi)
            <= burst + rate * (packets[hi - 1].time - packets[lo].time) / B.SECOND
  {
    var run := ProjectedRun(f, packets, picks, states, d, lo, hi);
    WindowOf(f.bucket, rate, burst, run, lo, hi, packets[lo].time, packets[hi - 1].time,
             BytesTo(f, packets, picks, states, d, lo, hi));
  }

  lemma {:induction false} ProjectedRun(f: Setup, packets: seq<Packet>, picks: seq<nat>, states: seq<State>,
                                        d: nat, lo: nat, hi: nat)
      returns (run: seq<B.Arrival>)
    requires Run(f, packets, picks, states) && lo < hi <= |packets|
    ensures B.Timely(run) && |run| == hi
            && BytesTo(f, packets, picks, states, d, lo, hi) == B.Bytes(f.bucket, run, lo)
    ensures run[lo].time == packets[lo].time && run[hi - 1].time == packets[hi - 1].time
  {
    RunProjects(f, packets, picks, states, d, lo, hi);
    run := Project(f, packets, states, d, hi);
  }

  lemma {:induction false} WindowOf(c: B.Config, rate: nat, burst: nat, run: seq<B.Arrival>, lo: nat, hi: nat,
                                    t0: int, t1: int, bytes: nat)
    requires B.Sound(c) && c.rate <= rate && c.burst <= burst && B.Honest(c, rate)
    requires B.Timely(run) && lo < hi == |run| && bytes == B.Bytes(c, run, lo)
    requires t0 == run[lo].time && t1 == run[hi - 1].time
    ensures bytes <= burst + rate * (t1 - t0) / B.SECOND
  {
    B.Window(c, rate, burst, run, lo, t0, t1);
  }

  lemma {:induction false} HonestKeepsRate(f: Setup, rate: nat, burst: nat)
    requires B.Sound(f.bucket) && f.bucket.rate <= rate && f.bucket.burst <= burst && B.Honest(f.bucket, rate)
    ensures KeepsRate(f, rate, burst)
  {
    forall packets: seq<Packet>, picks: seq<nat>, states: seq<State>, d: nat, lo: nat, hi: nat
      | Run(f, packets, picks, states) && lo < hi <= |packets|
      ensures BytesTo(f, packets, picks, states, d, lo, hi)
              <= burst + rate * (packets[hi - 1].time - packets[lo].time) / B.SECOND
    {
      Window(f, rate, burst, packets, picks, states, d, lo, hi);
    }
  }

  // ----- The program

  class Policer {
    const setup: Setup
    const table: T.FlowTable<nat>
    var vals: seq<B.Bucket>

    ghost predicate Valid()
      reads this, table, table.repr
    {
      && table.Valid() && this !in table.repr && setup.capacity == table.capacity && Good(setup, Current())
      && B.KeptBySeconds(setup.bucket)
    }

    ghost function Current(): (s: State)
      reads this, table
    {
      State(table.view, vals)
    }

    constructor (lan: nat, wan: nat, rate: nat, burst: nat, capacity: nat, hash: nat -> nat)
      requires 0 < rate < B.WORD && burst < B.WORD && capacity > 0
      ensures Valid() && fresh(table.repr) && setup == Setup(lan, wan, capacity, B.BySeconds(rate, burst))
      ensures Current().view == map[]
    {
      setup := Setup(lan, wan, capacity, B.BySeconds(rate, burst));
      table := new T.FlowTable<nat>(capacity, 0, hash);
      vals := seq(capacity, _ => B.Bucket(0, 0));
    }

    method ExpireEntries(time: int)
      requires Valid() && 0 <= time < B.WORD / 2
      modifies this, table.repr
      ensures Valid() && vals == old(vals) && Current() == Aged(setup, old(Current()), time)
    {
      AgedIsGood(setup, Current(), time);
      var minTime := B.SecondsBefore(setup.bucket, time);
      var _ := table.ExpireAll(minTime);
    }

    /** Charges a packet to the bucket of its destination, on a table that has been expired. */
    method CheckTb(dst: nat, size: nat, time: int) returns (fwd: bool, ghost pick: nat)
      requires Valid() && UpTo(table.view, time)
      modifies this, table.repr
      ensures Valid()
      ensures fwd == Fits(setup, old(Current()), dst, size, time)
      ensures Admits(setup, old(Current()), dst, size) ==> pick < setup.capacity && !Used(old(table.view), pick)
      ensures Current() == Charge(setup, old(Current()), dst, size, time, pick)
    {
      var present, index := table.Get(dst);
      if present {
        fwd := ChargePresent(dst, index, size, time);
        pick := 0;
      } else {
        fwd, pick := ChargeNew(dst, size, time);
      }
    }

    method ChargePresent(ghost dst: nat, index: nat, size: nat, time: int) returns (fwd: bool)
      requires Valid() && UpTo(table.view, time) && dst in table.view && index == table.view[dst].index
      modifies this, table.repr
      ensures Valid()
      ensures fwd == Fits(setup, old(Current()), dst, size, time)
      ensures Current() == Charge(setup, old(Current()), dst, size, time, 0)
    {
      ghost var s := Current();
      table.Rejuvenate(index, time, dst);
      var level := B.TokensAt(setup.bucket, vals[index], time);
      fwd := level > size;
      var value := B.Bucket(if fwd then level - size else level, time);
      PutIsGood(setup, s, dst, index, value, time);
      vals := vals[index := value];
    }

    method ChargeNew(dst: nat, size: nat, time: int) returns (fwd: bool, ghost pick: nat)
      requires Valid() && UpTo(table.view, time) && dst !in table.view
      modifies this, table.repr
      ensures Valid()
      ensures fwd == Admits(setup, old(Current()), dst, size)
      ensures fwd ==> pick < setup.capacity && !Used(old(table.view), pick)
      ensures Current() == Charge(setup, old(Current()), dst, size, time, pick)
    {
      ghost var s := Current();
      pick := 0;
      if size > setup.bucket.burst {
        return false, 0;
      }
      var ok, index := table.Insert(dst, time);
      if !ok {
        return false, 0;
      }
      var value := B.Bucket(setup.bucket.burst - size, time);
      PutIsGood(setup, s, dst, index, value, time);
      vals := vals[index := value];
      fwd, pick := true, index;
    }

    method Process(p: Packet) returns (out: nat, ghost pick: nat)
      requires Valid() && UpTo(table.view, p.time) && p.size <= B.MAX_SIZE && 0 <= p.time < B.WORD / 2
      modifies this, table.repr
      ensures Valid() && Legal(setup, old(Current()), p, pick)
      ensures Current() == Step(setup, old(Current()), p, pick)
      ensures out == Output(setup, old(Current()), p)
    {
      pick := 0;
      if !p.ipv4 {
        return p.device, 0;
      }
      AgedIsGood(setup, Current(), p.time);
      ExpireEntries(p.time);
      if p.device == setup.lan {
        out := setup.wan;
      } else if p.device == setup.wan {
        var fwd;
        fwd, pick := CheckTb(p.dst, p.size, p.time);
        out := if fwd then setup.lan else setup.wan;
      } else {
        out := p.device;
      }
    }
  }
}
