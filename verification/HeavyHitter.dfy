/** The hierarchical heavy hitter: one expiring table of token buckets for every configured prefix length. */
module HeavyHitter {
  import opened Options
  import opened Coherence
  import opened Prefixes
  import B = TokenBucket
  import T = FlowTable

  datatype Level = Level(view: map<Word, Entry>, vals: seq<B.Bucket>)

  datatype Setup = Setup(nets: seq<Word>, capacity: nat, bucket: B.Config)

  ghost predicate GoodLevel(f: Setup, l: Level) {
    && GoodView(l.view, f.capacity) && |l.vals| == f.capacity
    && forall k :: k in l.view ==> l.vals[l.view[k].index].time == l.view[k].time
  }

  ghost predicate Good(f: Setup, s: seq<Level>) {
    && B.Sound(f.bucket) && |s| == |f.nets| && Nested(f.nets)
    && forall i :: 0 <= i < |s| ==> GoodLevel(f, s[i])
  }

  ghost predicate NotAhead(s: seq<Level>, time: int) {
    forall i :: 0 <= i < |s| ==> UpTo(s[i].view, time)
  }

  // ----- The hierarchy

  /** The ancestor at level `i` of prefix `q` at level `j` is tracked, and was seen at least as recently. */
  ghost predicate Covered(f: Setup, s: seq<Level>, i: nat, j: nat, q: Word)
    requires i < |s| == |f.nets| && j < |s| && q in s[j].view
  {
    var a := And(q, f.nets[i]);
    a in s[i].view && s[i].view[a].time >= s[j].view[q].time
  }

  /** Every tracked prefix has all its shorter prefixes tracked. */
  ghost predicate Closed(f: Setup, s: seq<Level>)
    requires |s| == |f.nets|
  {
    forall i: nat, j: nat, q {:trigger Covered(f, s, i, j, q)} ::
      i < j < |s| && q in s[j].view ==> Covered(f, s, i, j, q)
  }

  // ----- One level

  ghost predicate Full(f: Setup, l: Level, k: Word) {
    k !in l.view && |l.view| >= f.capacity
  }

  /** A bucket is started only for a packet that is no longer than the burst. */
  ghost predicate Payable(f: Setup, l: Level, k: Word, size: nat) {
    k in l.view || Full(f, l, k) || size <= f.bucket.burst
  }

  /** The bucket of a prefix after a packet is charged to it. */
  ghost function Paid(f: Setup, l: Level, k: Word, size: nat, time: int): (b: B.Bucket)
    requires GoodLevel(f, l) && UpTo(l.view, time) && B.Sound(f.bucket) && (k !in l.view ==> size <= f.bucket.burst)
  {
    if k in l.view then
      var level := B.Refill(f.bucket, l.vals[l.view[k].index], time);
      B.Bucket(if level > size then level - size else level, time)
    else B.Bucket(f.bucket.burst - size, time)
  }

  ghost function Charge(f: Setup, l: Level, k: Word, size: nat, time: int, pick: nat): (l': Level)
    requires GoodLevel(f, l) && UpTo(l.view, time) && B.Sound(f.bucket)
    requires k !in l.view ==> pick < f.capacity && size <= f.bucket.burst
  {
    var b := Paid(f, l, k, size, time);
    if k in l.view then Level(Touch(l.view, k, time), l.vals[l.view[k].index := b])
    else Level(l.view[k := Entry(pick, time)], l.vals[pick := b])
  }

  /** The bucket of a prefix cannot pay for a packet. */
  ghost predicate Exhausted(f: Setup, l: Level, k: Word, size: nat, time: int)
    requires GoodLevel(f, l) && UpTo(l.view, time) && B.Sound(f.bucket)
  {
    k in l.view && B.Refill(f.bucket, l.vals[l.view[k].index], time) <= size
  }

  /** A level before and after a packet is charged to prefix `k`. */
  ghost predicate Charged(f: Setup, l: Level, l': Level, k: Word, size: nat, time: int) {
    && GoodLevel(f, l) && UpTo(l.view, time) && B.Sound(f.bucket) && !Full(f, l, k) && Payable(f, l, k, size)
    && exists pick: nat ::
         pick < f.capacity && (k in l.view || !Used(l.view, pick)) && l' == Charge(f, l, k, size, time, pick)
  }

  lemma {:induction false} ChargeIsGood(f: Setup, l: Level, l': Level, k: Word, size: nat, time: int)
    requires Charged(f, l, l', k, size, time)
    ensures GoodLevel(f, l') && UpTo(l'.view, time)
  {
    var pick: nat :| pick < f.capacity && (k in l.view || !Used(l.view, pick))
      && l' == Charge(f, l, k, size, time, pick);
    if k in l.view {
      assert Peek(0, l.view);
      TouchIsGood(l.view, f.capacity, k, time);
    } else {
      OpenIsGood(l.view, f.capacity, k, pick, time);
    }
  }

  /** Charging a prefix dates it to now and leaves the others alone. */
  lemma {:induction false} ChargedView(f: Setup, l: Level, l': Level, k: Word, size: nat, time: int, q: Word)
    requires Charged(f, l, l', k, size, time)
    ensures q in l'.view <==> q == k || q in l.view
    ensures q in l'.view ==> l'.view[q].time == if q == k then time else l.view[q].time
  {
  }

  ghost function AgedLevel(f: Setup, l: Level, time: int): (l': Level)
    requires B.Sound(f.bucket)
  {
    l.(view := Expire(l.view, B.Threshold(f.bucket, time)))
  }

  // ----- All levels

  ghost function AgedLevels(f: Setup, s: seq<Level>, time: int): (s': seq<Level>)
    requires B.Sound(f.bucket)
    ensures AllAged(f, s, s', time)
  {
    seq(|s|, i requires 0 <= i < |s| => AgedLevel(f, s[i], time))
  }

  ghost predicate AllAged(f: Setup, s: seq<Level>, s': seq<Level>, time: int)
    requires B.Sound(f.bucket)
  {
    |s'| == |s| && forall i :: 0 <= i < |s| ==> s'[i] == AgedLevel(f, s[i], time)
  }

  /** A packet from `src` is charged at levels 0 to `m - 1`. */
  ghost predicate Updated(f: Setup, s: seq<Level>, s': seq<Level>, src: Word, size: nat, time: int, m: nat) {
    && |s| == |s'| == |f.nets| && m <= |s|
    && (forall i: nat {:trigger ChargedAt(f, s, s', src, size, time, i)} ::
          i < m ==> ChargedAt(f, s, s', src, size, time, i))
    && (forall i :: m <= i < |s| ==> s'[i] == s[i])
  }

  ghost predicate ChargedAt(f: Setup, s: seq<Level>, s': seq<Level>, src: Word, size: nat, time: int, i: nat)
    requires i < |s| == |s'| == |f.nets|
  {
    Charged(f, s[i], s'[i], And(src, f.nets[i]), size, time)
  }

  /** The level that stops a packet is full, and does not have its prefix; without one, all levels are charged. */
  ghost predicate Stops(f: Setup, s: seq<Level>, src: Word, m: nat)
    requires |s| == |f.nets|
  {
    m == |s| || (m < |s| && Full(f, s[m], And(src, f.nets[m])))
  }

  /** From level `i` on, until a full level stops the packet, no bucket is started for one longer than the burst. */
  ghost predicate Admissible(f: Setup, s: seq<Level>, src: Word, size: nat, i: nat)
    requires |s| == |f.nets|
    decreases |s| - i
  {
    i < |s| ==>
      var k := And(src, f.nets[i]);
      Payable(f, s[i], k, size) && (Full(f, s[i], k) || Admissible(f, s, src, size, i + 1))
  }

  lemma {:induction false} ShortIsAdmissible(f: Setup, s: seq<Level>, src: Word, size: nat, i: nat)
    requires |s| == |f.nets| && size <= f.bucket.burst
    ensures Admissible(f, s, src, size, i)
    decreases |s| - i
  {
    if i < |s| {
      ShortIsAdmissible(f, s, src, size, i + 1);
    }
  }

  lemma {:induction false} AgedIsGood(f: Setup, s: seq<Level>, s': seq<Level>, time: int)
    requires Good(f, s) && AllAged(f, s, s', time)
    ensures Good(f, s')
  {
    forall i | 0 <= i < |s'|
      ensures GoodLevel(f, s'[i])
    {
      AgedLevelIsGood(f, s[i], time);
    }
  }

  lemma {:induction false} AgedLevelIsGood(f: Setup, l: Level, time: int)
    requires GoodLevel(f, l) && B.Sound(f.bucket)
    ensures GoodLevel(f, AgedLevel(f, l, time))
  {
    ExpireIsGood(l.view, f.capacity, B.Threshold(f.bucket, time));
  }

  /** Expiry at every level keeps the hierarchy: an ancestor never goes before its descendants. */
  lemma {:induction false} AgedIsClosed(f: Setup, s: seq<Level>, s': seq<Level>, time: int)
    requires Good(f, s) && Closed(f, s) && AllAged(f, s, s', time)
    ensures |s'| == |f.nets| && Closed(f, s')
  {
    forall i: nat, j: nat, q | i < j < |s'| && q in s'[j].view
      ensures Covered(f, s', i, j, q)
    {
      assert s'[i] == AgedLevel(f, s[i], time) && s'[j] == AgedLevel(f, s[j], time);
      assert Covered(f, s, i, j, q);
    }
  }

  /** A packet keeps the hierarchy, however many levels it gets through. */
  lemma {:induction false} UpdateIsClosed(f: Setup, s: seq<Level>, s': seq<Level>, src: Word, size: nat, time: int,
                                          m: nat)
    requires Good(f, s) && Closed(f, s) && NotAhead(s, time) && Updated(f, s, s', src, size, time, m)
    ensures Closed(f, s')
  {
    forall i: nat, j: nat, q | i < j < |s'| && q in s'[j].view
      ensures Covered(f, s', i, j, q)
    {
      if j < m && q == And(src, f.nets[j]) {
        NewIsCovered(f, s, s', src, size, time, m, i, j);
      } else {
        OldIsCovered(f, s, s', src, size, time, m, i, j, q);
      }
    }
  }

  lemma {:induction false} NewIsCovered(f: Setup, s: seq<Level>, s': seq<Level>, src: Word, size: nat, time: int,
                                        m: nat,
                                        i: nat, j: nat)
    requires Nested(f.nets) && Updated(f, s, s', src, size, time, m) && i < j < m
    ensures And(src, f.nets[j]) in s'[j].view && Covered(f, s', i, j, And(src, f.nets[j]))
  {
    assert ChargedAt(f, s, s', src, size, time, i) && ChargedAt(f, s, s', src, size, time, j);
    PrefixOfPrefix(src, f.nets[i], f.nets[j]);
    ChargedView(f, s[i], s'[i], And(src, f.nets[i]), size, time, And(src, f.nets[i]));
    ChargedView(f, s[j], s'[j], And(src, f.nets[j]), size, time, And(src, f.nets[j]));
  }

  lemma {:induction false} OldIsCovered(f: Setup, s: seq<Level>, s': seq<Level>, src: Word, size: nat, time: int,
                                        m: nat,
                                        i: nat, j: nat, q: Word)
    requires |s| == |f.nets| && Closed(f, s) && NotAhead(s, time) && Updated(f, s, s', src, size, time, m)
    requires i < j < |s'| && q in s'[j].view && !(j < m && q == And(src, f.nets[j]))
    ensures Covered(f, s', i, j, q)
  {
    var a := And(q, f.nets[i]);
    if j < m {
      assert ChargedAt(f, s, s', src, size, time, j);
      ChargedView(f, s[j], s'[j], And(src, f.nets[j]), size, time, q);
    }
    assert Covered(f, s, i, j, q);
    assert s[j].view[q].time <= time;
    if i < m {
      assert ChargedAt(f, s, s', src, size, time, i);
      ChargedView(f, s[i], s'[i], And(src, f.nets[i]), size, time, a);
    }
  }

  /** Stopping at a full level loses no bucket: no deeper level has a prefix of the source. */
  lemma {:induction false} StoppingSkipsNothing(f: Setup, s: seq<Level>, src: Word, m: nat, j: nat)
    requires Good(f, s) && Closed(f, s) && m < j < |s| && Stops(f, s, src, m)
    ensures And(src, f.nets[j]) !in s[j].view
  {
    if And(src, f.nets[j]) in s[j].view {
      assert Covered(f, s, m, j, And(src, f.nets[j]));
      PrefixOfPrefix(src, f.nets[m], f.nets[j]);
    }
  }

  lemma {:induction false} UpdateIsGood(f: Setup, s: seq<Level>, s': seq<Level>, src: Word, size: nat, time: int,
                                        m: nat)
    requires Good(f, s) && NotAhead(s, time) && Updated(f, s, s', src, size, time, m)
    ensures Good(f, s') && NotAhead(s', time)
  {
    forall i: nat | i < |s'|
      ensures GoodLevel(f, s'[i]) && UpTo(s'[i].view, time)
    {
      if i < m {
        assert ChargedAt(f, s, s', src, size, time, i);
        ChargeIsGood(f, s[i], s'[i], And(src, f.nets[i]), size, time);
      }
    }
  }

  lemma {:induction false} UpdatedOn(f: Setup, s: seq<Level>, s1: seq<Level>, l: Level, src: Word, size: nat,
                                     time: int, m: nat)
    requires Updated(f, s, s1, src, size, time, m) && m < |s|
    requires Charged(f, s[m], l, And(src, f.nets[m]), size, time)
    ensures Updated(f, s, s1[m := l], src, size, time, m + 1)
  {
    var s2 := s1[m := l];
    forall i: nat | i < m + 1
      ensures ChargedAt(f, s, s2, src, size, time, i)
    {
      if i < m {
        assert ChargedAt(f, s, s1, src, size, time, i);
      }
    }
  }

  // ----- Heavy hitters

  datatype Hitter = Hitter(prefix: Word, length: nat)

  ghost predicate ExhaustedAt(f: Setup, s: seq<Level>, src: Word, size: nat, time: int, i: nat)
    requires Good(f, s) && NotAhead(s, time) && i < |s|
  {
    Exhausted(f, s[i], And(src, f.nets[i]), size, time)
  }

  ghost function Exhaustions(f: Setup, s: seq<Level>, src: Word, size: nat, time: int): (bad: seq<bool>)
    requires Good(f, s) && NotAhead(s, time)
    ensures |bad| == |s| && forall i :: 0 <= i < |s| ==> bad[i] == ExhaustedAt(f, s, src, size, time, i)
  {
    seq(|s|, i requires 0 <= i < |s| => ExhaustedAt(f, s, src, size, time, i))
  }

  /** The hitter is the longest prefix of the source, among the first `m`, whose level is bad. */
  ghost predicate LastBad(nets: seq<Word>, bad: seq<bool>, src: Word, m: nat, hit: Option<Hitter>)
    requires m <= |bad| == |nets|
  {
    match hit
    case None => forall i :: 0 <= i < m ==> !bad[i]
    case Some(h) =>
      exists i :: 0 <= i < m && bad[i] && h.prefix == And(src, nets[i]) && NetOf(h.length) == nets[i]
                  && forall j :: i < j < m ==> !bad[j]
  }

  /** The hitter is the longest prefix of the source, among the first `m`, whose bucket cannot pay. */
  ghost predicate IsHitter(f: Setup, s: seq<Level>, src: Word, size: nat, time: int, m: nat, hit: Option<Hitter>)
    requires Good(f, s) && NotAhead(s, time) && m <= |s|
  {
    LastBad(f.nets, Exhaustions(f, s, src, size, time), src, m, hit)
  }

  lemma {:induction false} LastBadOn(nets: seq<Word>, bad: seq<bool>, src: Word, m: nat, hit: Option<Hitter>,
                                     length: nat)
    requires m < |bad| == |nets| && LastBad(nets, bad, src, m, hit) && NetOf(length) == nets[m]
    ensures LastBad(nets, bad, src, m + 1, if bad[m] then Some(Hitter(And(src, nets[m]), length)) else hit)
  {
    if hit.Some? && !bad[m] {
      var h := hit.value;
      var i :| 0 <= i < m && bad[i] && h.prefix == And(src, nets[i]) && NetOf(h.length) == nets[i]
               && forall j :: i < j < m ==> !bad[j];
      assert forall j :: i < j < m + 1 ==> !bad[j];
    }
  }

  /** How far a packet has got: `m` levels charged, and the hitter among them. */
  ghost predicate Progress(f: Setup, s: seq<Level>, s1: seq<Level>, src: Word, size: nat, time: int, m: nat,
                           hit: Option<Hitter>) {
    && |s1| == |s| && m <= |s|
    && forall u {:trigger Unfold(u, s1)} :: Unfold(u, s1) ==> ProgressOpen(f, s, s1, src, size, time, m, hit)
  }

  // Always true. It keeps the details of the progress out of sight of the verifier until it is mentioned.
  ghost predicate Unfold(u: int, s: seq<Level>) { true }

  ghost predicate ProgressOpen(f: Setup, s: seq<Level>, s1: seq<Level>, src: Word, size: nat, time: int, m: nat,
                               hit: Option<Hitter>) {
    && Good(f, s) && Closed(f, s) && NotAhead(s, time)
    && Updated(f, s, s1, src, size, time, m) && IsHitter(f, s, src, size, time, m, hit)
    && Admissible(f, s, src, size, m)
  }

  lemma {:induction false} ProgressBegins(f: Setup, s: seq<Level>, src: Word, size: nat, time: int)
    requires Good(f, s) && Closed(f, s) && NotAhead(s, time) && Admissible(f, s, src, size, 0)
    ensures Progress(f, s, s, src, size, time, 0, None)
  {
  }

  lemma {:induction false} NextLevel(f: Setup, s: seq<Level>, s1: seq<Level>, src: Word, size: nat, time: int, m: nat,
                                     hit: Option<Hitter>)
    requires Progress(f, s, s1, src, size, time, m, hit) && m < |s|
    ensures s1[m] == s[m] && GoodLevel(f, s[m]) && UpTo(s[m].view, time) && |s| == |f.nets| && B.Sound(f.bucket)
    ensures Payable(f, s[m], And(src, f.nets[m]), size)
  {
    assert Unfold(0, s1);
  }

  lemma {:induction false} ProgressGoesOn(f: Setup, s: seq<Level>, s1: seq<Level>, l: Level, src: Word, size: nat,
                                          time: int,
                                          m: nat, hit: Option<Hitter>, exhausted: bool, length: nat)
    requires Progress(f, s, s1, src, size, time, m, hit) && m < |s| == |f.nets| && NetOf(length) == f.nets[m]
    requires Charged(f, s[m], l, And(src, f.nets[m]), size, time)
    requires exhausted <==> Exhausted(f, s[m], And(src, f.nets[m]), size, time)
    ensures Progress(f, s, s1[m := l], src, size, time, m + 1,
                     if exhausted then Some(Hitter(And(src, f.nets[m]), length)) else hit)
  {
    assert Unfold(0, s1);
    UpdatedOn(f, s, s1, l, src, size, time, m);
    LastBadOn(f.nets, Exhaustions(f, s, src, size, time), src, m, hit, length);
  }

  lemma {:induction false} ProgressEnds(f: Setup, s: seq<Level>, s1: seq<Level>, src: Word, size: nat, time: int,
                                        m: nat,
                                        hit: Option<Hitter>)
    requires Progress(f, s, s1, src, size, time, m, hit) && Good(f, s) && NotAhead(s, time)
    ensures Good(f, s1) && Closed(f, s1) && NotAhead(s1, time)
    ensures Updated(f, s, s1, src, size, time, m) && IsHitter(f, s, src, size, time, m, hit)
  {
    assert Unfold(0, s1);
    UpdateIsGood(f, s, s1, src, size, time, m);
    UpdateIsClosed(f, s, s1, src, size, time, m);
  }

  // ----- Runs

  /** An IPv4 packet; only packets from outside are charged, the others make old entries expire. */
  datatype Packet = Packet(time: int, outside: bool, src: Word, size: nat)

  /** One packet: expiry, then for a packet from outside the levels in order until one is full. */
  ghost predicate Next(f: Setup, s: seq<Level>, p: Packet, s': seq<Level>) {
    && Good(f, s) && NotAhead(s, p.time)
    && var aged := AgedLevels(f, s, p.time);
       if p.outside then Admissible(f, aged, p.src, p.size, 0)
                         && exists m: nat :: Updated(f, aged, s', p.src, p.size, p.time, m) && Stops(f, aged, p.src, m)
       else s' == aged
  }

  ghost predicate Empty(f: Setup, s: seq<Level>) {
    Good(f, s) && forall i :: 0 <= i < |s| ==> s[i].view == map[]
  }

  ghost predicate StepAt(f: Setup, packets: seq<Packet>, states: seq<seq<Level>>, i: nat)
    requires i < |packets| < |states|
  {
    Next(f, states[i], packets[i], states[i + 1])
  }

  /** A run from empty tables, with the states between its packets. */
  ghost predicate Run(f: Setup, packets: seq<Packet>, states: seq<seq<Level>>) {
    && |states| == |packets| + 1 && Empty(f, states[0])
    && (forall i: nat {:trigger StepAt(f, packets, states, i)} ::
          i < |packets| ==> StepAt(f, packets, states, i))
    && (forall i, j :: 0 <= i <= j < |packets| ==> packets[i].time <= packets[j].time)
  }

  ghost predicate UpToLength(packets: seq<Packet>, longest: nat) {
    forall i :: 0 <= i < |packets| ==> packets[i].size <= longest
  }

  /** A packet that may follow a run. */
  ghost predicate Follows(packets: seq<Packet>, p: Packet) {
    packets != [] ==> packets[|packets| - 1].time <= p.time
  }

  lemma {:induction false} AgedIsCurrent(f: Setup, s: seq<Level>, time: int)
    requires Good(f, s) && NotAhead(s, time)
    ensures Good(f, AgedLevels(f, s, time)) && NotAhead(AgedLevels(f, s, time), time)
  {
    var aged := AgedLevels(f, s, time);
    AgedIsGood(f, s, aged, time);
    forall i | 0 <= i < |aged|
      ensures UpTo(aged[i].view, time)
    {
      assert aged[i] == AgedLevel(f, s[i], time);
    }
  }

  lemma {:induction false} NextIsClosed(f: Setup, s: seq<Level>, p: Packet, s': seq<Level>)
    requires Next(f, s, p, s') && Closed(f, s)
    ensures Good(f, s') && Closed(f, s') && NotAhead(s', p.time)
  {
    var aged := AgedLevels(f, s, p.time);
    AgedIsCurrent(f, s, p.time);
    AgedIsClosed(f, s, aged, p.time);
    if p.outside {
      var m: nat :| Updated(f, aged, s', p.src, p.size, p.time, m) && Stops(f, aged, p.src, m);
      UpdateIsGood(f, aged, s', p.src, p.size, p.time, m);
      UpdateIsClosed(f, aged, s', p.src, p.size, p.time, m);
    }
  }

  lemma {:induction false} EmptyIsClosed(f: Setup, s: seq<Level>)
    requires Empty(f, s)
    ensures Closed(f, s) && forall time :: NotAhead(s, time)
  {
  }

  lemma {:induction false} StepIsClosed(f: Setup, packets: seq<Packet>, states: seq<seq<Level>>, n: nat)
    requires Run(f, packets, states) && n < |packets| && Good(f, states[n]) && Closed(f, states[n])
    ensures Good(f, states[n + 1]) && Closed(f, states[n + 1]) && NotAhead(states[n + 1], packets[n].time)
  {
    assert StepAt(f, packets, states, n);
    NextIsClosed(f, states[n], packets[n], states[n + 1]);
  }

  /** In every state of every run every tracked prefix has all its shorter prefixes tracked. */
  lemma {:induction false} AlwaysClosed(f: Setup, packets: seq<Packet>, states: seq<seq<Level>>, n: nat)
    requires Run(f, packets, states) && n <= |packets|
    ensures Good(f, states[n]) && Closed(f, states[n])
    ensures n > 0 ==> NotAhead(states[n], packets[n - 1].time)
    ensures n == 0 ==> forall time :: NotAhead(states[n], time)
    decreases n
  {
    if n == 0 {
      EmptyIsClosed(f, states[0]);
    } else {
      AlwaysClosed(f, packets, states, n - 1);
      StepIsClosed(f, packets, states, n - 1);
    }
  }

  lemma {:induction false} NeverAhead(f: Setup, packets: seq<Packet>, states: seq<seq<Level>>, p: Packet)
    requires Run(f, packets, states) && Follows(packets, p)
    ensures Good(f, states[|packets|]) && Closed(f, states[|packets|]) && NotAhead(states[|packets|], p.time)
  {
    AlwaysClosed(f, packets, states, |packets|);
  }

  // ----- The source's assertion

  /** In every run of packets up to a length, the next packet up to that length meets the assertion. */
  ghost predicate NeverAsserts(f: Setup, longest: nat) {
    forall packets: seq<Packet>, states: seq<seq<Level>>, p: Packet ::
      Run(f, packets, states) && UpToLength(packets + [p], longest) && p.outside && Follows(packets, p)
      && Good(f, states[|packets|]) ==>
        Admissible(f, AgedLevels(f, states[|packets|], p.time), p.src, p.size, 0)
  }

  /** The assertion holds in every run if and only if no packet is longer than the burst, or no length is
      configured. */
  lemma {:induction false} NeverAssertsExactly(f: Setup, longest: nat)
    requires B.Sound(f.bucket) && f.capacity > 0 && Nested(f.nets)
    ensures NeverAsserts(f, longest) <==> longest <= f.bucket.burst || f.nets == []
  {
    if longest <= f.bucket.burst || f.nets == [] {
      forall packets: seq<Packet>, states: seq<seq<Level>>, p: Packet
        | Run(f, packets, states) && UpToLength(packets + [p], longest) && p.outside && Follows(packets, p)
          && Good(f, states[|packets|])
        ensures Admissible(f, AgedLevels(f, states[|packets|], p.time), p.src, p.size, 0)
      {
        NeverAhead(f, packets, states, p);
        assert (packets + [p])[|packets|] == p;
        if f.nets != [] {
          ShortIsAdmissible(f, AgedLevels(f, states[|packets|], p.time), p.src, p.size, 0);
        }
      }
    } else {
      var s := Blank(f);
      var packets: seq<Packet>, states, p := [], [s], Packet(0, true, Word(0), longest);
      assert Run(f, packets, states) && states[|packets|] == s;
      var aged := AgedLevels(f, s, 0);
      assert aged[0] == AgedLevel(f, s[0], 0) && aged[0].view == map[];
      assert !Admissible(f, aged, p.src, p.size, 0);
    }
  }

  ghost function Blank(f: Setup): (s: seq<Level>)
    requires B.Sound(f.bucket) && Nested(f.nets)
    ensures Empty(f, s)
  {
    seq(|f.nets|, _ => Level(map[], seq(f.capacity, _ => B.Bucket(0, 0))))
  }

  // ----- What a packet reports

  ghost predicate FitsAt(f: Setup, s: seq<Level>, src: Word, i: nat)
    requires i < |s| == |f.nets|
  {
    !Full(f, s[i], And(src, f.nets[i]))
  }

  /** A packet gets to level `i`: none of the levels up to it stops it. */
  ghost predicate GetsTo(f: Setup, s: seq<Level>, src: Word, i: nat)
    requires |s| == |f.nets|
  {
    forall j: nat {:trigger FitsAt(f, s, src, j)} :: j <= i && j < |s| ==> FitsAt(f, s, src, j)
  }

  /** What is reported of a packet from outside: the longest prefix whose bucket cannot pay, unless a full level stops
      the packet. */
  ghost predicate Reports(f: Setup, s: seq<Level>, p: Packet, hit: Option<Hitter>)
    requires Good(f, s) && NotAhead(s, p.time)
  {
    AgedIsCurrent(f, s, p.time);
    var aged := AgedLevels(f, s, p.time);
    if GetsTo(f, aged, p.src, |s|) then IsHitter(f, aged, p.src, p.size, p.time, |s|, hit) else hit.None?
  }

  lemma {:induction false} UpdatedGetsTo(f: Setup, s: seq<Level>, s': seq<Level>, src: Word, size: nat, time: int,
                                         m: nat)
    requires Updated(f, s, s', src, size, time, m) && Stops(f, s, src, m)
    ensures forall i: nat :: i < |s| ==> (i < m <==> GetsTo(f, s, src, i))
    ensures m == |s| <==> GetsTo(f, s, src, |s|)
  {
    forall j: nat | j < m
      ensures FitsAt(f, s, src, j)
    {
      assert ChargedAt(f, s, s', src, size, time, j);
    }
    if m < |s| {
      assert !FitsAt(f, s, src, m);
    }
  }

  // ----- Whether expiry shows

  /** A packet from outside for whose prefix at level `i` a bucket has just been forgotten. */
  ghost predicate ForgottenAt(f: Setup, s: seq<Level>, p: Packet, i: nat)
    requires Good(f, s) && NotAhead(s, p.time) && i < |s|
  {
    var aged, k := AgedLevels(f, s, p.time), And(p.src, f.nets[i]);
    p.outside && p.size <= f.bucket.burst && GetsTo(f, aged, p.src, i) && k in s[i].view && k !in aged[i].view
  }

  /** The bucket and the report are what they would be if nothing had been forgotten. */
  ghost predicate SameAt(f: Setup, s: seq<Level>, p: Packet, i: nat)
    requires Good(f, s) && NotAhead(s, p.time) && i < |s| && p.size <= f.bucket.burst
  {
    AgedIsCurrent(f, s, p.time);
    var l, aged, k := s[i], AgedLevels(f, s, p.time)[i], And(p.src, f.nets[i]);
    && Paid(f, aged, k, p.size, p.time) == Paid(f, l, k, p.size, p.time)
    && (Exhausted(f, aged, k, p.size, p.time) <==> Exhausted(f, l, k, p.size, p.time))
  }

  /** Expiry never shows: after every run of packets up to a length, and for every packet up to that length. */
  ghost predicate Invisible(f: Setup, longest: nat) {
    forall packets: seq<Packet>, states: seq<seq<Level>>, p: Packet, i: nat ::
      Run(f, packets, states) && UpToLength(packets + [p], longest) && Follows(packets, p)
      && i < |f.nets| && Good(f, states[|packets|]) && NotAhead(states[|packets|], p.time)
      && ForgottenAt(f, states[|packets|], p, i) ==>
        SameAt(f, states[|packets|], p, i)
  }

  /** A prefix that is forgotten after the time it takes to fill its bucket has a full bucket by then. */
  lemma {:induction false} FullWhenForgotten(f: Setup, s: seq<Level>, p: Packet, i: nat)
    requires Good(f, s) && NotAhead(s, p.time) && i < |s| && ForgottenAt(f, s, p, i)
    requires f.bucket.expiry == f.bucket.fill && p.size < f.bucket.burst
    ensures SameAt(f, s, p, i)
  {
    AgedIsCurrent(f, s, p.time);
    var l, k := s[i], And(p.src, f.nets[i]);
    assert AgedLevels(f, s, p.time)[i] == AgedLevel(f, l, p.time);
    assert p.time - l.vals[l.view[k].index].time > f.bucket.fill;
  }

  /** The first packet of a run: every level has one bucket. */
  ghost function AfterOne(f: Setup, s: seq<Level>, p: Packet): (s': seq<Level>)
    requires Empty(f, s) && p.size <= f.bucket.burst && f.capacity > 0
    ensures |s'| == |s|
    ensures forall i :: 0 <= i < |s| ==>
              && s'[i].view == map[And(p.src, f.nets[i]) := Entry(0, p.time)]
              && s'[i].vals == s[i].vals[0 := B.Bucket(f.bucket.burst - p.size, p.time)]
  {
    seq(|s|, i requires 0 <= i < |s| => Level(map[And(p.src, f.nets[i]) := Entry(0, p.time)],
                                              s[i].vals[0 := B.Bucket(f.bucket.burst - p.size, p.time)]))
  }

  lemma {:induction false} FirstPacket(f: Setup, s: seq<Level>, p: Packet)
    requires Empty(f, s) && p.outside && p.size <= f.bucket.burst && f.capacity > 0
    ensures Next(f, s, p, AfterOne(f, s, p))
    ensures Run(f, [p], [s, AfterOne(f, s, p)])
  {
    var aged, s' := AgedLevels(f, s, p.time), AfterOne(f, s, p);
    ShortIsAdmissible(f, aged, p.src, p.size, 0);
    AgedIsGood(f, s, aged, p.time);
    forall i: nat | i < |s|
      ensures ChargedAt(f, aged, s', p.src, p.size, p.time, i)
    {
      assert aged[i] == AgedLevel(f, s[i], p.time) && aged[i].view == map[] && !Used(aged[i].view, 0);
      assert s'[i] == Charge(f, aged[i], And(p.src, f.nets[i]), p.size, p.time, 0);
    }
    assert Updated(f, aged, s', p.src, p.size, p.time, |s|) && Stops(f, aged, p.src, |s|);
  }

  /** A second packet from the same source, at a time when the first is forgotten everywhere. */
  lemma {:induction false} SecondPacket(f: Setup, s: seq<Level>, p: Packet, q: Packet)
    requires Empty(f, s) && p.outside && p.size <= f.bucket.burst && f.capacity > 0 && f.nets != []
    requires q.outside && q.src == p.src && q.size <= f.bucket.burst && p.time <= q.time
    requires p.time < B.Threshold(f.bucket, q.time)
    ensures Good(f, AfterOne(f, s, p)) && NotAhead(AfterOne(f, s, p), q.time)
    ensures ForgottenAt(f, AfterOne(f, s, p), q, 0)
    ensures var s', k := AfterOne(f, s, p), And(p.src, f.nets[0]);
            && Paid(f, AgedLevel(f, s'[0], q.time), k, q.size, q.time) == B.Bucket(f.bucket.burst - q.size, q.time)
            && !Exhausted(f, AgedLevel(f, s'[0], q.time), k, q.size, q.time)
            && AgedLevels(f, s', q.time)[0] == AgedLevel(f, s'[0], q.time)
  {
    FirstPacket(f, s, p);
    var s' := AfterOne(f, s, p);
    assert Closed(f, s);
    NextIsClosed(f, s, p, s');
    AgedIsCurrent(f, s', q.time);
    var aged := AgedLevels(f, s', q.time);
    assert aged[0] == AgedLevel(f, s'[0], q.time) && aged[0].view == map[];
    assert FitsAt(f, aged, q.src, 0);
  }

  /** Two packets at one instant, where every prefix is forgotten at once: the byte of the first is forgotten too. */
  lemma {:induction false} ShowsAtOnce(f: Setup, longest: nat)
    requires B.Sound(f.bucket) && f.capacity > 0 && Nested(f.nets) && f.nets != []
    requires 0 < longest && f.bucket.burst >= 2 && f.bucket.expiry < 0 < f.bucket.fill
    ensures !Invisible(f, longest)
  {
    var s, p, q := Blank(f), Packet(0, true, Word(0), 1), Packet(0, true, Word(0), 0);
    var s' := AfterOne(f, s, p);
    FirstPacket(f, s, p);
    SecondPacket(f, s, p, q);
    B.RefillAtOnce(f.bucket, s'[0].vals[0]);
    ShownBy(f, longest, [p], [s, s'], q);
  }

  /** A packet as long as the burst is paid for by a new bucket, and not by the full one that was forgotten. */
  lemma {:induction false} ShowsAtBurst(f: Setup, longest: nat)
    requires B.Sound(f.bucket) && f.capacity > 0 && Nested(f.nets) && f.nets != [] && f.bucket.burst <= longest
    ensures !Invisible(f, longest)
  {
    var t := if f.bucket.expiry < 0 then 0 else f.bucket.expiry + 1;
    var s, p, q := Blank(f), Packet(0, true, Word(0), 0), Packet(t, true, Word(0), f.bucket.burst);
    var s' := AfterOne(f, s, p);
    FirstPacket(f, s, p);
    SecondPacket(f, s, p, q);
    assert Exhausted(f, s'[0], And(q.src, f.nets[0]), q.size, q.time);
    ShownBy(f, longest, [p], [s, s'], q);
  }

  lemma {:induction false} ShownBy(f: Setup, longest: nat, packets: seq<Packet>, states: seq<seq<Level>>, p: Packet)
    requires Run(f, packets, states) && UpToLength(packets + [p], longest) && Follows(packets, p) && f.nets != []
    requires Good(f, states[|packets|]) && NotAhead(states[|packets|], p.time)
    requires ForgottenAt(f, states[|packets|], p, 0) && !SameAt(f, states[|packets|], p, 0)
    ensures !Invisible(f, longest)
  {
    var i: nat := 0;
    assert ForgottenAt(f, states[|packets|], p, i) && !SameAt(f, states[|packets|], p, i);
  }

  /** Expiry never shows if and only if all packets are shorter than the burst and the time to fill a bucket is at most
      2^63, or no length is configured. */
  lemma {:induction false} InvisibleExactly(f: Setup, longest: nat)
    requires B.Sound(f.bucket) && f.bucket == B.ByFilling(f.bucket.rate, f.bucket.burst)
    requires f.capacity > 0 && Nested(f.nets) && longest > 0
    ensures Invisible(f, longest) <==>
            f.nets == [] || (longest < f.bucket.burst && f.bucket.fill <= B.WORD / 2)
  {
    B.FillIsWord(f.bucket.rate, f.bucket.burst);
    if f.nets != [] && f.bucket.burst <= longest {
      ShowsAtBurst(f, longest);
    } else if f.nets != [] && f.bucket.fill > B.WORD / 2 {
      ShowsAtOnce(f, longest);
    } else {
      forall packets: seq<Packet>, states: seq<seq<Level>>, p: Packet, i: nat
        | Run(f, packets, states) && UpToLength(packets + [p], longest) && Follows(packets, p)
          && i < |f.nets| && Good(f, states[|packets|]) && NotAhead(states[|packets|], p.time)
          && ForgottenAt(f, states[|packets|], p, i)
        ensures SameAt(f, states[|packets|], p, i)
      {
        assert (packets + [p])[|packets|] == p;
        FullWhenForgotten(f, states[|packets|], p, i);
      }
    }
  }

  // ----- One prefix at a time

  ghost function CellOf(l: Level, k: Word): (o: B.Cell)
    requires k in l.view ==> l.view[k].index < |l.vals|
  {
    if k in l.view then B.Present(l.vals[l.view[k].index]) else B.Absent
  }

  /** A packet that is charged to key `k` at level `i`. */
  ghost predicate OfKey(f: Setup, p: Packet, i: nat, k: Word)
    requires i < |f.nets|
  {
    p.outside && And(p.src, f.nets[i]) == k
  }

  /** What a packet means for the bucket of one prefix. */
  ghost function ArrivalOf(f: Setup, s: seq<Level>, p: Packet, i: nat, k: Word): (a: B.Arrival)
    requires B.Sound(f.bucket) && i < |f.nets|
  {
    B.Arrival(p.time,
              if OfKey(f, p, i, k)
              then B.Police(p.size, |s| == |f.nets| && GetsTo(f, AgedLevels(f, s, p.time), p.src, i))
              else B.Tick)
  }

  /** Seen from one prefix, expiry is the expiry of one bucket. */
  lemma {:induction false} AgedCell(f: Setup, l: Level, time: int, k: Word)
    requires GoodLevel(f, l) && UpTo(l.view, time) && B.Sound(f.bucket)
    ensures GoodLevel(f, AgedLevel(f, l, time)) && UpTo(AgedLevel(f, l, time).view, time)
    ensures B.UpTo(CellOf(l, k), time)
    ensures CellOf(AgedLevel(f, l, time), k) == B.Aged(f.bucket, CellOf(l, k), time)
  {
    AgedLevelIsGood(f, l, time);
  }

  lemma {:induction false} ChargedCell(f: Setup, l: Level, l': Level, q: Word, size: nat, time: int, k: Word)
    requires Charged(f, l, l', q, size, time)
    ensures GoodLevel(f, l')
    ensures CellOf(l', k) == if k == q then B.Present(Paid(f, l, q, size, time)) else CellOf(l, k)
  {
    ChargeIsGood(f, l, l', q, size, time);
    assert Peek(0, l.view);
  }

  /** A tracked prefix has its ancestors tracked, so that no level stops its packets. */
  lemma {:induction false} TrackedGetsTo(f: Setup, s: seq<Level>, src: Word, i: nat)
    requires Good(f, s) && Closed(f, s) && i < |s| && And(src, f.nets[i]) in s[i].view
    ensures GetsTo(f, s, src, i)
  {
    forall j: nat | j <= i
      ensures FitsAt(f, s, src, j)
    {
      if j < i {
        assert Covered(f, s, j, i, And(src, f.nets[i]));
        PrefixOfPrefix(src, f.nets[j], f.nets[i]);
      }
    }
  }

  /** Charging a packet at the levels, seen from one prefix of one level. */
  lemma {:induction false} UpdateProjects(f: Setup, s: seq<Level>, s': seq<Level>, p: Packet, m: nat, i: nat, k: Word)
    requires Good(f, s) && Closed(f, s) && NotAhead(s, p.time) && i < |s| && p.outside
    requires Updated(f, s, s', p.src, p.size, p.time, m) && Stops(f, s, p.src, m)
    ensures Good(f, s')
    ensures if OfKey(f, p, i, k) && GetsTo(f, s, p.src, i)
            then Payable(f, s[i], k, p.size) && !Full(f, s[i], k)
                 && CellOf(s'[i], k) == B.Present(Paid(f, s[i], k, p.size, p.time))
            else CellOf(s'[i], k) == CellOf(s[i], k) && (OfKey(f, p, i, k) ==> k !in s[i].view)
  {
    UpdateIsGood(f, s, s', p.src, p.size, p.time, m);
    UpdatedGetsTo(f, s, s', p.src, p.size, p.time, m);
    if OfKey(f, p, i, k) && k in s[i].view {
      TrackedGetsTo(f, s, p.src, i);
    }
    if i < m {
      assert ChargedAt(f, s, s', p.src, p.size, p.time, i);
      ChargedCell(f, s[i], s'[i], And(p.src, f.nets[i]), p.size, p.time, k);
    }
  }

  /** Seen from one prefix the heavy hitter is a single bucket. */
  lemma {:induction false} StepProjects(f: Setup, s: seq<Level>, p: Packet, s': seq<Level>, i: nat, k: Word)
    requires Next(f, s, p, s') && Closed(f, s) && i < |s|
    ensures |s'| == |s| && GoodLevel(f, s[i]) && GoodLevel(f, s'[i]) && B.UpTo(CellOf(s[i], k), p.time)
    ensures CellOf(s'[i], k) == B.Step(f.bucket, CellOf(s[i], k), ArrivalOf(f, s, p, i, k))
  {
    var aged := AgedLevels(f, s, p.time);
    AgedIsCurrent(f, s, p.time);
    assert aged[i] == AgedLevel(f, s[i], p.time);
    AgedCell(f, s[i], p.time, k);
    if p.outside {
      AgedIsClosed(f, s, aged, p.time);
      var m: nat :| Updated(f, aged, s', p.src, p.size, p.time, m) && Stops(f, aged, p.src, m);
      UpdateProjects(f, aged, s', p, m, i, k);
      PaidIsStep(f, s[i], aged[i], s'[i], k, p, OfKey(f, p, i, k), GetsTo(f, aged, p.src, i));
    }
  }

  /** What a bucket pays is what a step of the single bucket pays. */
  lemma {:induction false} PaidIsStep(f: Setup, l: Level, aged: Level, l': Level, k: Word, p: Packet, mine: bool,
                                      room: bool)
    requires B.Sound(f.bucket) && GoodLevel(f, l) && GoodLevel(f, aged) && GoodLevel(f, l')
    requires UpTo(aged.view, p.time) && B.UpTo(CellOf(l, k), p.time)
    requires CellOf(aged, k) == B.Aged(f.bucket, CellOf(l, k), p.time)
    requires if mine && room
             then Payable(f, aged, k, p.size) && !Full(f, aged, k)
                  && CellOf(l', k) == B.Present(Paid(f, aged, k, p.size, p.time))
             else CellOf(l', k) == CellOf(aged, k) && (mine ==> k !in aged.view)
    ensures CellOf(l', k)
         == B.Step(f.bucket, CellOf(l, k), B.Arrival(p.time, if mine then B.Police(p.size, room) else B.Tick))
  {
  }

  // ----- What is not noticed is within the rate

  /** A packet that no level stops and that is not reported. */
  ghost predicate Unnoticed(f: Setup, s: seq<Level>, p: Packet) {
    Good(f, s) && NotAhead(s, p.time) && GetsTo(f, AgedLevels(f, s, p.time), p.src, |s|) && Reports(f, s, p, None)
  }

  /** An unnoticed packet is paid for at every level. */
  lemma {:induction false} UnnoticedIsSent(f: Setup, s: seq<Level>, p: Packet, s': seq<Level>, i: nat, k: Word)
    requires Next(f, s, p, s') && i < |s| && OfKey(f, p, i, k) && Unnoticed(f, s, p)
    ensures GoodLevel(f, s[i]) && B.UpTo(CellOf(s[i], k), p.time)
    ensures B.Forwards(f.bucket, CellOf(s[i], k), ArrivalOf(f, s, p, i, k))
  {
    var aged := AgedLevels(f, s, p.time);
    AgedIsCurrent(f, s, p.time);
    assert aged[i] == AgedLevel(f, s[i], p.time);
    AgedCell(f, s[i], p.time, k);
    assert !Exhaustions(f, aged, p.src, p.size, p.time)[i];
    assert FitsAt(f, aged, p.src, i);
    var m: nat :| Updated(f, aged, s', p.src, p.size, p.time, m) && Stops(f, aged, p.src, m);
    UpdatedGetsTo(f, aged, s', p.src, p.size, p.time, m);
    assert ChargedAt(f, aged, s', p.src, p.size, p.time, i);
  }

  /** Bytes of prefix `k` at level `i` in packets `lo` to `hi - 1`. */
  ghost function BytesOf(f: Setup, packets: seq<Packet>, i: nat, k: Word, lo: nat, hi: nat): (n: nat)
    requires i < |f.nets| && hi <= |packets|
  {
    if hi <= lo then 0
    else BytesOf(f, packets, i, k, lo, hi - 1) + if OfKey(f, packets[hi - 1], i, k) then packets[hi - 1].size else 0
  }

  ghost predicate UnnoticedAt(f: Setup, packets: seq<Packet>, states: seq<seq<Level>>, i: nat, k: Word, n: nat)
    requires i < |f.nets| && n < |packets| < |states|
  {
    OfKey(f, packets[n], i, k) ==> Unnoticed(f, states[n], packets[n])
  }

  ghost predicate UnnoticedIn(f: Setup, packets: seq<Packet>, states: seq<seq<Level>>, i: nat, k: Word, lo: nat,
                              hi: nat)
    requires i < |f.nets| && hi <= |packets| < |states|
  {
    forall n: nat {:trigger UnnoticedAt(f, packets, states, i, k, n)} ::
      lo <= n < hi ==> UnnoticedAt(f, packets, states, i, k, n)
  }

  // ----- The same in terms of addresses

  /** A packet from outside whose address agrees with `a` in the first bits, as many as level `i` looks at. */
  ghost predicate OfPrefix(lengths: seq<nat>, p: Packet, i: nat, a: Word)
    requires i < |lengths| && lengths[i] <= WIDTH
  {
    p.outside && SameStart(p.src, a, lengths[i])
  }

  /** Bytes of the packets `lo` to `hi - 1` from addresses that agree with `a`. */
  ghost function BytesFrom(lengths: seq<nat>, packets: seq<Packet>, i: nat, a: Word, lo: nat, hi: nat): (n: nat)
    requires i < |lengths| && lengths[i] <= WIDTH && hi <= |packets|
  {
    if hi <= lo then 0
    else BytesFrom(lengths, packets, i, a, lo, hi - 1)
         + if OfPrefix(lengths, packets[hi - 1], i, a) then packets[hi - 1].size else 0
  }

  /** None of these packets is stopped or reported. */
  ghost predicate QuietFrom(f: Setup, lengths: seq<nat>, packets: seq<Packet>, states: seq<seq<Level>>, i: nat, a: Word,
                            lo: nat, hi: nat)
    requires i < |lengths| && lengths[i] <= WIDTH && hi <= |packets| < |states|
  {
    forall n: nat :: lo <= n < hi && OfPrefix(lengths, packets[n], i, a) ==> Unnoticed(f, states[n], packets[n])
  }

  ghost predicate WithinRate(f: Setup, lengths: seq<nat>, packets: seq<Packet>, i: nat, a: Word, lo: nat, hi: nat)
    requires i < |lengths| && lengths[i] <= WIDTH && lo < hi <= |packets|
  {
    BytesFrom(lengths, packets, i, a, lo, hi)
    <= f.bucket.burst + f.bucket.rate * (packets[hi - 1].time - packets[lo].time) / B.SECOND
  }

  /** What the function is for: in every run, for every configured length, in every window, the addresses that agree in
      their first bits have sent at most the burst and what the rate adds if none of their packets is stopped or
      reported. */
  ghost predicate Detects(f: Setup, lengths: seq<nat>)
    requires HaveLengths(f.nets, lengths)
  {
    forall packets: seq<Packet>, states: seq<seq<Level>>, i: nat, a: Word, lo: nat, hi: nat ::
      Run(f, packets, states) && UpToLength(packets, B.MAX_SIZE) && i < |lengths| && lo < hi <= |packets|
      && QuietFrom(f, lengths, packets, states, i, a, lo, hi) ==>
        WithinRate(f, lengths, packets, i, a, lo, hi)
  }

  lemma {:induction false} OfPrefixIsOfKey(f: Setup, lengths: seq<nat>, p: Packet, i: nat, a: Word)
    requires HaveLengths(f.nets, lengths) && i < |lengths|
    ensures OfPrefix(lengths, p, i, a) <==> OfKey(f, p, i, And(a, f.nets[i]))
  {
    SamePrefixExactly(p.src, a, lengths[i]);
  }

  lemma {:induction false} BytesFromKey(f: Setup, lengths: seq<nat>, packets: seq<Packet>, i: nat, a: Word, lo: nat,
                                        hi: nat)
    requires HaveLengths(f.nets, lengths) && i < |lengths| && hi <= |packets|
    ensures BytesFrom(lengths, packets, i, a, lo, hi) == BytesOf(f, packets, i, And(a, f.nets[i]), lo, hi)
    decreases hi
  {
    if hi > lo {
      BytesFromKey(f, lengths, packets, i, a, lo, hi - 1);
      OfPrefixIsOfKey(f, lengths, packets[hi - 1], i, a);
    }
  }

  lemma {:induction false} QuietIsUnnoticed(f: Setup, lengths: seq<nat>, packets: seq<Packet>, states: seq<seq<Level>>,
                                            i: nat, a: Word, lo: nat, hi: nat)
    requires HaveLengths(f.nets, lengths) && i < |lengths| && hi <= |packets| < |states|
    ensures QuietFrom(f, lengths, packets, states, i, a, lo, hi)
            <==> UnnoticedIn(f, packets, states, i, And(a, f.nets[i]), lo, hi)
  {
    forall n: nat | lo <= n < hi
      ensures UnnoticedAt(f, packets, states, i, And(a, f.nets[i]), n)
              <==> (OfPrefix(lengths, packets[n], i, a) ==> Unnoticed(f, states[n], packets[n]))
    {
      OfPrefixIsOfKey(f, lengths, packets[n], i, a);
    }
  }

  /** What a report names: the first bits of the packet's address, and no others, for a configured length. */
  lemma {:induction false} ReportNamesPrefix(f: Setup, lengths: seq<nat>, s: seq<Level>, p: Packet, h: Hitter)
      returns (i: nat)
    requires HaveLengths(f.nets, lengths) && Good(f, s) && NotAhead(s, p.time) && Reports(f, s, p, Some(h))
    ensures i < |lengths| && NetOf(h.length) == NetOf(lengths[i])
    ensures SameStart(h.prefix, p.src, lengths[i]) && OnlyStart(h.prefix, lengths[i])
  {
    AgedIsCurrent(f, s, p.time);
    var bad := Exhaustions(f, AgedLevels(f, s, p.time), p.src, p.size, p.time);
    i :| 0 <= i < |s| && bad[i] && h.prefix == And(p.src, f.nets[i]) && NetOf(h.length) == f.nets[i];
    PrefixIsStart(p.src, lengths[i]);
  }

  /** In every state of every run: if an address prefix is tracked, so is the prefix of every shorter configured length
      that it starts with. */
  lemma {:induction false} ShorterIsTracked(f: Setup, lengths: seq<nat>, packets: seq<Packet>,
                                            states: seq<seq<Level>>, n: nat, i: nat, j: nat, q: Word) returns (a: Word)
    requires HaveLengths(f.nets, lengths) && Run(f, packets, states) && n <= |packets|
    requires i < j < |lengths| == |states[n]| && q in states[n][j].view
    ensures a in states[n][i].view && SameStart(a, q, lengths[i]) && OnlyStart(a, lengths[i])
    ensures states[n][i].view[a].time >= states[n][j].view[q].time
  {
    AlwaysClosed(f, packets, states, n);
    assert Covered(f, states[n], i, j, q);
    a := And(q, f.nets[i]);
    PrefixIsStart(q, lengths[i]);
  }

  ghost function Project(f: Setup, packets: seq<Packet>, states: seq<seq<Level>>, i: nat, k: Word, n: nat):
      (run: seq<B.Arrival>)
    requires B.Sound(f.bucket) && i < |f.nets| && n <= |packets| < |states|
    ensures |run| == n && forall x :: 0 <= x < n ==> run[x] == ArrivalOf(f, states[x], packets[x], i, k)
  {
    seq(n, x requires 0 <= x < n => ArrivalOf(f, states[x], packets[x], i, k))
  }

  lemma {:induction false} ProjectIsTimely(f: Setup, packets: seq<Packet>, states: seq<seq<Level>>, i: nat, k: Word,
                                           n: nat)
    requires Run(f, packets, states) && UpToLength(packets, B.MAX_SIZE) && i < |f.nets| && n <= |packets|
    ensures B.Timely(Project(f, packets, states, i, k, n))
  {
  }

  lemma {:induction false} ProjectSnoc(f: Setup, packets: seq<Packet>, states: seq<seq<Level>>, i: nat, k: Word,
                                       n: nat)
    requires B.Sound(f.bucket) && i < |f.nets| && 0 < n <= |packets| < |states|
    ensures Project(f, packets, states, i, k, n)
         == Project(f, packets, states, i, k, n - 1) + [ArrivalOf(f, states[n - 1], packets[n - 1], i, k)]
  {
  }

  /** What a packet does to one prefix. */
  lemma {:induction false} OneProjects(f: Setup, s: seq<Level>, p: Packet, s': seq<Level>, i: nat, k: Word)
    requires Next(f, s, p, s') && Closed(f, s) && i < |s|
    ensures |s'| == |s| && GoodLevel(f, s[i]) && GoodLevel(f, s'[i])
    ensures var o, a := CellOf(s[i], k), ArrivalOf(f, s, p, i, k);
            && B.UpTo(o, a.time) && CellOf(s'[i], k) == B.Step(f.bucket, o, a)
            && ((OfKey(f, p, i, k) ==> Unnoticed(f, s, p)) ==>
                  B.Sent(f.bucket, o, a) == if OfKey(f, p, i, k) then p.size else 0)
  {
    StepProjects(f, s, p, s', i, k);
    if OfKey(f, p, i, k) && Unnoticed(f, s, p) {
      UnnoticedIsSent(f, s, p, s', i, k);
    }
  }

  /** What packet `n - 1` of a run does to one prefix. */
  lemma {:induction false} PacketProjects(f: Setup, packets: seq<Packet>, states: seq<seq<Level>>, i: nat, k: Word,
                                          n: nat)
    requires Run(f, packets, states) && i < |f.nets| && 0 < n <= |packets|
    ensures |states[n - 1]| == |states[n]| == |f.nets| && B.Sound(f.bucket)
    ensures GoodLevel(f, states[n - 1][i]) && GoodLevel(f, states[n][i])
    ensures var o, a := CellOf(states[n - 1][i], k), ArrivalOf(f, states[n - 1], packets[n - 1], i, k);
            && B.UpTo(o, a.time) && CellOf(states[n][i], k) == B.Step(f.bucket, o, a)
            && (UnnoticedAt(f, packets, states, i, k, n - 1) ==>
                  B.Sent(f.bucket, o, a) == if OfKey(f, packets[n - 1], i, k) then packets[n - 1].size else 0)
  {
    AlwaysClosed(f, packets, states, n - 1);
    assert StepAt(f, packets, states, n - 1);
    OneProjects(f, states[n - 1], packets[n - 1], states[n], i, k);
  }

  /** A run of the heavy hitter, seen from one prefix, is a run of one bucket. */
  lemma {:induction false} RunProjects(f: Setup, packets: seq<Packet>, states: seq<seq<Level>>, i: nat, k: Word,
                                       n: nat)
    requires Run(f, packets, states) && UpToLength(packets, B.MAX_SIZE) && i < |f.nets| && n <= |packets|
    ensures Good(f, states[n]) && B.Timely(Project(f, packets, states, i, k, n))
    ensures CellOf(states[n][i], k) == B.After(f.bucket, Project(f, packets, states, i, k, n))
    decreases n
  {
    AlwaysClosed(f, packets, states, n);
    ProjectIsTimely(f, packets, states, i, k, n);
    if n > 0 {
      RunProjects(f, packets, states, i, k, n - 1);
      PacketProjects(f, packets, states, i, k, n);
      ExtendProject(f, packets, states, i, k, 0, n);
    }
  }

  lemma {:induction false} ExtendProject(f: Setup, packets: seq<Packet>, states: seq<seq<Level>>, i: nat, k: Word,
                                         lo: nat, n: nat)
    requires B.Sound(f.bucket) && i < |f.nets| && 0 < n <= |packets| < |states|
    requires B.Timely(Project(f, packets, states, i, k, n - 1)) && B.Timely(Project(f, packets, states, i, k, n))
    ensures var c, run, next, a := f.bucket, Project(f, packets, states, i, k, n - 1),
              Project(f, packets, states, i, k, n), ArrivalOf(f, states[n - 1], packets[n - 1], i, k);
            && B.UpTo(B.After(c, run), a.time) && B.After(c, next) == B.Step(c, B.After(c, run), a)
            && (lo < n ==> B.Bytes(c, next, lo) == B.Bytes(c, run, lo) + B.Sent(c, B.After(c, run), a))
  {
    ProjectSnoc(f, packets, states, i, k, n);
    B.Extend(f.bucket, Project(f, packets, states, i, k, n - 1),
             ArrivalOf(f, states[n - 1], packets[n - 1], i, k), lo);
  }

  /** That bucket forwards what is not noticed. */
  lemma {:induction false} UnnoticedBytes(f: Setup, packets: seq<Packet>, states: seq<seq<Level>>, i: nat, k: Word,
                                          lo: nat, n: nat)
    requires Run(f, packets, states) && UpToLength(packets, B.MAX_SIZE) && i < |f.nets| && n <= |packets|
    requires UnnoticedIn(f, packets, states, i, k, lo, n)
    ensures B.Sound(f.bucket) && B.Timely(Project(f, packets, states, i, k, n))
    ensures BytesOf(f, packets, i, k, lo, n) == B.Bytes(f.bucket, Project(f, packets, states, i, k, n), lo)
    decreases n
  {
    ProjectIsTimely(f, packets, states, i, k, n);
    if n > lo {
      LessUnnoticed(f, packets, states, i, k, lo, n);
      UnnoticedBytes(f, packets, states, i, k, lo, n - 1);
      RunProjects(f, packets, states, i, k, n - 1);
      PacketProjects(f, packets, states, i, k, n);
      ExtendProject(f, packets, states, i, k, lo, n);
    }
  }

  lemma {:induction false} LessUnnoticed(f: Setup, packets: seq<Packet>, states: seq<seq<Level>>, i: nat, k: Word,
                                         lo: nat, n: nat)
    requires i < |f.nets| && 0 < n <= |packets| < |states| && UnnoticedIn(f, packets, states, i, k, lo, n)
    ensures UnnoticedIn(f, packets, states, i, k, lo, n - 1)
    ensures lo < n ==> UnnoticedAt(f, packets, states, i, k, n - 1)
  {
  }

  lemma {:induction false} HonestDetects(f: Setup, lengths: seq<nat>, packets: seq<Packet>, states: seq<seq<Level>>,
                                         i: nat, a: Word, lo: nat, hi: nat)
    requires HaveLengths(f.nets, lengths) && Run(f, packets, states) && UpToLength(packets, B.MAX_SIZE)
    requires i < |lengths| && lo < hi <= |packets|
    requires B.Honest(f.bucket, f.bucket.rate) && QuietFrom(f, lengths, packets, states, i, a, lo, hi)
    ensures WithinRate(f, lengths, packets, i, a, lo, hi)
  {
    var k := And(a, f.nets[i]);
    QuietIsUnnoticed(f, lengths, packets, states, i, a, lo, hi);
    BytesFromKey(f, lengths, packets, i, a, lo, hi);
    UnnoticedBytes(f, packets, states, i, k, lo, hi);
    B.Window(f.bucket, f.bucket.rate, f.bucket.burst, Project(f, packets, states, i, k, hi), lo,
             packets[lo].time, packets[hi - 1].time);
  }

  // ----- The other way: a run of one bucket as a run of the heavy hitter

  ghost function PacketOf(a: B.Arrival): (p: Packet)
    requires a.kind.Police?
  {
    Packet(a.time, true, Word(0), a.kind.size)
  }

  ghost function LoneKey(f: Setup, i: nat): (k: Word)
    requires i < |f.nets|
  {
    And(Word(0), f.nets[i])
  }

  /** Nothing but the prefixes of one source, with the same bucket at every level. */
  ghost predicate Lone(f: Setup, s: seq<Level>, o: B.Cell) {
    && Good(f, s) && Closed(f, s)
    && forall i: nat {:trigger LoneAt(f, s[i], LoneKey(f, i), o)} :: i < |s| ==> LoneAt(f, s[i], LoneKey(f, i), o)
  }

  ghost predicate LoneAt(f: Setup, l: Level, k: Word, o: B.Cell) {
    GoodLevel(f, l) && (forall q :: q in l.view ==> q == k) && CellOf(l, k) == o
  }

  lemma {:induction false} PayableIsAdmissible(f: Setup, s: seq<Level>, src: Word, size: nat, i: nat)
    requires |s| == |f.nets|
    requires forall j: nat {:trigger And(src, f.nets[j])} :: j < |s| ==> Payable(f, s[j], And(src, f.nets[j]), size)
    ensures Admissible(f, s, src, size, i)
    decreases |s| - i
  {
    if i < |s| {
      PayableIsAdmissible(f, s, src, size, i + 1);
    }
  }

  /** One level of the step below. */
  lemma {:induction false} LoneCharge(f: Setup, l: Level, k: Word, o: B.Cell, a: B.Arrival) returns (l': Level)
    requires B.Sound(f.bucket) && f.capacity > 0 && LoneAt(f, l, k, o) && UpTo(l.view, a.time)
    requires a.kind.Police? && a.kind.room && B.UpTo(o, a.time) && B.Forwards(f.bucket, o, a)
    ensures var aged := AgedLevel(f, l, a.time);
            && GoodLevel(f, aged) && UpTo(aged.view, a.time) && !Full(f, aged, k) && Payable(f, aged, k, a.kind.size)
            && Charged(f, aged, l', k, a.kind.size, a.time) && !Exhausted(f, aged, k, a.kind.size, a.time)
    ensures forall q :: q in l'.view ==> q == k
  {
    var aged := AgedLevel(f, l, a.time);
    AgedCell(f, l, a.time, k);
    if k !in aged.view {
      assert aged.view == map[] && !Used(aged.view, 0);
    }
    l' := Charge(f, aged, k, a.kind.size, a.time, 0);
  }

  /** The levels of the step below, one after the other. */
  lemma {:induction false} LoneCharges(f: Setup, s: seq<Level>, o: B.Cell, a: B.Arrival, n: nat)
      returns (s': seq<Level>)
    requires Lone(f, s, o) && f.capacity > 0 && NotAhead(s, a.time) && n <= |s|
    requires a.kind.Police? && a.kind.room && B.UpTo(o, a.time) && B.Forwards(f.bucket, o, a)
    ensures |s'| == n && forall i: nat {:trigger s'[i]} :: i < n ==> LoneStepAt(f, s[i], s'[i], LoneKey(f, i), a)
    decreases n
  {
    if n == 0 {
      s' := [];
    } else {
      s' := LoneCharges(f, s, o, a, n - 1);
      assert LoneAt(f, s[n - 1], LoneKey(f, n - 1), o);
      var l' := LoneCharge(f, s[n - 1], LoneKey(f, n - 1), o, a);
      s' := s' + [l'];
    }
  }

  ghost predicate LoneStepAt(f: Setup, l: Level, l': Level, k: Word, a: B.Arrival)
    requires a.kind.Police? && B.Sound(f.bucket)
  {
    var aged := AgedLevel(f, l, a.time);
    && GoodLevel(f, aged) && UpTo(aged.view, a.time) && !Full(f, aged, k) && Payable(f, aged, k, a.kind.size)
    && Charged(f, aged, l', k, a.kind.size, a.time) && !Exhausted(f, aged, k, a.kind.size, a.time)
    && forall q :: q in l'.view ==> q == k
  }

  /** A packet that the bucket of a lone source forwards is charged at every level, and not noticed. */
  lemma {:induction false} LoneNext(f: Setup, s: seq<Level>, a: B.Arrival, s': seq<Level>)
    requires Good(f, s) && NotAhead(s, a.time) && |s'| == |s| && a.kind.Police?
    requires forall i: nat {:trigger s'[i]} :: i < |s| ==> LoneStepAt(f, s[i], s'[i], LoneKey(f, i), a)
    ensures Next(f, s, PacketOf(a), s') && Unnoticed(f, s, PacketOf(a))
  {
    var p, aged := PacketOf(a), AgedLevels(f, s, a.time);
    AgedIsCurrent(f, s, a.time);
    forall i: nat | i < |s|
      ensures ChargedAt(f, aged, s', p.src, p.size, p.time, i) && FitsAt(f, aged, p.src, i)
      ensures Payable(f, aged[i], And(p.src, f.nets[i]), p.size) && !ExhaustedAt(f, aged, p.src, p.size, p.time, i)
    {
      assert LoneStepAt(f, s[i], s'[i], LoneKey(f, i), a);
      assert aged[i] == AgedLevel(f, s[i], a.time);
    }
    PayableIsAdmissible(f, aged, p.src, p.size, 0);
    assert Updated(f, aged, s', p.src, p.size, p.time, |s|) && Stops(f, aged, p.src, |s|);
    assert IsHitter(f, aged, p.src, p.size, p.time, |s|, None);
  }

  /** One more packet for a lone source. */
  lemma {:induction false} LoneStep(f: Setup, s: seq<Level>, o: B.Cell, a: B.Arrival) returns (s': seq<Level>)
    requires Lone(f, s, o) && f.capacity > 0 && NotAhead(s, a.time)
    requires a.kind.Police? && a.kind.room && B.UpTo(o, a.time) && B.Forwards(f.bucket, o, a)
    ensures Next(f, s, PacketOf(a), s') && Unnoticed(f, s, PacketOf(a)) && Lone(f, s', B.Step(f.bucket, o, a))
  {
    s' := LoneCharges(f, s, o, a, |s|);
    LoneNext(f, s, a, s');
    NextIsClosed(f, s, PacketOf(a), s');
    forall i: nat | i < |s'|
      ensures LoneAt(f, s'[i], LoneKey(f, i), B.Step(f.bucket, o, a))
    {
      assert LoneStepAt(f, s[i], s'[i], LoneKey(f, i), a) && LoneAt(f, s[i], LoneKey(f, i), o);
      StepProjects(f, s, PacketOf(a), s', i, LoneKey(f, i));
      LoneArrival(f, s, a, i);
    }
  }

  lemma {:induction false} LoneArrival(f: Setup, s: seq<Level>, a: B.Arrival, i: nat)
    requires a.kind.Police? && a.kind.room && i < |s| && Unnoticed(f, s, PacketOf(a))
    ensures ArrivalOf(f, s, PacketOf(a), i, LoneKey(f, i)) == a
  {
    var aged := AgedLevels(f, s, a.time);
    forall j: nat | j <= i
      ensures FitsAt(f, aged, Word(0), j)
    {
    }
  }

  /** A run of the heavy hitter that carries a run of one bucket, unnoticed. */
  ghost predicate Carries(f: Setup, run: seq<B.Arrival>, packets: seq<Packet>, states: seq<seq<Level>>)
    requires B.Sound(f.bucket) && B.Timely(run) && B.Plain(run)
  {
    && Run(f, packets, states) && |packets| == |run| && Lone(f, states[|run|], B.After(f.bucket, run))
    && AllCarried(f, run, packets, states)
  }

  ghost predicate AllCarried(f: Setup, run: seq<B.Arrival>, packets: seq<Packet>, states: seq<seq<Level>>)
    requires B.Plain(run) && |run| == |packets| < |states|
  {
    forall n: nat {:trigger CarriedAt(f, run, packets, states, n)} ::
      n < |run| ==> CarriedAt(f, run, packets, states, n)
  }

  ghost predicate CarriedAt(f: Setup, run: seq<B.Arrival>, packets: seq<Packet>, states: seq<seq<Level>>, n: nat)
    requires B.Plain(run) && n < |run| == |packets| < |states|
  {
    packets[n] == PacketOf(run[n]) && Unnoticed(f, states[n], packets[n])
  }

  lemma {:induction false} ExtendCarried(f: Setup, run: seq<B.Arrival>, a: B.Arrival, packets: seq<Packet>,
                                         states: seq<seq<Level>>, s: seq<Level>)
    requires B.Plain(run) && B.Plain(run + [a]) && a.kind.Police? && |run| == |packets| && |states| == |run| + 1
    requires AllCarried(f, run, packets, states) && Unnoticed(f, states[|run|], PacketOf(a))
    ensures AllCarried(f, run + [a], packets + [PacketOf(a)], states + [s])
  {
    forall n: nat | n < |run + [a]|
      ensures CarriedAt(f, run + [a], packets + [PacketOf(a)], states + [s], n)
    {
      if n < |run| {
        assert CarriedAt(f, run, packets, states, n);
      }
    }
  }

  /** The last packet is that of the last arrival. */
  lemma {:induction false} CarriedFollows(f: Setup, run: seq<B.Arrival>, a: B.Arrival, packets: seq<Packet>,
                                          states: seq<seq<Level>>)
    requires B.Plain(run) && B.Timely(run + [a]) && a.kind.Police? && |run| == |packets| < |states|
    requires AllCarried(f, run, packets, states)
    ensures Follows(packets, PacketOf(a))
  {
    if run != [] {
      assert CarriedAt(f, run, packets, states, |run| - 1);
      assert (run + [a])[|run| - 1].time <= (run + [a])[|run|].time;
    }
  }

  lemma {:induction false} ExtendRun(f: Setup, packets: seq<Packet>, states: seq<seq<Level>>, p: Packet,
                                     s: seq<Level>)
    requires Run(f, packets, states) && Follows(packets, p) && Next(f, states[|packets|], p, s)
    ensures Run(f, packets + [p], states + [s])
  {
    var ps, ss := packets + [p], states + [s];
    forall i: nat | i < |ps|
      ensures StepAt(f, ps, ss, i)
    {
      if i < |packets| {
        assert StepAt(f, packets, states, i);
      }
    }
    forall i, j | 0 <= i <= j < |ps|
      ensures ps[i].time <= ps[j].time
    {
      if i < |packets| {
        assert packets[i].time <= packets[|packets| - 1].time;
      }
    }
  }

  lemma {:induction false} CarryOn(f: Setup, run: seq<B.Arrival>, a: B.Arrival, packets: seq<Packet>,
                                   states: seq<seq<Level>>)
      returns (ps: seq<Packet>, ss: seq<seq<Level>>)
    requires B.Sound(f.bucket) && f.capacity > 0 && B.Timely(run) && B.Plain(run)
    requires B.Timely(run + [a]) && B.Plain(run + [a]) && B.AllSent(f.bucket, run + [a])
    requires Carries(f, run, packets, states)
    ensures Carries(f, run + [a], ps, ss)
  {
    assert (run + [a])[|run|] == a;
    var p := PacketOf(a);
    CarriedFollows(f, run, a, packets, states);
    NeverAhead(f, packets, states, p);
    B.AllSentExtend(f.bucket, run, a);
    B.Extend(f.bucket, run, a, 0);
    var s := LoneStep(f, states[|run|], B.After(f.bucket, run), a);
    ExtendRun(f, packets, states, p, s);
    ExtendCarried(f, run, a, packets, states, s);
    ps, ss := packets + [p], states + [s];
  }

  lemma {:induction false} CarryNothing(f: Setup) returns (s: seq<Level>)
    requires B.Sound(f.bucket) && f.capacity > 0 && Nested(f.nets)
    ensures Carries(f, [], [], [s])
  {
    s := Blank(f);
    assert Closed(f, s);
  }

  /** Every plain run of one bucket in which all is forwarded happens in the heavy hitter, unnoticed. */
  lemma {:induction false} Realize(f: Setup, run: seq<B.Arrival>)
      returns (packets: seq<Packet>, states: seq<seq<Level>>)
    requires B.Sound(f.bucket) && f.capacity > 0 && Nested(f.nets)
    requires B.Timely(run) && B.Plain(run) && B.AllSent(f.bucket, run)
    ensures Carries(f, run, packets, states)
    decreases |run|
  {
    if run == [] {
      var s := CarryNothing(f);
      packets, states := [], [s];
    } else {
      var before, a := B.Front(f.bucket, run);
      packets, states := Realize(f, before);
      packets, states := CarryOn(f, before, a, packets, states);
    }
  }

  lemma {:induction false} CarriedBytes(f: Setup, run: seq<B.Arrival>, packets: seq<Packet>, states: seq<seq<Level>>)
    requires B.Sound(f.bucket) && B.Timely(run) && B.Plain(run) && Carries(f, run, packets, states) && f.nets != []
    ensures UpToLength(packets, B.MAX_SIZE) && UnnoticedIn(f, packets, states, 0, LoneKey(f, 0), 0, |packets|)
    ensures BytesOf(f, packets, 0, LoneKey(f, 0), 0, |packets|) == B.Bytes(f.bucket, run, 0)
    ensures forall n :: 0 <= n < |run| ==> packets[n].time == run[n].time
  {
    forall n: nat | n < |run|
      ensures packets[n].size <= B.MAX_SIZE && packets[n].time == run[n].time
      ensures UnnoticedAt(f, packets, states, 0, LoneKey(f, 0), n)
      ensures ArrivalOf(f, states[n], packets[n], 0, LoneKey(f, 0)) == run[n]
    {
      assert CarriedAt(f, run, packets, states, n);
      LoneArrival(f, states[n], run[n], 0);
    }
    UnnoticedBytes(f, packets, states, 0, LoneKey(f, 0), 0, |packets|);
    assert Project(f, packets, states, 0, LoneKey(f, 0), |packets|) == run;
  }

  /** Exactly when what is not noticed is within the rate: if a bucket is neither forgotten nor filled sooner than the
      rate pays for. */
  lemma {:induction false} DetectsExactly(f: Setup, lengths: seq<nat>)
    requires B.Sound(f.bucket) && f.capacity > 0 && Nested(f.nets) && f.nets != [] && HaveLengths(f.nets, lengths)
    ensures Detects(f, lengths) <==> B.Honest(f.bucket, f.bucket.rate)
  {
    if B.Honest(f.bucket, f.bucket.rate) {
      forall packets: seq<Packet>, states: seq<seq<Level>>, i: nat, a: Word, lo: nat, hi: nat
        | Run(f, packets, states) && UpToLength(packets, B.MAX_SIZE) && i < |lengths| && lo < hi <= |packets|
          && QuietFrom(f, lengths, packets, states, i, a, lo, hi)
        ensures WithinRate(f, lengths, packets, i, a, lo, hi)
      {
        HonestDetects(f, lengths, packets, states, i, a, lo, hi);
      }
    } else {
      var run := B.DishonestExcess(f.bucket, f.bucket.rate, f.bucket.burst);
      var packets, states := Realize(f, run);
      CarriedBytes(f, run, packets, states);
      BytesFromKey(f, lengths, packets, 0, Word(0), 0, |packets|);
      QuietIsUnnoticed(f, lengths, packets, states, 0, Word(0), 0, |packets|);
      var i: nat, lo: nat, hi: nat := 0, 0, |packets|;
      assert !WithinRate(f, lengths, packets, i, Word(0), lo, hi);
    }
  }

  /** At a rate of at most a byte per nanosecond, what is not noticed is within the rate if and only if the products of
      the code fit in 64 bits. */
  lemma {:induction false} SlowDetectsExactly(f: Setup, lengths: seq<nat>)
    requires B.Sound(f.bucket) && f.bucket == B.ByFilling(f.bucket.rate, f.bucket.burst)
    requires f.bucket.rate <= B.SECOND && f.bucket.burst > 0 && f.capacity > 0 && Nested(f.nets) && f.nets != []
    requires HaveLengths(f.nets, lengths)
    ensures Detects(f, lengths) <==> f.bucket.burst * B.SECOND < B.WORD && f.bucket.fill <= B.WORD / 2
  {
    DetectsExactly(f, lengths);
    B.FillingRateExactly(f.bucket);
  }

  // ----- The program

  /** Tables that share nothing. */
  ghost predicate Apart(tables: seq<T.FlowTable<Word>>, owned: set<object>) {
    && (forall i :: 0 <= i < |tables| ==> tables[i] in owned && tables[i].repr <= owned)
    && (forall i, j :: 0 <= i < j < |tables| ==> tables[i].repr !! tables[j].repr)
  }

  method MakeTables(n: nat, capacity: nat, hash: Word -> nat)
    returns (tables: seq<T.FlowTable<Word>>, ghost owned: set<object>)
    requires capacity > 0
    ensures |tables| == n && Apart(tables, owned) && fresh(owned)
    ensures forall i :: 0 <= i < n ==> tables[i].Valid() && tables[i].capacity == capacity && tables[i].view == map[]
  {
    tables, owned := [], {};
    while |tables| < n
      invariant |tables| <= n && Apart(tables, owned) && fresh(owned)
      invariant forall i :: 0 <= i < |tables| ==>
                  tables[i].Valid() && tables[i].capacity == capacity && tables[i].view == map[]
    {
      var table := new T.FlowTable<Word>(capacity, Word(0), hash);
      tables, owned := tables + [table], owned + table.repr;
    }
  }

  class HeavyHitter {
    const lan: nat
    const wan: nat
    const subnets: bv32
    const width: nat
    const capacity: nat
    const bucket: B.Config
    const tables: seq<T.FlowTable<Word>>
    ghost const owned: set<object>
    var buckets: seq<seq<B.Bucket>>
    ghost var levels: seq<Level>

    ghost function Config(): (f: Setup) {
      Setup(Nets(subnets, width), capacity, bucket)
    }

    ghost predicate TiedAt(i: nat)
      requires i < |tables| == |buckets| == |levels|
      reads this, tables[i], tables[i].repr
    {
      && tables[i].Valid() && tables[i].capacity == capacity
      && tables[i].view == levels[i].view && buckets[i] == levels[i].vals
    }

    /** The levels are what the tables and the vectors of buckets hold. */
    ghost predicate Tied()
      reads this, owned
    {
      && |tables| == |buckets| == |levels| == |Nets(subnets, width)| && this !in owned && Apart(tables, owned)
      && B.KeptByFilling(bucket)
      && (forall i: nat :: i < |tables| ==> TiedAt(i))
    }

    ghost predicate Valid()
      reads this, owned
    {
      Tied() && Good(Config(), levels) && Closed(Config(), levels)
    }

    constructor (lan: nat, wan: nat, subnets: bv32, width: nat, capacity: nat, rate: nat, burst: nat,
                 hash: Word -> nat)
      requires 0 < rate < B.WORD && burst < B.WORD && capacity > 0
      ensures Valid() && fresh(owned) && forall i :: 0 <= i < |levels| ==> levels[i].view == map[]
    {
      this.lan, this.wan, this.subnets, this.width := lan, wan, subnets, width;
      this.capacity, this.bucket := capacity, B.ByFilling(rate, burst);
      NetsAreNested(subnets, width);
      OneNetPerBit(subnets, width);
      var n := CalculateSubnets(subnets, width);
      var made, all := MakeTables(n, capacity, hash);
      tables, owned := made, all;
      buckets := seq(n, _ => seq(capacity, _ => B.Bucket(0, 0)));
      levels := seq(n, _ => Level(map[], seq(capacity, _ => B.Bucket(0, 0))));
    }

    method ExpireEntries(time: int)
      requires Valid() && NotAhead(levels, time) && 0 <= time < B.WORD / 2
      modifies this, owned
      ensures Valid() && NotAhead(levels, time) && AllAged(Config(), old(levels), levels, time)
    {
      var minTime := B.FillBefore(bucket, time);
      ghost var s := levels;
      var i := 0;
      while i < |tables|
        invariant i <= |tables| && Tied() && |s| == |levels|
        invariant forall j :: 0 <= j < |levels| ==> levels[j] == if j < i then AgedLevel(Config(), s[j], time) else s[j]
      {
        ExpireLevel(i, minTime);
        i := i + 1;
      }
      AgedIsGood(Config(), s, levels, time);
      AgedIsClosed(Config(), s, levels, time);
    }

    method ExpireLevel(i: nat, threshold: int)
      requires Tied() && i < |tables|
      modifies this, tables[i].repr
      ensures Tied() && levels == old(levels)[i := Level(Expire(old(levels)[i].view, threshold), old(levels)[i].vals)]
    {
      assert TiedAt(i);
      var _ := tables[i].ExpireAll(threshold);
      levels := levels[i := levels[i].(view := tables[i].view)];
      forall j: nat | j < |tables|
        ensures TiedAt(j)
      {
        assert old(TiedAt(j)) && (j != i ==> tables[j].repr !! tables[i].repr);
      }
    }

    /** Starts a bucket for a new prefix; fails exactly when the level is full. */
    method Allocate(i: nat, k: Word, size: nat, time: int) returns (ok: bool)
      requires Tied() && i < |tables| && GoodLevel(Config(), levels[i]) && UpTo(levels[i].view, time)
      requires B.Sound(bucket) && k !in levels[i].view && Payable(Config(), levels[i], k, size)
      modifies this, tables[i].repr
      ensures Tied() && i < |old(levels)| == |levels| && levels == old(levels)[i := levels[i]]
      ensures ok <==> !Full(Config(), old(levels)[i], k)
      ensures if ok then Charged(Config(), old(levels)[i], levels[i], k, size, time) else levels == old(levels)
    {
      assert TiedAt(i);
      var index;
      ok, index := tables[i].Insert(k, time);
      if ok {
        var value := B.Bucket(bucket.burst - size, time);
        buckets := buckets[i := buckets[i][index := value]];
        levels := levels[i := Level(tables[i].view, buckets[i])];
        assert levels[i] == Charge(Config(), old(levels)[i], k, size, time, index);
      }
      forall j: nat | j < |tables|
        ensures TiedAt(j)
      {
        assert old(TiedAt(j)) && (j != i ==> tables[j].repr !! tables[i].repr);
      }
    }

    /** Charges the bucket of a known prefix, or finds that it cannot pay. */
    method Spend(i: nat, k: Word, index: nat, size: nat, time: int) returns (exhausted: bool)
      requires Tied() && i < |tables| && GoodLevel(Config(), levels[i]) && UpTo(levels[i].view, time)
      requires B.Sound(bucket) && k in levels[i].view && index == levels[i].view[k].index
      modifies this, tables[i].repr
      ensures Tied() && i < |old(levels)| == |levels| && levels == old(levels)[i := levels[i]]
      ensures Charged(Config(), old(levels)[i], levels[i], k, size, time)
      ensures exhausted <==> Exhausted(Config(), old(levels)[i], k, size, time)
    {
      assert TiedAt(i);
      tables[i].Rejuvenate(index, time, k);
      var value := buckets[i][index];
      var level := B.TokensAt(bucket, value, time);
      exhausted := level <= size;
      buckets := buckets[i := buckets[i][index := B.Bucket(if exhausted then level else level - size, time)]];
      levels := levels[i := Level(tables[i].view, buckets[i])];
      assert levels[i] == Charge(Config(), old(levels)[i], k, size, time, index);
      forall j: nat | j < |tables|
        ensures TiedAt(j)
      {
        assert old(TiedAt(j)) && (j != i ==> tables[j].repr !! tables[i].repr);
      }
    }

    /** Charges a packet to prefix `k` of level `i`; fails exactly when the level is full. */
    method ChargeLevel(i: nat, k: Word, size: nat, time: int) returns (ok: bool, exhausted: bool)
      requires Tied() && i < |tables| && GoodLevel(Config(), levels[i]) && UpTo(levels[i].view, time)
      requires B.Sound(bucket) && Payable(Config(), levels[i], k, size)
      modifies this, tables[i].repr
      ensures Tied() && i < |old(levels)| == |levels| && levels == old(levels)[i := levels[i]]
      ensures ok <==> !Full(Config(), old(levels)[i], k)
      ensures if ok then Charged(Config(), old(levels)[i], levels[i], k, size, time) else levels == old(levels)
      ensures exhausted <==> Exhausted(Config(), old(levels)[i], k, size, time)
    {
      assert TiedAt(i);
      var present, index := tables[i].Get(k);
      if present {
        exhausted := Spend(i, k, index, size, time);
        ok := true;
      } else {
        ok := Allocate(i, k, size, time);
        exhausted := false;
      }
    }

    /** Charges a packet at one level, and takes note of a bucket that cannot pay. */
    method Visit(src: Word, size: nat, time: int, level: nat, k: Word, length: nat, hit: Option<Hitter>,
                 ghost s: seq<Level>)
        returns (ok: bool, hit': Option<Hitter>)
      requires Tied() && level < |s| == |levels|
      requires k == And(src, Config().nets[level]) && NetOf(length) == Config().nets[level]
      requires Progress(Config(), s, levels, src, size, time, level, hit)
      modifies this, owned
      ensures Tied() && |levels| == |s|
      ensures ok <==> !Full(Config(), s[level], k)
      ensures Progress(Config(), s, levels, src, size, time, if ok then level + 1 else level, hit')
    {
      ghost var s1 := levels;
      NextLevel(Config(), s, s1, src, size, time, level, hit);
      var exhausted;
      ok, exhausted := ChargeLevel(level, k, size, time);
      hit' := hit;
      if ok {
        ProgressGoesOn(Config(), s, s1, levels[level], src, size, time, level, hit, exhausted, length);
        if exhausted {
          hit' := Some(Hitter(k, length));
        }
      }
    }

    /** Charges a packet at every level, shortest prefix first, until a level is full. */
    method Walk(src: Word, size: nat, time: int, ghost s: seq<Level>)
        returns (complete: bool, hit: Option<Hitter>, ghost m: nat)
      requires Tied() && |s| == |levels| && Progress(Config(), s, levels, src, size, time, 0, None)
      modifies this, owned
      ensures Tied() && |levels| == |s| && Progress(Config(), s, levels, src, size, time, m, hit)
      ensures complete <==> m == |s|
      ensures !complete ==> Full(Config(), s[m], And(src, Config().nets[m]))
    {
      hit := None;
      var mask, rest := 0, subnets;
      var level: nat := 0;
      var subnet := 0;
      while subnet < width
        invariant subnet <= width && level <= |s| && Reached(subnets, subnet, mask, rest, level)
        invariant Tied() && Progress(Config(), s, levels, src, size, time, level, hit)
      {
        NextLength(subnets, width, subnet, mask, rest, level);
        mask := Longer(mask);
        if Odd(rest) {
          var k := And(src, Word(Swap(mask)));
          var ok;
          ok, hit := Visit(src, size, time, level, k, subnet + 1, hit, s);
          if !ok {
            return false, hit, level;
          }
          level := level + 1;
        }
        rest := Half(rest);
        subnet := subnet + 1;
      }
      return true, hit, level;
    }

    /** Charges a packet at the levels, and reports the heavy hitter unless a full level stopped it. `m` is how
        many levels were charged. */
    method UpdateBuckets(src: Word, size: nat, time: int) returns (hit: Option<Hitter>, ghost m: nat)
      requires Valid() && NotAhead(levels, time) && Admissible(Config(), levels, src, size, 0)
      modifies this, owned
      ensures Valid() && NotAhead(levels, time)
      ensures Updated(Config(), old(levels), levels, src, size, time, m) && Stops(Config(), old(levels), src, m)
      ensures if m == |levels| then IsHitter(Config(), old(levels), src, size, time, m, hit) else hit == None
    {
      ghost var s := levels;
      ProgressBegins(Config(), s, src, size, time);
      var complete, found;
      complete, found, m := Walk(src, size, time, s);
      ProgressEnds(Config(), s, levels, src, size, time, m, found);
      hit := if complete then found else None;
    }

    /** The function only watches: what comes from inside goes outside and the other way round. */
    method Process(device: nat, ipv4: bool, src: Word, size: nat, time: int) returns (out: nat, hit: Option<Hitter>)
      requires Valid() && NotAhead(levels, time) && 0 <= time < B.WORD / 2
      requires ipv4 && device == wan && device != lan ==>
                 Admissible(Config(), AgedLevels(Config(), levels, time), src, size, 0)
      modifies this, owned
      ensures Valid() && NotAhead(levels, time)
      ensures out == if !ipv4 then device else if device == lan then wan else if device == wan then lan else device
      ensures var p := Packet(time, device == wan && device != lan, src, size);
              if ipv4
              then Next(Config(), old(levels), p, levels)
                   && (if p.outside then Reports(Config(), old(levels), p, hit) else hit.None?)
              else levels == old(levels) && hit.None?
    {
      hit := None;
      ghost var s := levels;
      if !ipv4 {
        return device, None;
      }
      ExpireEntries(time);
      ghost var aged := levels;
      assert aged == AgedLevels(Config(), s, time);
      if device == lan {
        out := wan;
      } else if device == wan {
        ghost var m;
        hit, m := UpdateBuckets(src, size, time);
        UpdatedGetsTo(Config(), aged, levels, src, size, time, m);
        out := lan;
      } else {
        out := device;
      }
    }
  }
}
