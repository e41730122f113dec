/** Runs of the expiring table under the packets of a network function, and what the presence of an
    entry says about the packets before it. */
module FlowRuns {
  import opened Coherence

  /** What a packet asks of the table, after old entries have been expired:
      nothing, to refresh a key, to refresh whatever key has an index, or to refresh-or-open a key.
      Opening takes the index the allocator picks and stores a value there. */
  datatype Request<K, V> =
    | Nothing
    | Refresh(key: K)
    | RefreshIndex(index: int)
    | Ensure(key: K, pick: nat, value: V)

  datatype Event<K, V> = Event(time: int, request: Request<K, V>)

  datatype State<K, V> = State(view: map<K, Entry>, vals: seq<V>)

  datatype Config = Config(capacity: nat, expiry: int)

  ghost function Aged<K, V>(c: Config, s: State<K, V>, time: int): (w: map<K, Entry>) {
    Expire(s.view, time - c.expiry)
  }

  ghost predicate Opens<K, V>(c: Config, s: State<K, V>, e: Event<K, V>) {
    var w := Aged(c, s, e.time);
    e.request.Ensure? && e.request.key !in w && |w| < c.capacity
  }

  /** The allocator picks a free index. */
  ghost predicate Legal<K, V>(c: Config, s: State<K, V>, e: Event<K, V>) {
    && UpTo(s.view, e.time)
    && (Opens(c, s, e) ==> e.request.pick < c.capacity && !Used(Aged(c, s, e.time), e.request.pick))
  }

  ghost function Step<K, V>(c: Config, s: State<K, V>, e: Event<K, V>): (s': State<K, V>)
    requires Good(c, s) && Legal(c, s, e)
  {
    var w := Aged(c, s, e.time);
    match e.request
    case Nothing => s.(view := w)
    case Refresh(k) => s.(view := if k in w then Touch(w, k, e.time) else w)
    case RefreshIndex(i) => s.(view := if 0 <= i && Used(w, i) then Touch(w, KeyOf(w, i), e.time) else w)
    case Ensure(k, pick, v) =>
      if k in w then s.(view := Touch(w, k, e.time))
      else if |w| < c.capacity then State(w[k := Entry(pick, e.time)], s.vals[pick := v])
      else s.(view := w)
  }

  ghost predicate Good<K, V>(c: Config, s: State<K, V>) {
    |s.vals| == c.capacity && GoodView(s.view, c.capacity)
  }

  lemma {:induction false} AgedIsGood<K, V>(c: Config, s: State<K, V>, time: int)
    requires Good(c, s)
    ensures GoodView(Aged(c, s, time), c.capacity)
  {
    ExpireIsGood(s.view, c.capacity, time - c.expiry);
  }

  lemma {:induction false} StepIsGood<K, V>(c: Config, s: State<K, V>, e: Event<K, V>)
    requires Good(c, s) && Legal(c, s, e)
    ensures Good(c, Step(c, s, e)) && UpTo(Step(c, s, e).view, e.time)
  {
    AgedIsGood(c, s, e.time);
    var w, s' := Aged(c, s, e.time), Step(c, s, e);
    assert UpTo(w, e.time);
    if Opens(c, s, e) {
      OpenIsGood(w, c.capacity, e.request.key, e.request.pick, e.time);
    } else if s'.view != w {
      var k := if e.request.RefreshIndex? then KeyOf(w, e.request.index) else e.request.key;
      TouchIsGood(w, c.capacity, k, e.time);
    }
  }

  /** Refreshing or opening a key, spelled out. */
  lemma {:induction false} EnsureStep<K, V>(c: Config, s: State<K, V>, e: Event<K, V>, w: map<K, Entry>,
                                            s': State<K, V>)
    requires Good(c, s) && UpTo(s.view, e.time) && e.request.Ensure? && w == Aged(c, s, e.time)
    requires var k, pick := e.request.key, e.request.pick;
             if k in w then s' == State(Touch(w, k, e.time), s.vals)
             else if |w| < c.capacity then
               pick < c.capacity && !Used(w, pick)
                 && s' == State(w[k := Entry(pick, e.time)], s.vals[pick := e.request.value])
             else s' == State(w, s.vals)
    ensures Legal(c, s, e) && s' == Step(c, s, e)
  {
  }

  // ----- One step, seen from one key

  /** A packet that refreshes key `k` while the key has index `i`. */
  ghost predicate Mentions<K, V>(e: Event<K, V>, k: K, i: nat) {
    match e.request
    case Nothing => false
    case Refresh(x) => x == k
    case RefreshIndex(x) => x == i
    case Ensure(x, _, _) => x == k
  }

  /** A live key is refreshed by the packets that mention it, and left alone by the others. */
  lemma {:induction false} StepOnLive<K, V>(c: Config, s: State<K, V>, e: Event<K, V>, k: K)
    requires Good(c, s) && Legal(c, s, e) && k in Aged(c, s, e.time)
    ensures var i, s' := s.view[k].index, Step(c, s, e);
            && k in s'.view && i < c.capacity
            && s'.view[k] == (if Mentions(e, k, i) then Entry(i, e.time) else s.view[k])
            && s'.vals[i] == s.vals[i]
  {
    AgedIsGood(c, s, e.time);
    var w, i := Aged(c, s, e.time), s.view[k].index;
    assert w[k] == s.view[k] && Used(w, i);
    KeyIsUnique(w, c.capacity, k);
  }

  /** A key that is not live comes to life only by a packet that opens it. */
  lemma {:induction false} StepOnDead<K, V>(c: Config, s: State<K, V>, e: Event<K, V>, k: K)
    requires Good(c, s) && Legal(c, s, e) && k !in Aged(c, s, e.time)
    ensures var s' := Step(c, s, e);
            if Opens(c, s, e) && e.request.key == k
            then k in s'.view && s'.view[k] == Entry(e.request.pick, e.time)
                 && e.request.pick < c.capacity && s'.vals[e.request.pick] == e.request.value
            else k !in s'.view
  {
  }

  // ----- Runs

  /** A run from an empty table: legal events with times that never decrease, and the states between them. */
  ghost predicate Run<K, V>(c: Config, run: seq<Event<K, V>>, states: seq<State<K, V>>) {
    && |states| == |run| + 1
    && states[0].view == map[] && |states[0].vals| == c.capacity
    && (forall i :: 0 <= i < |run| ==> IsStep(c, states[i], run[i], states[i + 1]))
    && Monotone(run)
  }

  ghost predicate IsStep<K, V>(c: Config, s: State<K, V>, e: Event<K, V>, s': State<K, V>) {
    Good(c, s) && Legal(c, s, e) && s' == Step(c, s, e)
  }

  ghost predicate OpensKey<K, V>(c: Config, run: seq<Event<K, V>>, states: seq<State<K, V>>, j: nat, k: K)
    requires j < |run| && j < |states|
  {
    Opens(c, states[j], run[j]) && run[j].request.key == k
  }

  /** Some packet since `j` mentioned the key no longer than the expiry time before `t`. */
  ghost predicate Fresh<K, V>(c: Config, run: seq<Event<K, V>>, k: K, i: nat, j: nat, n: nat, t: int) {
    exists p :: j <= p < n <= |run| && Mentions(run[p], k, i) && t - run[p].time <= c.expiry
  }

  /** From packet `j` on, up to time `t`, no gap between the packets of the key exceeds the expiry time. */
  ghost predicate Gapless<K, V>(c: Config, run: seq<Event<K, V>>, k: K, i: nat, j: nat, n: nat, t: int) {
    NoGapSoFar(c, run, k, i, j, n) && Fresh(c, run, k, i, j, n, t)
  }

  /** A packet seen from one flow: when it came, and whether it belongs to the flow. */
  datatype Activity = Activity(time: int, mine: bool)

  /** Some packet of the flow since `j` came no longer than the expiry time before `t`. */
  ghost predicate ActiveAt(c: Config, acts: seq<Activity>, j: nat, n: nat, t: int) {
    exists p :: j <= p < n <= |acts| && acts[p].mine && t - acts[p].time <= c.expiry
  }

  /** From packet `j` on, up to time `t`, no gap between the packets of the flow exceeds the expiry time. */
  ghost predicate Active(c: Config, acts: seq<Activity>, j: nat, n: nat, t: int) {
    && n <= |acts| && ActiveAt(c, acts, j, n, t)
    && forall q {:trigger ActiveAt(c, acts, j, q, acts[q].time)} ::
         j < q < n && acts[q].mine ==> ActiveAt(c, acts, j, q, acts[q].time)
  }

  /** The packets of the flow are those that mention its key. */
  ghost predicate Witnessed<K, V>(run: seq<Event<K, V>>, k: K, i: nat, acts: seq<Activity>) {
    |acts| == |run| && forall p :: 0 <= p < |run| ==> acts[p] == Activity(run[p].time, Mentions(run[p], k, i))
  }

  lemma {:induction false} ActiveAtIsFresh<K, V>(c: Config, run: seq<Event<K, V>>, k: K, i: nat, acts: seq<Activity>,
                                                 j: nat, n: nat, t: int)
    requires Witnessed(run, k, i, acts) && n <= |run|
    ensures ActiveAt(c, acts, j, n, t) <==> Fresh(c, run, k, i, j, n, t)
  {
    if p :| j <= p < n && acts[p].mine && t - acts[p].time <= c.expiry {
      assert Mentions(run[p], k, i) && t - run[p].time <= c.expiry;
    }
    if p :| j <= p < n && Mentions(run[p], k, i) && t - run[p].time <= c.expiry {
      assert acts[p].mine && t - acts[p].time <= c.expiry;
    }
  }

  /** Gaps between the packets of a flow are gaps in the use of its entry. */
  lemma {:induction false} ActiveIsGapless<K, V>(c: Config, run: seq<Event<K, V>>, k: K, i: nat, acts: seq<Activity>,
                                                 j: nat, n: nat, t: int)
    requires Witnessed(run, k, i, acts) && n <= |run|
    ensures Active(c, acts, j, n, t) <==> Gapless(c, run, k, i, j, n, t)
  {
    ActiveAtIsFresh(c, run, k, i, acts, j, n, t);
    forall q | j < q < n
      ensures acts[q].mine <==> Mentions(run[q], k, i)
      ensures ActiveAt(c, acts, j, q, acts[q].time) <==> Fresh(c, run, k, i, j, q, run[q].time)
    {
      ActiveAtIsFresh(c, run, k, i, acts, j, q, acts[q].time);
    }
  }

  /** `last` is the latest packet since `j` to mention the key. */
  ghost predicate IsLast<K, V>(run: seq<Event<K, V>>, k: K, i: nat, j: nat, last: nat, n: nat) {
    && j <= last < n <= |run| && Mentions(run[last], k, i)
    && forall q :: last < q < n ==> !Mentions(run[q], k, i)
  }

  /** What a state remembers of the packet that opened a key. */
  ghost predicate Remembers<K, V>(c: Config, run: seq<Event<K, V>>, s: State<K, V>, k: K, j: nat, last: nat)
    requires j < |run| && last < |run|
  {
    && run[j].request.Ensure? && k in s.view
    && s.view[k] == Entry(run[j].request.pick, run[last].time)
    && run[j].request.pick < |s.vals| && s.vals[run[j].request.pick] == run[j].request.value
  }

  /** The key is in the table and survives expiry at time `t`. */
  ghost predicate Live<K, V>(c: Config, s: State<K, V>, k: K, t: int) {
    k in s.view && t - s.view[k].time <= c.expiry
  }

  /** The effect of a packet on key `k`, live or not. */
  ghost predicate Effect<K, V>(c: Config, run: seq<Event<K, V>>, states: seq<State<K, V>>, m: nat, k: K)
    requires m < |run| && |states| == |run| + 1
  {
    if Live(c, states[m], k, run[m].time) then Refreshed(states[m], run[m], states[m + 1], k)
    else if OpensKey(c, run, states, m, k) then Remembers(c, run, states[m + 1], k, m, m)
    else k !in states[m + 1].view
  }

  /** All a run says about one key. */
  ghost predicate Follows<K, V>(c: Config, run: seq<Event<K, V>>, states: seq<State<K, V>>, k: K) {
    && |states| == |run| + 1
    && k !in states[0].view
    && (forall m :: 0 <= m < |run| ==> Effect(c, run, states, m, k))
    && Monotone(run)
  }

  ghost predicate Monotone<K, V>(run: seq<Event<K, V>>) {
    forall i, j :: 0 <= i <= j < |run| ==> run[i].time <= run[j].time
  }

  lemma {:induction false} RunFollows<K, V>(c: Config, run: seq<Event<K, V>>, states: seq<State<K, V>>, k: K)
    requires Run(c, run, states)
    ensures Follows(c, run, states, k)
  {
    forall m | 0 <= m < |run|
      ensures Effect(c, run, states, m, k)
    {
      StepEffect(c, run, states, m, k);
    }
  }

  lemma {:induction false} StepEffect<K, V>(c: Config, run: seq<Event<K, V>>, states: seq<State<K, V>>, m: nat, k: K)
    requires m < |run| && |states| == |run| + 1 && IsStep(c, states[m], run[m], states[m + 1])
    ensures Effect(c, run, states, m, k)
  {
    if Live(c, states[m], k, run[m].time) {
      StepOnLive(c, states[m], run[m], k);
    } else {
      StepOnDead(c, states[m], run[m], k);
    }
  }

  ghost predicate Refreshed<K, V>(s: State<K, V>, e: Event<K, V>, s': State<K, V>, k: K) {
    && k in s.view && k in s'.view && |s'.vals| == |s.vals|
    && var i := s.view[k].index;
    && i < |s.vals| && s'.vals[i] == s.vals[i]
    && s'.view[k] == if Mentions(e, k, i) then Entry(i, e.time) else s.view[k]
  }

  /** Remembering goes on from one state to the next. */
  lemma {:induction false} RemembersOn<K, V>(c: Config, run: seq<Event<K, V>>, s: State<K, V>, s': State<K, V>,
                          k: K, j: nat, last: nat, m: nat) returns (last': nat)
    requires m < |run| && j <= last < m && Remembers(c, run, s, k, j, last)
    requires IsLast(run, k, run[j].request.pick, j, last, m) && Refreshed(s, run[m], s', k)
    ensures IsLast(run, k, run[j].request.pick, j, last', m + 1) && Remembers(c, run, s', k, j, last')
  {
    last' := if Mentions(run[m], k, run[j].request.pick) then m else last;
  }

  /** History of a live entry: the packet that opened it, and its packets since. */
  lemma {:induction false} History<K, V>(c: Config, run: seq<Event<K, V>>, states: seq<State<K, V>>, n: nat, k: K)
      returns (j: nat, last: nat)
    requires Follows(c, run, states, k) && n < |states| && k in states[n].view
    ensures j < n && OpensKey(c, run, states, j, k) && IsLast(run, k, run[j].request.pick, j, last, n)
    ensures Remembers(c, run, states[n], k, j, last)
    ensures NoGapSoFar(c, run, k, run[j].request.pick, j, n)
    decreases n
  {
    var s, e := states[n - 1], run[n - 1];
    assert Effect(c, run, states, n - 1, k);
    if Live(c, s, k, e.time) {
      j, last := History(c, run, states, n - 1, k);
      NoGapExtends(c, run, k, run[j].request.pick, j, last, n - 1);
      last := RemembersOn(c, run, s, states[n], k, j, last, n - 1);
    } else {
      j, last := n - 1, n - 1;
    }
  }

  ghost predicate NoGapSoFar<K, V>(c: Config, run: seq<Event<K, V>>, k: K, i: nat, j: nat, n: nat) {
    n <= |run| && forall q {:trigger Fresh(c, run, k, i, j, q, run[q].time)} ::
      j < q < n && Mentions(run[q], k, i) ==> Fresh(c, run, k, i, j, q, run[q].time)
  }

  lemma {:induction false} NoGapExtends<K, V>(c: Config, run: seq<Event<K, V>>, k: K, i: nat, j: nat, last: nat,
                                              m: nat)
    requires m < |run| && NoGapSoFar(c, run, k, i, j, m) && IsLast(run, k, i, j, last, m)
    requires run[m].time - run[last].time <= c.expiry
    ensures NoGapSoFar(c, run, k, i, j, m + 1)
  {
    assert Fresh(c, run, k, i, j, m, run[m].time);
  }

  lemma {:induction false} FreshThroughout<K, V>(c: Config, run: seq<Event<K, V>>,
                                                 k: K, i: nat, j: nat, n: nat, t: int, q: nat)
    requires Monotone(run) && Gapless(c, run, k, i, j, n, t) && j < q < n && t >= run[n - 1].time
    ensures Fresh(c, run, k, i, j, q, run[q].time)
    decreases n - q
  {
    if !Mentions(run[q], k, i) {
      var t' := if q + 1 == n then t else run[q + 1].time;
      if q + 1 < n {
        FreshThroughout(c, run, k, i, j, n, t, q + 1);
      }
      var p :| j <= p < q + 1 && Mentions(run[p], k, i) && t' - run[p].time <= c.expiry;
      assert p < q && run[q].time <= t';
    }
  }

  /** A key stays live as long as its packets leave no gap. */
  lemma {:induction false} Survives<K, V>(c: Config, run: seq<Event<K, V>>, states: seq<State<K, V>>,
                                          j: nat, n: nat, t: int, k: K, m: nat)
      returns (last: nat)
    requires Follows(c, run, states, k) && j < m <= n <= |run| && t >= run[n - 1].time
    requires run[j].request.Ensure? && run[j].request.key == k && Remembers(c, run, states[j + 1], k, j, j)
    requires Gapless(c, run, k, run[j].request.pick, j, n, t)
    ensures IsLast(run, k, run[j].request.pick, j, last, m)
    ensures Remembers(c, run, states[m], k, j, last)
    decreases m
  {
    if m == j + 1 {
      last := j;
    } else {
      last := Survives(c, run, states, j, n, t, k, m - 1);
      FreshThroughout(c, run, k, run[j].request.pick, j, n, t, m - 1);
      last := SurvivesOne(c, run, states, j, k, m - 1, last);
    }
  }

  lemma {:induction false} SurvivesOne<K, V>(c: Config, run: seq<Event<K, V>>, states: seq<State<K, V>>,
                          j: nat, k: K, m: nat, last: nat) returns (last': nat)
    requires |states| == |run| + 1 && j <= last < m < |run| && run[j].request.Ensure? && Monotone(run)
    requires Effect(c, run, states, m, k) && Remembers(c, run, states[m], k, j, last)
    requires IsLast(run, k, run[j].request.pick, j, last, m)
    requires Fresh(c, run, k, run[j].request.pick, j, m, run[m].time)
    ensures IsLast(run, k, run[j].request.pick, j, last', m + 1)
    ensures Remembers(c, run, states[m + 1], k, j, last')
  {
    LiveWhenFresh(c, run, states[m], k, run[j].request.pick, j, last, m, run[m].time);
    last' := RemembersOn(c, run, states[m], states[m + 1], k, j, last, m);
  }

  lemma {:induction false} LiveWhenFresh<K, V>(c: Config, run: seq<Event<K, V>>, s: State<K, V>, k: K, i: nat,
                            j: nat, last: nat, n: nat, t: int)
    requires Monotone(run) && IsLast(run, k, i, j, last, n) && Fresh(c, run, k, i, j, n, t)
    requires k in s.view && s.view[k].time == run[last].time
    ensures Live(c, s, k, t)
  {
    var p :| j <= p < n && Mentions(run[p], k, i) && t - run[p].time <= c.expiry;
    assert p <= last;
  }

  /** Exactly when a key is live at time `t`: some packet opened it, and since then no gap between its
      packets, up to `t`, exceeded the expiry time. */
  lemma {:induction false} LiveExactly<K, V>(c: Config, run: seq<Event<K, V>>, states: seq<State<K, V>>, n: nat,
                                             t: int, k: K)
    requires Run(c, run, states) && n <= |run| && (n == 0 || t >= run[n - 1].time)
    ensures Live(c, states[n], k, t) <==>
            exists j :: 0 <= j < n && OpensKey(c, run, states, j, k)
                        && Gapless(c, run, k, run[j].request.pick, j, n, t)
  {
    RunFollows(c, run, states, k);
    if Live(c, states[n], k, t) {
      var j := Opener(c, run, states, n, t, k);
    }
    if j: nat :| j < n && OpensKey(c, run, states, j, k) && Gapless(c, run, k, run[j].request.pick, j, n, t) {
      LiveEntry(c, run, states, n, t, k, j);
    }
  }

  /** The packet that opened a live key. */
  lemma {:induction false} Opener<K, V>(c: Config, run: seq<Event<K, V>>, states: seq<State<K, V>>, n: nat, t: int,
                                        k: K)
      returns (j: nat)
    requires Follows(c, run, states, k) && n <= |run| && Live(c, states[n], k, t)
    ensures j < n && OpensKey(c, run, states, j, k) && Gapless(c, run, k, run[j].request.pick, j, n, t)
    ensures Holds(run, states[n], k, j)
  {
    var last;
    j, last := History(c, run, states, n, k);
    assert Fresh(c, run, k, run[j].request.pick, j, n, t);
  }

  /** The state holds the index and the value of the packet that opened the key. */
  ghost predicate Holds<K, V>(run: seq<Event<K, V>>, s: State<K, V>, k: K, j: nat)
    requires j < |run|
  {
    && run[j].request.Ensure? && k in s.view && s.view[k].index == run[j].request.pick
    && run[j].request.pick < |s.vals| && s.vals[run[j].request.pick] == run[j].request.value
  }

  /** A key without gaps is live, with the index and value of the packet that opened it. */
  lemma {:induction false} LiveEntry<K, V>(c: Config, run: seq<Event<K, V>>, states: seq<State<K, V>>, n: nat,
                                           t: int, k: K, j: nat)
    requires Follows(c, run, states, k) && n <= |run| && j < n && t >= run[n - 1].time
    requires OpensKey(c, run, states, j, k) && Gapless(c, run, k, run[j].request.pick, j, n, t)
    ensures Live(c, states[n], k, t) && Holds(run, states[n], k, j)
  {
    assert Effect(c, run, states, j, k);
    var last := Survives(c, run, states, j, n, t, k, n);
    LiveWhenFresh(c, run, states[n], k, run[j].request.pick, j, last, n, t);
  }

  lemma {:induction false} StatesAreGood<K, V>(c: Config, run: seq<Event<K, V>>, states: seq<State<K, V>>, n: nat)
    requires Run(c, run, states) && n < |states|
    ensures Good(c, states[n])
    ensures n > 0 ==> UpTo(states[n].view, run[n - 1].time)
  {
    if n > 0 {
      assert IsStep(c, states[n - 1], run[n - 1], states[n]);
      StepIsGood(c, states[n - 1], run[n - 1]);
    }
  }
}
