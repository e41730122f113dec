/** A token bucket in a table that forgets idle buckets, as the packets of a run drive it: the policer has one for each
    destination, the heavy hitter one for each prefix. */
module TokenBucket {
  import P = Primes

  const SECOND: int := 1_000_000_000
  const WORD: int := 0x1_0000_0000_0000_0000
  const MAX_SIZE: nat := 65535      // packet lengths are 16-bit

  /** `fill` is the pause after which a bucket is filled up, `expiry` how long an idle bucket is kept. */
  datatype Config = Config(rate: nat, burst: nat, fill: nat, expiry: int)

  /** Rate and burst are 64-bit, the rate is a divisor, and the expiry time is a signed 64-bit number. */
  predicate Sound(c: Config) {
    0 < c.rate < WORD && c.burst < WORD && -(WORD / 2) < c.expiry <= WORD / 2
  }

  /** A 64-bit product read as a signed number. Subtracting the least one from a time is subtracting 2^63. */
  function Signed(x: nat): (r: int)
    ensures -(WORD / 2) < r <= WORD / 2
  {
    if x % WORD <= WORD / 2 then x % WORD else x % WORD - WORD
  }

  /** The time to fill a bucket: the product wraps around at 64 bits. */
  function FillTime(rate: nat, burst: nat): (t: nat)
    requires rate > 0
  {
    burst * SECOND % WORD / rate
  }

  /** The policer keeps an idle bucket for `burst / rate` seconds, truncated to whole seconds. */
  function BySeconds(rate: nat, burst: nat): (c: Config)
    requires rate > 0
  {
    Config(rate, burst, FillTime(rate, burst), Signed(SECOND * (burst / rate)))
  }

  /** The heavy hitter keeps an idle bucket for the time it takes to fill it. */
  function ByFilling(rate: nat, burst: nat): (c: Config)
    requires rate > 0
  {
    Config(rate, burst, FillTime(rate, burst), Signed(FillTime(rate, burst)))
  }

  // Always true. It keeps the divisions of a configuration out of sight of the verifier until it is mentioned.
  ghost predicate Show(u: int) { true }

  ghost predicate KeptBySeconds(c: Config) {
    forall u: int {:trigger Show(u)} :: Show(u) ==> c.rate > 0 && c == BySeconds(c.rate, c.burst)
  }

  ghost predicate KeptByFilling(c: Config) {
    forall u: int {:trigger Show(u)} :: Show(u) ==> c.rate > 0 && c == ByFilling(c.rate, c.burst)
  }

  /** Buckets last used before the threshold are forgotten; a negative expiry time may make it wrap around. */
  function Threshold(c: Config, now: int): (t: int) {
    if c.expiry < 0 && now - c.expiry >= WORD / 2 then now - c.expiry - WORD else now - c.expiry
  }

  /** For every time that the clock can show, the threshold is the signed 64-bit difference. */
  lemma {:induction false} ThresholdIsSigned(product: nat, c: Config, now: int)
    requires c.expiry == Signed(product) && 0 <= now < WORD / 2
    ensures -(WORD / 2) <= Threshold(c, now) < WORD / 2
    ensures (Threshold(c, now) - (now - product)) % WORD == 0
  {
    var k := product / WORD;
    assert product == WORD * k + product % WORD;
    var x := Threshold(c, now) - (now - product);
    assert x == WORD * k || x == WORD * (k + 1) || x == WORD * (k - 1);
    P.MultipleHasNoRemainder(WORD, k);
    P.MultipleHasNoRemainder(WORD, k + 1);
    P.MultipleHasNoRemainder(WORD, k - 1);
  }

  /** The difference of a time and an unsigned product, in 64 bits, read as a signed number. */
  method MinTime(c: Config, product: nat, time: int) returns (t: int)
    requires c.expiry == Signed(product) && 0 <= time < WORD / 2
    ensures t == Threshold(c, time)
  {
    t := (time - product) % WORD;
    ThresholdIsSigned(product, c, time);
    P.SameRemainder(Threshold(c, time), time - product, WORD);
    if t >= WORD / 2 {
      P.RemainderIsUnique(Threshold(c, time), WORD, -1, Threshold(c, time) + WORD);
      t := t - WORD;
    }
  }

  /** The threshold of the policer. */
  method SecondsBefore(c: Config, time: int) returns (t: int)
    requires KeptBySeconds(c) && 0 <= time < WORD / 2
    ensures t == Threshold(c, time)
  {
    assert Show(0);
    t := MinTime(c, SECOND * (c.burst / c.rate), time);
  }

  /** The threshold of the heavy hitter. */
  method FillBefore(c: Config, time: int) returns (t: int)
    requires KeptByFilling(c) && 0 <= time < WORD / 2
    ensures t == Threshold(c, time)
  {
    assert Show(0);
    t := MinTime(c, SECOND * c.burst % WORD / c.rate, time);
  }

  datatype Bucket = Bucket(size: nat, time: int)

  datatype Cell = Absent | Present(bucket: Bucket)

  /** The tokens in a bucket at time `now`, with integer truncation. */
  function Refill(c: Config, b: Bucket, now: int): (level: nat)
    requires Sound(c) && b.time <= now
    ensures b.size <= c.burst ==> level <= c.burst
  {
    var diff := now - b.time;
    if diff < c.fill then
      AddedIsNat(c.rate, diff);
      var level := (b.size + diff * c.rate / SECOND) % WORD;
      if level > c.burst then c.burst else level
    else c.burst
  }

  lemma {:induction false} AddedIsNat(rate: nat, diff: int)
    requires diff >= 0
    ensures diff * rate >= 0 && diff * rate / SECOND >= 0
  {
    assert diff * rate >= 0;
  }

  /** The guard of the refill keeps its product in 64 bits, however long the pause, and below the capacity of the
      bucket. */
  lemma {:induction false} GuardBoundsProduct(c: Config, diff: int)
    requires Sound(c) && c.fill == FillTime(c.rate, c.burst) && 0 <= diff < c.fill
    ensures diff * c.rate < WORD && diff * c.rate < c.burst * SECOND
  {
    FillBounds(c.rate, c.burst);
    SmallerProduct(c.rate, diff, c.fill);
  }

  lemma {:induction false} FillBounds(rate: nat, burst: nat)
    requires rate > 0
    ensures rate * FillTime(rate, burst) <= burst * SECOND % WORD < rate * (FillTime(rate, burst) + 1)
  {
    assert rate * (FillTime(rate, burst) + 1) == rate * FillTime(rate, burst) + rate;
  }

  lemma {:induction false} FillIsWord(rate: nat, burst: nat)
    requires rate > 0
    ensures FillTime(rate, burst) < WORD
    ensures Signed(FillTime(rate, burst))
         == if FillTime(rate, burst) <= WORD / 2 then FillTime(rate, burst) else FillTime(rate, burst) - WORD
  {
    FillBounds(rate, burst);
    P.ProductGrows(FillTime(rate, burst), 1, rate);
    assert FillTime(rate, burst) * rate == rate * FillTime(rate, burst);
  }

  lemma {:induction false} SmallerProduct(rate: nat, x: int, y: int)
    requires rate > 0 && x < y
    ensures x * rate < rate * y
  {
    assert rate * y - x * rate == (y - x) * rate;
    P.ProductAtLeast(rate, y - x);
    assert rate * (y - x) == (y - x) * rate;
  }

  /** What is in a bucket after a pause that does not fill it up. */
  method Earned(rate: nat, burst: nat, size: nat, timeDiff: int) returns (level: nat)
    requires 0 <= timeDiff * rate < WORD
    ensures level == var x := (size + timeDiff * rate / SECOND) % WORD; if x > burst then burst else x
  {
    var gained := timeDiff * rate;
    assert gained % WORD == gained;
    level := (size + gained % WORD / SECOND) % WORD;
    if level > burst {
      level := burst;
    }
  }

  /** Adds the tokens a bucket has earned since it was last used. */
  method TokensAt(c: Config, value: Bucket, time: int) returns (level: nat)
    requires Sound(c) && (KeptBySeconds(c) || KeptByFilling(c)) && value.time <= time
    ensures level == Refill(c, value, time)
  {
    assert Show(0);
    var timeDiff := time - value.time;
    level := c.burst;
    if timeDiff < c.burst * SECOND % WORD / c.rate {
      GuardBoundsProduct(c, timeDiff);
      AddedIsNat(c.rate, timeDiff);
      level := Earned(c.rate, c.burst, value.size, timeDiff);
    }
  }

  /** What a packet means for the bucket of one destination: nothing at all (it is not IPv4), expiry only, or
      policing of `size` bytes; `room` says whether the table has room should the destination be new. */
  datatype Kind = Skip | Tick | Police(size: nat, room: bool)

  datatype Arrival = Arrival(time: int, kind: Kind)

  function Aged(c: Config, o: Cell, now: int): (r: Cell)
    requires Sound(c)
  {
    if o.Present? && o.bucket.time < Threshold(c, now) then Absent else o
  }

  predicate UpTo(o: Cell, now: int) {
    o.Present? ==> o.bucket.time <= now
  }

  function Forwards(c: Config, o: Cell, a: Arrival): (fwd: bool)
    requires Sound(c) && UpTo(o, a.time)
  {
    a.kind.Police? &&
    match Aged(c, o, a.time)
    case Present(b) => Refill(c, b, a.time) > a.kind.size
    case Absent => a.kind.size <= c.burst && a.kind.room
  }

  function Sent(c: Config, o: Cell, a: Arrival): (bytes: nat)
    requires Sound(c) && UpTo(o, a.time)
  {
    if Forwards(c, o, a) then a.kind.size else 0
  }

  function Step(c: Config, o: Cell, a: Arrival): (r: Cell)
    requires Sound(c) && UpTo(o, a.time)
    ensures UpTo(r, a.time)
  {
    match a.kind
    case Skip => o
    case Tick => Aged(c, o, a.time)
    case Police(size, room) =>
      match Aged(c, o, a.time)
      case Present(b) =>
        var level := Refill(c, b, a.time);
        Present(Bucket(if level > size then level - size else level, a.time))
      case Absent => if size <= c.burst && room then Present(Bucket(c.burst - size, a.time)) else Absent
  }

  // ----- Runs

  ghost predicate Timely(as_: seq<Arrival>) {
    && (forall i, j :: 0 <= i <= j < |as_| ==> as_[i].time <= as_[j].time)
    && (forall i :: 0 <= i < |as_| && as_[i].kind.Police? ==> as_[i].kind.size <= MAX_SIZE)
  }

  ghost function After(c: Config, run: seq<Arrival>): (o: Cell)
    requires Sound(c) && Timely(run)
    ensures run != [] ==> UpTo(o, run[|run| - 1].time)
    ensures run == [] ==> o == Absent
  {
    if run == [] then Absent
    else
      var n := |run| - 1;
      assert run[..n] != [] ==> run[..n][n - 1].time <= run[n].time;
      Step(c, After(c, run[..n]), run[n])
  }

  /** Bytes forwarded from packet `lo` on. */
  ghost function Bytes(c: Config, run: seq<Arrival>, lo: nat): (bytes: nat)
    requires Sound(c) && Timely(run)
  {
    if |run| <= lo then 0
    else
      var n := |run| - 1;
      assert run[..n] != [] ==> run[..n][n - 1].time <= run[n].time;
      Bytes(c, run[..n], lo) + Sent(c, After(c, run[..n]), run[n])
  }

  /** In every run and every window of it the bytes forwarded are at most the burst and what the rate adds, for a
      rate and a burst that need not be the bucket's own. */
  ghost predicate Within(c: Config, rate: nat, burst: nat)
    requires Sound(c)
  {
    forall run: seq<Arrival>, lo: nat :: Timely(run) && lo < |run| ==> WithinFrom(c, rate, burst, run, lo)
  }

  ghost predicate WithinFrom(c: Config, rate: nat, burst: nat, run: seq<Arrival>, lo: nat)
    requires Sound(c) && Timely(run) && lo < |run|
  {
    Bytes(c, run, lo) <= burst + rate * (run[|run| - 1].time - run[lo].time) / SECOND
  }

  // ----- When it holds

  /** The most that can be forwarded at one instant: a fresh bucket can be emptied by one packet, otherwise
      one byte always stays behind. */
  function Usable(c: Config): (u: nat)
    ensures u <= c.burst
  {
    if c.burst <= MAX_SIZE then c.burst else c.burst - 1
  }

  /** The shortest pause after which a bucket is forgotten. */
  function Gap(c: Config): (g: nat) {
    if c.expiry < 0 then 0 else c.expiry + 1
  }

  /** Within the rate, a bucket is forgotten only when it would have been full, and is filled up early only where
      one byte is the most that is given away. */
  ghost predicate Honest(c: Config, rate: nat) {
    forall u: int {:trigger Show(u)} :: Show(u) ==> HonestOpen(c, rate)
  }

  predicate HonestOpen(c: Config, rate: nat) {
    && rate * Gap(c) >= Usable(c) * SECOND
    && (c.fill <= c.expiry ==> rate * c.fill >= (c.burst - 1) * SECOND)
  }

  /** The products that the bucket computes with are what they should be. */
  predicate Fits(c: Config)
    requires Sound(c)
  {
    c.burst * SECOND < WORD && SECOND * (c.burst / c.rate) < WORD / 2
  }

  /** A rate that divides the burst is honest if and only if the products fit. */
  lemma {:induction false} DividingRateExactly(c: Config)
    requires Sound(c) && c == BySeconds(c.rate, c.burst) && c.burst % c.rate == 0 && c.burst > 0
    ensures Honest(c, c.rate) <==> Fits(c)
  {
    var q := c.burst / c.rate;
    DividingParts(c.rate, c.burst, q, c.fill);
    HonestIfFitting(c, q);
  }

  lemma {:induction false} DividingParts(rate: nat, burst: nat, q: nat, fill: nat)
    requires rate > 0 && burst % rate == 0 && q == burst / rate && fill == FillTime(rate, burst)
    ensures rate * (SECOND * q) == SECOND * burst
    ensures if burst * SECOND < WORD then fill == SECOND * q else rate * fill <= burst * SECOND - WORD
  {
    Dividing(rate, burst, q);
    DividingFill(rate, burst, q, fill);
  }

  lemma {:induction false} HonestIfFitting(c: Config, q: nat)
    requires Sound(c) && c.burst > 0 && c.rate * (SECOND * q) == SECOND * c.burst && c.expiry == Signed(SECOND * q)
    requires if c.burst * SECOND < WORD then c.fill == SECOND * q else c.rate * c.fill <= c.burst * SECOND - WORD
    ensures Honest(c, c.rate) <==> c.burst * SECOND < WORD && SECOND * q < WORD / 2
  {
    if SECOND * q >= WORD / 2 {
      WrappedForgetsTooSoon(c, q);
    } else if c.burst * SECOND < WORD {
      FittingIsHonest(c, q);
    } else {
      WrappedFillsTooSoon(c, q);
    }
  }

  lemma {:induction false} Dividing(rate: nat, burst: nat, q: nat)
    requires rate > 0 && burst % rate == 0 && q == burst / rate
    ensures rate * q == burst && rate * (SECOND * q) == SECOND * burst && burst * SECOND / rate == SECOND * q
  {
    assert rate * q == burst;
    Reorder(rate, SECOND, q);
    P.RemainderIsUnique(burst * SECOND, rate, SECOND * q, 0);
  }

  lemma {:induction false} DividingFill(rate: nat, burst: nat, q: nat, fill: nat)
    requires rate > 0 && burst * SECOND / rate == SECOND * q && fill == FillTime(rate, burst)
    ensures if burst * SECOND < WORD then fill == SECOND * q else rate * fill <= burst * SECOND - WORD
  {
    Wrapped(burst * SECOND);
    FillBounds(rate, burst);
  }

  lemma {:induction false} Wrapped(x: nat)
    ensures if x < WORD then x % WORD == x else x % WORD <= x - WORD
  {
  }

  lemma {:induction false} FittingIsHonest(c: Config, q: nat)
    requires Sound(c) && c.fill == SECOND * q == c.expiry && c.rate * (SECOND * q) == SECOND * c.burst
    ensures Honest(c, c.rate)
  {
    assert Show(0);
    assert c.rate * (SECOND * q + 1) == SECOND * c.burst + c.rate;
  }

  lemma {:induction false} WrappedFillsTooSoon(c: Config, q: nat)
    requires Sound(c) && c.expiry == SECOND * q && c.rate * (SECOND * q) == SECOND * c.burst
    requires c.rate * c.fill <= c.burst * SECOND - WORD
    ensures !Honest(c, c.rate)
  {
    assert Show(0);
    if c.fill > SECOND * q {
      P.ProductGrows(c.rate, SECOND * q, c.fill);
    }
  }

  lemma {:induction false} WrappedForgetsTooSoon(c: Config, q: nat)
    requires Sound(c) && c.expiry == Signed(SECOND * q) && c.rate * (SECOND * q) == SECOND * c.burst && c.burst > 0
    requires SECOND * q >= WORD / 2
    ensures !Honest(c, c.rate)
  {
    assert Show(0);
    if SECOND * q % WORD <= WORD / 2 {
      assert SECOND * q != WORD / 2;
      assert Gap(c) <= SECOND * q - WORD + 1;
      P.ProductGrows(c.rate, Gap(c), SECOND * q - WORD + 1);
      assert c.rate * (SECOND * q - WORD + 1) == SECOND * c.burst - c.rate * (WORD - 1);
    } else {
      assert c.rate * Gap(c) == c.rate * 0 == 0;
    }
  }

  /** For a bucket kept until it is full, at a rate of at most a byte per nanosecond: the rate is honest if and only if
      the products fit. */
  lemma {:induction false} FillingRateExactly(c: Config)
    requires Sound(c) && c == ByFilling(c.rate, c.burst) && c.rate <= SECOND && c.burst > 0
    ensures Honest(c, c.rate) <==> c.burst * SECOND < WORD && c.fill <= WORD / 2
  {
    FillIsWord(c.rate, c.burst);
    FillBounds(c.rate, c.burst);
    Wrapped(c.burst * SECOND);
    HonestIfFilling(c);
  }

  lemma {:induction false} HonestIfFilling(c: Config)
    requires Sound(c) && c.rate <= SECOND && c.burst > 0
    requires c.expiry == if c.fill <= WORD / 2 then c.fill else c.fill - WORD
    requires if c.burst * SECOND < WORD then c.rate * c.fill <= c.burst * SECOND < c.rate * (c.fill + 1)
             else c.rate * c.fill <= c.burst * SECOND - WORD
    requires c.fill < WORD
    ensures Honest(c, c.rate) <==> c.burst * SECOND < WORD && c.fill <= WORD / 2
  {
    assert Show(0);
    assert c.rate * (c.fill + 1) == c.rate * c.fill + c.rate;
    if c.fill > WORD / 2 {
      assert c.rate * Gap(c) == c.rate * 0 == 0;
    }
  }

  /** What a bucket is worth at time `t`, in billionths of a byte. */
  function Worth(c: Config, rate: nat, o: Cell, t: int): (v: int)
    requires UpTo(o, t)
  {
    var full := Usable(c) * SECOND;
    match o
    case Absent => full
    case Present(b) =>
      var v := SECOND * (if b.size == 0 then 0 else b.size - 1) + rate * (t - b.time);
      if v > full then full else v
  }

  predicate InRange(c: Config, o: Cell) {
    o.Present? ==> o.bucket.size <= c.burst
  }

  lemma {:induction false} StepInRange(c: Config, o: Cell, a: Arrival)
    requires Sound(c) && UpTo(o, a.time) && InRange(c, o)
    ensures InRange(c, Step(c, o, a))
  {
  }

  lemma {:induction false} WorthGrows(c: Config, rate: nat, o: Cell, t: int, t': int)
    requires UpTo(o, t) && t <= t'
    ensures Worth(c, rate, o, t') <= Worth(c, rate, o, t) + rate * (t' - t)
  {
    assert rate * (t' - t) >= 0;
    if o.Present? {
      assert rate * (t' - o.bucket.time) == rate * (t - o.bucket.time) + rate * (t' - t);
    }
  }

  lemma {:induction false} ExpiryIsFree(c: Config, rate: nat, o: Cell, now: int)
    requires Sound(c) && Honest(c, rate) && UpTo(o, now)
    ensures Worth(c, rate, Aged(c, o, now), now) <= Worth(c, rate, o, now)
  {
    assert Show(0);
    if Aged(c, o, now) != o {
      P.ProductGrows(rate, Gap(c), now - o.bucket.time);
    }
  }

  /** Refilling adds no more than the bucket has gained in worth; one token is never worth anything. */
  lemma {:induction false} RefillIsPaid(c: Config, rate: nat, b: Bucket, now: int)
    requires Sound(c) && c.rate <= rate && Honest(c, rate) && b.size <= c.burst && Threshold(c, now) <= b.time <= now
    ensures SECOND * (Refill(c, b, now) - 1)
         <= SECOND * (if b.size == 0 then 0 else b.size - 1) + rate * (now - b.time)
  {
    var dt := now - b.time;
    if dt < c.fill {
      AddedIsNat(c.rate, dt);
      PartIsPaid(c.rate, rate, b.size, dt, c.burst);
    } else {
      FillIsPaid(c, rate, b.size, dt);
    }
  }

  lemma {:induction false} FillIsPaid(c: Config, rate: nat, size: nat, dt: int)
    requires Sound(c) && Honest(c, rate) && c.fill <= dt && (c.expiry < 0 || dt <= c.expiry)
    ensures SECOND * (c.burst - 1) <= SECOND * (if size == 0 then 0 else size - 1) + rate * dt
  {
    assert Show(0);
    P.ProductGrows(rate, 0, dt);
    if c.expiry < 0 {
      assert rate * Gap(c) == rate * 0 == 0;
    } else {
      P.ProductGrows(rate, c.fill, dt);
    }
  }

  lemma {:induction false} PartIsPaid(own: nat, rate: nat, size: nat, dt: int, burst: nat)
    requires own <= rate && dt >= 0 && dt * own >= 0
    ensures var level := (size + dt * own / SECOND) % WORD;
            SECOND * ((if level > burst then burst else level) - 1)
            <= SECOND * (if size == 0 then 0 else size - 1) + rate * dt
  {
    assert (size + dt * own / SECOND) % WORD <= size + dt * own / SECOND;
    assert SECOND * (dt * own / SECOND) <= dt * own;
    P.ProductGrows(dt, own, rate);
    assert dt * rate == rate * dt;
  }

  /** Policing pays for the bytes it forwards out of the worth of the bucket. */
  lemma {:induction false} StepIsPaid(c: Config, rate: nat, o: Cell, a: Arrival)
    requires Sound(c) && c.rate <= rate && Honest(c, rate) && UpTo(o, a.time) && InRange(c, o)
    requires a.kind.Police? ==> a.kind.size <= MAX_SIZE
    ensures SECOND * Sent(c, o, a) + Worth(c, rate, Step(c, o, a), a.time) <= Worth(c, rate, o, a.time)
  {
    ExpiryIsFree(c, rate, o, a.time);
    if a.kind.Police? {
      var aged := Aged(c, o, a.time);
      assert rate * (a.time - a.time) == rate * 0 == 0;
      if aged.Present? {
        RefillIsPaid(c, rate, aged.bucket, a.time);
        ChargeIsPaid(c, rate, aged.bucket, a, Refill(c, aged.bucket, a.time));
      }
    }
  }

  lemma {:induction false} ChargeIsPaid(c: Config, rate: nat, b: Bucket, a: Arrival, level: nat)
    requires Sound(c) && b.time <= a.time && a.kind.Police? && level <= c.burst
    requires SECOND * (level - 1) <= SECOND * (if b.size == 0 then 0 else b.size - 1) + rate * (a.time - b.time)
    ensures var size := a.kind.size;
            var left := Present(Bucket(if level > size then level - size else level, a.time));
            SECOND * (if level > size then size else 0) + Worth(c, rate, left, a.time)
            <= Worth(c, rate, Present(b), a.time)
  {
    assert rate * (a.time - a.time) == rate * 0 == 0;
    P.ProductGrows(rate, 0, a.time - b.time);
  }

  lemma {:induction false} AfterInRange(c: Config, run: seq<Arrival>)
    requires Sound(c) && Timely(run)
    ensures InRange(c, After(c, run))
  {
    if run != [] {
      var n := |run| - 1;
      AfterInRange(c, run[..n]);
      StepInRange(c, After(c, run[..n]), run[n]);
    }
  }

  /** Bytes forwarded since packet `lo` and what is left in the bucket stay within one bucket and the rate. */
  lemma {:induction false} PaidSince(c: Config, rate: nat, run: seq<Arrival>, lo: nat)
    requires Sound(c) && c.rate <= rate && Honest(c, rate) && Timely(run) && lo < |run|
    ensures var last := run[|run| - 1].time;
            SECOND * Bytes(c, run, lo) + Worth(c, rate, After(c, run), last)
            <= Usable(c) * SECOND + rate * (last - run[lo].time)
    decreases |run|
  {
    var n := |run| - 1;
    var before, a := run[..n], run[n];
    AfterInRange(c, before);
    assert before != [] ==> before[n - 1].time <= a.time;
    assert Bytes(c, run, lo) == (if lo < n then Bytes(c, before, lo) else 0) + Sent(c, After(c, before), a);
    if lo < n {
      PaidSince(c, rate, before, lo);
      PaidOn(c, rate, After(c, before), a, run[lo].time, before[n - 1].time, Bytes(c, before, lo));
    } else {
      PaidFirst(c, rate, After(c, before), a);
    }
  }

  /** One packet is paid for by a full bucket. */
  lemma {:induction false} PaidFirst(c: Config, rate: nat, o: Cell, a: Arrival)
    requires Sound(c) && c.rate <= rate && Honest(c, rate) && UpTo(o, a.time) && InRange(c, o)
    requires a.kind.Police? ==> a.kind.size <= MAX_SIZE
    ensures SECOND * Sent(c, o, a) + Worth(c, rate, Step(c, o, a), a.time)
         <= Usable(c) * SECOND + rate * (a.time - a.time)
  {
    StepIsPaid(c, rate, o, a);
    assert rate * (a.time - a.time) == rate * 0 == 0;
  }

  lemma {:induction false} PaidOn(c: Config, rate: nat, o: Cell, a: Arrival, t0: int, t1: int, bytes: nat)
    requires Sound(c) && c.rate <= rate && Honest(c, rate) && UpTo(o, t1) && t1 <= a.time && InRange(c, o)
    requires a.kind.Police? ==> a.kind.size <= MAX_SIZE
    requires SECOND * bytes + Worth(c, rate, o, t1) <= Usable(c) * SECOND + rate * (t1 - t0)
    ensures SECOND * (bytes + Sent(c, o, a)) + Worth(c, rate, Step(c, o, a), a.time)
         <= Usable(c) * SECOND + rate * (a.time - t0)
  {
    StepIsPaid(c, rate, o, a);
    WorthGrows(c, rate, o, t1, a.time);
    Split(rate, t0, t1, a.time);
  }

  lemma {:induction false} Split(rate: int, t0: int, t1: int, t2: int)
    ensures rate * (t1 - t0) + rate * (t2 - t1) == rate * (t2 - t0)
  {
  }

  lemma {:induction false} WorthIsNat(c: Config, rate: nat, o: Cell, t: int)
    requires UpTo(o, t)
    ensures Worth(c, rate, o, t) >= 0
  {
    if o.Present? {
      P.ProductGrows(rate, 0, t - o.bucket.time);
    }
  }

  /** The bound for any window of time that holds the packets from `lo` on. */
  lemma {:induction false} Window(c: Config, rate: nat, burst: nat, run: seq<Arrival>, lo: nat, t0: int, t1: int)
    requires Sound(c) && c.rate <= rate && c.burst <= burst && Honest(c, rate) && Timely(run) && lo < |run|
    requires t0 <= run[lo].time && run[|run| - 1].time <= t1
    ensures Bytes(c, run, lo) <= burst + rate * (t1 - t0) / SECOND
  {
    var last := run[|run| - 1].time;
    PaidSince(c, rate, run, lo);
    WorthIsNat(c, rate, After(c, run), last);
    P.ProductGrows(rate, last - run[lo].time, t1 - t0);
    Divide(Bytes(c, run, lo), burst, rate * (t1 - t0));
  }

  lemma {:induction false} HonestIsEnough(c: Config, rate: nat, burst: nat)
    requires Sound(c) && c.rate <= rate && c.burst <= burst && Honest(c, rate)
    ensures Within(c, rate, burst)
  {
    forall run: seq<Arrival>, lo: nat | Timely(run) && lo < |run|
      ensures WithinFrom(c, rate, burst, run, lo)
    {
      Window(c, rate, burst, run, lo, run[lo].time, run[|run| - 1].time);
    }
  }

  lemma {:induction false} Divide(bytes: int, burst: int, x: int)
    ensures SECOND * bytes <= burst * SECOND + x <==> bytes <= burst + x / SECOND
  {
  }

  // ----- When it does not: a run that gets too much

  lemma {:induction false} Extend(c: Config, run: seq<Arrival>, a: Arrival, lo: nat)
    requires Sound(c) && Timely(run) && Timely(run + [a])
    ensures UpTo(After(c, run), a.time)
    ensures After(c, run + [a]) == Step(c, After(c, run), a)
    ensures lo <= |run| ==> Bytes(c, run + [a], lo) == Bytes(c, run, lo) + Sent(c, After(c, run), a)
  {
    assert (run + [a])[..|run|] == run;
    assert run != [] ==> (run + [a])[|run| - 1].time <= (run + [a])[|run|].time;
  }

  /** The destination can still be sent at least `level - 1` bytes at time `t`. */
  ghost predicate Available(c: Config, o: Cell, t: int, level: nat)
    requires Sound(c)
  {
    UpTo(o, t) &&
    match Aged(c, o, t)
    case Absent => level <= c.burst
    case Present(b) => level <= Refill(c, b, t)
  }

  lemma {:induction false} RefillAtOnce(c: Config, b: Bucket)
    requires Sound(c) && b.size <= c.burst
    ensures Refill(c, b, b.time) == if c.fill > 0 then b.size else c.burst
  {
    assert 0 * c.rate == 0;
  }

  ghost predicate EndsBy(run: seq<Arrival>, t: int) {
    Timely(run) && (run != [] ==> run[|run| - 1].time <= t)
  }

  lemma {:induction false} TimelyExtend(run: seq<Arrival>, more: seq<Arrival>, t: int)
    requires EndsBy(run, t)
    requires forall i :: 0 <= i < |more| ==>
               more[i].time == t && more[i].kind.Police? && more[i].kind.size <= MAX_SIZE
    ensures EndsBy(run + more, t)
  {
    forall i, j | 0 <= i <= j < |run + more|
      ensures (run + more)[i].time <= (run + more)[j].time
    {
      if i < |run| { assert run[i].time <= run[|run| - 1].time; }
    }
  }

  lemma {:induction false} StepOfAvailable(c: Config, o: Cell, t: int, level: nat, size: nat)
    requires Sound(c) && InRange(c, o) && Available(c, o, t, level) && size < level
    ensures var a := Arrival(t, Police(size, true));
            && Forwards(c, o, a) && Sent(c, o, a) == size
            && Step(c, o, a).Present? && Step(c, o, a).bucket.time == t
            && Available(c, Step(c, o, a), t, level - size)
  {
    var a := Arrival(t, Police(size, true));
    StepInRange(c, o, a);
    RefillAtOnce(c, Step(c, o, a).bucket);
  }

  /** Nothing but packets to be policed, and always room in the table. */
  ghost predicate Plain(run: seq<Arrival>) {
    forall i :: 0 <= i < |run| ==> run[i].kind.Police? && run[i].kind.room
  }

  /** Every packet is forwarded. */
  ghost predicate AllSent(c: Config, run: seq<Arrival>)
    requires Sound(c) && Timely(run)
  {
    run == [] ||
    var n := |run| - 1;
    assert run[..n] != [] ==> run[..n][n - 1].time <= run[n].time;
    AllSent(c, run[..n]) && Forwards(c, After(c, run[..n]), run[n])
  }

  lemma {:induction false} AllSentExtend(c: Config, run: seq<Arrival>, a: Arrival)
    requires Sound(c) && Timely(run) && Timely(run + [a])
    ensures UpTo(After(c, run), a.time)
    ensures AllSent(c, run + [a]) <==> AllSent(c, run) && Forwards(c, After(c, run), a)
  {
    assert (run + [a])[..|run|] == run;
    assert run != [] ==> (run + [a])[|run| - 1].time <= (run + [a])[|run|].time;
  }

  /** All but the last packet of such a run. */
  lemma {:induction false} Front(c: Config, run: seq<Arrival>) returns (before: seq<Arrival>, a: Arrival)
    requires Sound(c) && run != [] && Plain(run) && Timely(run) && AllSent(c, run)
    ensures run == before + [a] && |before| < |run| && Plain(before) && Timely(before) && AllSent(c, before)
  {
    var n := |run| - 1;
    before, a := run[..n], run[n];
  }

  /** A run from time 0 up to time `t` that has been sent all its packets, at least `bytes`, the last at time `t`. */
  ghost predicate Gets(c: Config, run: seq<Arrival>, t: int, bytes: int)
    requires Sound(c)
  {
    && Plain(run) && Timely(run) && run != [] && run[0].time == 0 && run[|run| - 1].time == t
    && AllSent(c, run) && Bytes(c, run, 0) >= bytes
    && After(c, run).Present? && After(c, run).bucket.time == t
  }

  /** One more packet that fits into what is available. */
  lemma {:induction false} SendOneBytes(c: Config, run: seq<Arrival>, a: Arrival, t: int, level: nat)
    requires Sound(c) && Timely(run) && Timely(run + [a]) && Available(c, After(c, run), t, level)
    requires a.kind.Police? && a.kind.room && a.time == t && a.kind.size < level
    ensures Bytes(c, run + [a], 0) == Bytes(c, run, 0) + a.kind.size
    ensures AllSent(c, run) ==> AllSent(c, run + [a])
    ensures Available(c, After(c, run + [a]), t, level - a.kind.size)
    ensures After(c, run + [a]).Present? && After(c, run + [a]).bucket.time == t
  {
    AllSentExtend(c, run, a);
    Extend(c, run, a, 0);
    AfterInRange(c, run);
    StepOfAvailable(c, After(c, run), t, level, a.kind.size);
  }

  lemma {:induction false} SendOne(c: Config, run: seq<Arrival>, t: int, level: nat,
                                   size: nat) returns (next: seq<Arrival>)
    requires Sound(c) && Plain(run) && EndsBy(run, t) && Available(c, After(c, run), t, level)
    requires size < level && size <= MAX_SIZE
    ensures Plain(next) && EndsBy(next, t)
    ensures Bytes(c, next, 0) == Bytes(c, run, 0) + size && (AllSent(c, run) ==> AllSent(c, next))
    ensures next != [] && next[|next| - 1].time == t && next[0].time == if run == [] then t else run[0].time
    ensures Available(c, After(c, next), t, level - size)
    ensures After(c, next).Present? && After(c, next).bucket.time == t
  {
    var a := Arrival(t, Police(size, true));
    next := run + [a];
    SendOneShape(run, a, t, next);
    SendOneBytes(c, run, a, t, level);
  }

  lemma {:induction false} SendOneShape(run: seq<Arrival>, a: Arrival, t: int, next: seq<Arrival>)
    requires Plain(run) && EndsBy(run, t) && next == run + [a]
    requires a.kind.Police? && a.kind.room && a.time == t && a.kind.size <= MAX_SIZE
    ensures Plain(next) && EndsBy(next, t)
    ensures next != [] && next[|next| - 1].time == t && next[0].time == if run == [] then t else run[0].time
  {
    TimelyExtend(run, [a], t);
  }

  /** All but one byte of what is available at time `t` can be sent at once. */
  lemma {:induction false} Drain(c: Config, run: seq<Arrival>, t: int, level: nat) returns (next: seq<Arrival>)
    requires Sound(c) && Plain(run) && EndsBy(run, t) && level > 1 && Available(c, After(c, run), t, level)
    requires AllSent(c, run)
    requires run == [] ==> t == 0
    requires run != [] ==> run[0].time == 0
    ensures Gets(c, next, t, Bytes(c, run, 0) + level - 1)
    decreases level
  {
    var size := if level - 1 <= MAX_SIZE then level - 1 else MAX_SIZE;
    next := SendOne(c, run, t, level, size);
    if level - size > 1 {
      next := Drain(c, next, t, level - size);
    }
  }

  /** A forgotten bucket can be used up completely. */
  lemma {:induction false} DrainFresh(c: Config, run: seq<Arrival>, t: int) returns (next: seq<Arrival>)
    requires Sound(c) && Plain(run) && EndsBy(run, t) && c.burst >= 1 && AllSent(c, run)
    requires UpTo(After(c, run), t) && Aged(c, After(c, run), t).Absent?
    requires run == [] ==> t == 0
    requires run != [] ==> run[0].time == 0
    ensures Gets(c, next, t, Bytes(c, run, 0) + Usable(c))
  {
    if c.burst <= MAX_SIZE {
      var a := Arrival(t, Police(c.burst, true));
      TimelyExtend(run, [a], t);
      Extend(c, run, a, 0);
      AllSentExtend(c, run, a);
      next := run + [a];
    } else {
      next := Drain(c, run, t, c.burst);
    }
  }

  /** One more round as soon as the bucket is forgotten. */
  lemma {:induction false} FreshRound(c: Config, before: seq<Arrival>, t: int, bytes: nat) returns (run: seq<Arrival>)
    requires Sound(c) && c.burst >= 1 && Gets(c, before, t, bytes) && (c.expiry < 0 ==> t == 0)
    ensures Gets(c, run, t + Gap(c), bytes + Usable(c))
  {
    run := DrainFresh(c, before, t + Gap(c));
  }

  /** `n` times `x`, one at a time. */
  ghost function Times(n: nat, x: nat): (y: nat) {
    if n == 0 then 0 else Times(n - 1, x) + x
  }

  lemma {:induction false} TimesIsProduct(n: nat, x: nat)
    ensures Times(n, x) == n * x
  {
    if n > 0 {
      TimesIsProduct(n - 1, x);
      assert (n - 1) * x + x == n * x;
    }
  }

  /** Rounds as close as forgetting allows: each finds a forgotten bucket. */
  lemma {:induction false} FreshRounds(c: Config, n: nat) returns (run: seq<Arrival>)
    requires Sound(c) && c.burst >= 1
    ensures Gets(c, run, Times(n, Gap(c)), Times(n + 1, Usable(c)))
    ensures Gap(c) == 0 ==> Times(n, Gap(c)) == 0
  {
    if n == 0 {
      run := DrainFresh(c, [], 0);
    } else {
      run := FreshRounds(c, n - 1);
      run := FreshRound(c, run, Times(n - 1, Gap(c)), Times(n, Usable(c)));
    }
  }

  /** One more round as soon as the refill fills the bucket up. */
  lemma {:induction false} FullRound(c: Config, before: seq<Arrival>, t: int, bytes: nat) returns (run: seq<Arrival>)
    requires Sound(c) && c.burst >= 2 && c.fill <= c.expiry && Gets(c, before, t, bytes)
    ensures Gets(c, run, t + c.fill, bytes + c.burst - 1)
  {
    assert Refill(c, After(c, before).bucket, t + c.fill) == c.burst;
    run := Drain(c, before, t + c.fill, c.burst);
  }

  /** Rounds as close as filling up allows: each finds a bucket that the refill fills up. */
  lemma {:induction false} FullRounds(c: Config, n: nat) returns (run: seq<Arrival>)
    requires Sound(c) && c.burst >= 2 && c.fill <= c.expiry
    ensures Gets(c, run, Times(n, c.fill), Times(n + 1, c.burst - 1))
  {
    if n == 0 {
      run := Drain(c, [], 0, c.burst);
    } else {
      run := FullRounds(c, n - 1);
      run := FullRound(c, run, Times(n - 1, c.fill), Times(n, c.burst - 1));
    }
  }

  /** A run that is sent all its packets, more than the burst and what the rate adds. */
  ghost predicate Excess(c: Config, rate: nat, burst: nat, run: seq<Arrival>)
    requires Sound(c)
  {
    && Plain(run) && Timely(run) && run != [] && AllSent(c, run)
    && !WithinFrom(c, rate, burst, run, 0)
  }

  lemma {:induction false} TooMuch(c: Config, rate: nat, burst: nat, run: seq<Arrival>, t: int, bytes: int)
    requires Sound(c) && Gets(c, run, t, bytes) && SECOND * bytes > burst * SECOND + rate * t
    ensures Excess(c, rate, burst, run)
  {
    Divide(bytes, burst, rate * t);
    assert run[|run| - 1].time - run[0].time == t;
  }

  /** Rounds that are sent more than the rate adds between them use up any burst in the end. */
  lemma {:induction false} RoundsAreTooMuch(x: int, u: nat, burst: nat, n: nat)
    requires x < u * SECOND && u <= burst && n == (burst - u) * SECOND + 1
    ensures SECOND * ((n + 1) * u) > burst * SECOND + n * x
  {
    var w := u * SECOND;
    Reorder(SECOND, n + 1, u);
    assert SECOND * ((n + 1) * u) == (n + 1) * w;
    OneMoreRound(x, w, n);
    assert n == burst * SECOND - w + 1;
  }

  lemma {:induction false} OneMoreRound(x: int, w: int, n: nat)
    requires x < w
    ensures (n + 1) * w >= n * x + n + w
  {
    P.ProductGrows(n, x + 1, w);
    assert n * (x + 1) == n * x + n;
    assert (n + 1) * w == n * w + w;
  }

  lemma {:induction false} ForgettingTooSoon(c: Config, rate: nat, burst: nat) returns (run: seq<Arrival>)
    requires Sound(c) && c.burst <= burst && rate * Gap(c) < Usable(c) * SECOND
    ensures Excess(c, rate, burst, run)
    ensures c.expiry < 0 ==> run[|run| - 1].time == 0
  {
    var g, u, n := Gap(c), Usable(c), (burst - Usable(c)) * SECOND + 1;
    P.ProductGrows(rate, 0, g);
    run := FreshRounds(c, n);
    TimesIsProduct(n, g);
    TimesIsProduct(n + 1, u);
    RoundsAreTooMuch(rate * g, u, burst, n);
    Reorder(rate, n, g);
    TooMuch(c, rate, burst, run, n * g, (n + 1) * u);
  }

  lemma {:induction false} FillingTooSoon(c: Config, rate: nat, burst: nat) returns (run: seq<Arrival>)
    requires Sound(c) && c.burst <= burst
    requires c.fill <= c.expiry && rate * c.fill < (c.burst - 1) * SECOND
    ensures Excess(c, rate, burst, run)
  {
    var g := c.fill;
    P.ProductGrows(rate, 0, g);
    var u := c.burst - 1;
    var n := (burst - u) * SECOND + 1;
    run := FullRounds(c, n);
    TimesIsProduct(n, g);
    TimesIsProduct(n + 1, u);
    RoundsAreTooMuch(rate * g, u, burst, n);
    Reorder(rate, n, g);
    TooMuch(c, rate, burst, run, n * g, (n + 1) * u);
  }

  lemma {:induction false} Reorder(a: int, b: int, c: int)
    ensures a * (b * c) == b * (a * c)
  {
    assert a * (b * c) == (a * b) * c == (b * a) * c == b * (a * c);
  }

  lemma {:induction false} DishonestExcess(c: Config, rate: nat, burst: nat) returns (run: seq<Arrival>)
    requires Sound(c) && c.burst <= burst && !Honest(c, rate)
    ensures Excess(c, rate, burst, run)
    ensures c.expiry < 0 ==> run[|run| - 1].time == 0
  {
    assert Show(0);
    if rate * Gap(c) < Usable(c) * SECOND {
      run := ForgettingTooSoon(c, rate, burst);
    } else {
      run := FillingTooSoon(c, rate, burst);
    }
  }

  lemma {:induction false} ExcessBreaks(c: Config, rate: nat, burst: nat, run: seq<Arrival>)
    requires Sound(c) && Excess(c, rate, burst, run)
    ensures !Within(c, rate, burst)
  {
    var lo: nat := 0;
    assert !WithinFrom(c, rate, burst, run, lo);
  }

  /** Exactly when a bucket keeps to a rate and a burst at least its own, in every window of every run. */
  lemma {:induction false} WithinExactly(c: Config, rate: nat, burst: nat)
    requires Sound(c) && c.rate <= rate && c.burst <= burst
    ensures Within(c, rate, burst) <==> Honest(c, rate)
  {
    if Honest(c, rate) {
      HonestIsEnough(c, rate, burst);
    } else {
      var run := DishonestExcess(c, rate, burst);
      ExcessBreaks(c, rate, burst, run);
    }
  }

  /** A setting that does not keep to its rate because it forgets too soon: 3 bytes of burst at 2 bytes per second. */
  lemma {:induction false} NotWithinRate(c: Config)
    requires c == BySeconds(2, 3)
    ensures Sound(c) && !Within(c, c.rate, c.burst)
  {
    assert Show(0);
    WithinExactly(c, c.rate, c.burst);
  }

  /** A setting that does not keep to its rate although the rate divides the burst: the product with a billion
      wraps around. */
  lemma {:induction false} WrapsAround(c: Config)
    requires c == BySeconds(20, 18446744080)
    ensures Sound(c) && c.burst % c.rate == 0 && !Within(c, c.rate, c.burst)
  {
    DividingRateExactly(c);
    WithinExactly(c, c.rate, c.burst);
  }

  // ----- Against an exact bucket

  /** A bucket without truncation, in billionths of a byte, that is full at first and never forgotten; and how
      often the truncated bucket has been refilled since it was last started. */
  datatype Exact = Exact(level: int, time: int, refills: nat)

  function ExactAt(c: Config, e: Exact, now: int): (level: int) {
    var gained := if now <= e.time then 0 else c.rate * (now - e.time);
    if e.level + gained > c.burst * SECOND then c.burst * SECOND else e.level + gained
  }

  /** The exact bucket is charged with the bytes that the truncated one forwards. */
  function ExactStep(c: Config, o: Cell, e: Exact, a: Arrival): (r: Exact)
    requires Sound(c) && UpTo(o, a.time)
  {
    if !a.kind.Police? then e
    else Exact(ExactAt(c, e, a.time) - SECOND * Sent(c, o, a), a.time,
               if Aged(c, o, a.time).Absent? then 0 else e.refills + 1)
  }

  ghost function Shadow(c: Config, run: seq<Arrival>): (e: Exact)
    requires Sound(c) && Timely(run)
  {
    if run == [] then Exact(c.burst * SECOND, 0, 0)
    else
      var n := |run| - 1;
      assert run[..n] != [] ==> run[..n][n - 1].time <= run[n].time;
      ExactStep(c, After(c, run[..n]), Shadow(c, run[..n]), run[n])
  }

  /** The truncated bucket holds no more than the exact one, and less than a byte per refill less; where it has been
      forgotten, the exact one is full. */
  ghost predicate Tracks(c: Config, o: Cell, e: Exact, now: int) {
    match o
    case Absent => ExactAt(c, e, now) == c.burst * SECOND
    case Present(b) =>
      && b.size <= c.burst && b.time == e.time
      && SECOND * b.size <= e.level <= SECOND * c.burst
      && e.level <= SECOND * b.size + e.refills * (SECOND - 1)
  }

  /** The rate divides the burst, and the products fit: both times are exactly what it takes to fill the bucket. */
  ghost predicate Exactly(c: Config)
    requires Sound(c)
  {
    c.expiry == c.fill && c.rate * c.fill == SECOND * c.burst && c.burst * SECOND < WORD
  }

  lemma {:induction false} DividingIsExact(c: Config)
    requires Sound(c) && c == BySeconds(c.rate, c.burst) && c.burst % c.rate == 0 && Fits(c)
    ensures Exactly(c)
  {
    Dividing(c.rate, c.burst, c.burst / c.rate);
    assert c.burst * SECOND % WORD == c.burst * SECOND;
  }

  lemma {:induction false} RefillTracks(c: Config, b: Bucket, e: Exact, now: int)
    requires Sound(c) && Exactly(c) && b.time <= now && Tracks(c, Present(b), e, now)
    ensures var level, exact := Refill(c, b, now), ExactAt(c, e, now);
            SECOND * level <= exact <= SECOND * level + (e.refills + 1) * (SECOND - 1)
  {
    var dt := now - b.time;
    assert c.rate * 0 == 0;
    var gained := c.rate * dt;
    assert ExactAt(c, e, now) == if e.level + gained > c.burst * SECOND then c.burst * SECOND else e.level + gained;
    if dt < c.fill {
      RefillFits(c, b, dt, gained);
      PartTracks(b.size, e.level, e.refills, gained, c.burst);
    } else {
      P.ProductGrows(c.rate, c.fill, dt);
      Lag(e.refills);
    }
  }

  lemma {:induction false} Lag(refills: nat)
    ensures (refills + 1) * (SECOND - 1) >= 0
  {
  }

  lemma {:induction false} RefillFits(c: Config, b: Bucket, dt: int, gained: int)
    requires Sound(c) && Exactly(c) && b.size <= c.burst && 0 <= dt < c.fill && gained == c.rate * dt
    ensures gained >= 0
    ensures Refill(c, b, b.time + dt)
         == if b.size + gained / SECOND > c.burst then c.burst else b.size + gained / SECOND
  {
    AddedIsNat(c.rate, dt);
    SmallerProduct(c.rate, dt, c.fill);
    assert dt * c.rate == gained < c.burst * SECOND;
  }

  lemma {:induction false} PartTracks(size: nat, exact: int, refills: nat, gained: int, burst: int)
    requires gained >= 0 && SECOND * size <= exact <= SECOND * burst
             && exact <= SECOND * size + refills * (SECOND - 1)
    ensures var level := if size + gained / SECOND > burst then burst else size + gained / SECOND;
            var full := if exact + gained > burst * SECOND then burst * SECOND else exact + gained;
            SECOND * level <= full <= SECOND * level + (refills + 1) * (SECOND - 1)
  {
    var f := gained / SECOND;
    assert SECOND * f <= gained <= SECOND * f + SECOND - 1;
  }

  /** A bucket is forgotten only when the exact one is full. */
  lemma {:induction false} ForgottenIsFull(c: Config, o: Cell, e: Exact, now: int, later: int)
    requires Sound(c) && Exactly(c) && UpTo(o, later) && now <= later && Tracks(c, o, e, now)
    requires Aged(c, o, later).Absent?
    ensures ExactAt(c, e, later) == c.burst * SECOND
  {
    if o.Present? {
      P.ProductGrows(c.rate, c.fill, later - e.time);
    } else {
      P.ProductGrows(c.rate, now - e.time, later - e.time);
      P.ProductGrows(c.rate, 0, later - e.time);
    }
  }

  lemma {:induction false} StepTracks(c: Config, o: Cell, e: Exact, now: int, a: Arrival)
    requires Sound(c) && Exactly(c) && UpTo(o, a.time) && now <= a.time && Tracks(c, o, e, now)
    ensures Tracks(c, Step(c, o, a), ExactStep(c, o, e, a), a.time)
  {
    var aged := Aged(c, o, a.time);
    if aged.Absent? {
      ForgottenIsFull(c, o, e, now, a.time);
    } else if a.kind.Police? {
      RefillTracks(c, aged.bucket, e, a.time);
    }
  }

  /** In every run the truncated bucket tracks the exact one, which is never forgotten. */
  lemma {:induction false} ExactBucket(c: Config, run: seq<Arrival>)
    requires Sound(c) && c == BySeconds(c.rate, c.burst) && Timely(run) && c.burst % c.rate == 0 && Fits(c)
    ensures Tracks(c, After(c, run), Shadow(c, run), if run == [] then 0 else run[|run| - 1].time)
  {
    DividingIsExact(c);
    if run != [] {
      var n := |run| - 1;
      ExactBucket(c, run[..n]);
      assert run[..n] != [] ==> run[..n][n - 1].time <= run[n].time;
      if n == 0 {
        FullFromTheStart(c, run[0].time);
        StepTracks(c, Absent, Shadow(c, []), run[0].time, run[0]);
      } else {
        StepTracks(c, After(c, run[..n]), Shadow(c, run[..n]), run[n - 1].time, run[n]);
      }
    }
  }

  lemma {:induction false} FullFromTheStart(c: Config, now: int)
    requires Sound(c)
    ensures Tracks(c, Absent, Shadow(c, []), now)
  {
    P.ProductGrows(c.rate, 0, now);
  }
}
