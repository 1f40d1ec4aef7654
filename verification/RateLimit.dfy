/**
  The per-client login limiter (internal/api/ratelimit.go): a token bucket per
  key with lazy refill, a cap, and a sweep that drops idle buckets.

  Tokens and times are reals (seconds); float rounding is not modelled. The
  clock value is a parameter of every call, so a run is a sequence of
  (key, time) pairs in lock order. Except where a lemma says so, the times are
  arbitrary: `now` is read before the lock is taken, so they may go backwards.
*/
module RateLimit {
  import opened Prelude

  const SWEEP_INTERVAL := 60.0
  const IDLE_TTL := 600.0

  /** Tokens per second, and the cap. The limiter is built from two whole numbers, see the constructor below. */
  datatype Config = Config(rate: real, burst: real) {
    ghost predicate Valid() {
      rate >= 0.0 && burst >= 0.0
    }

    /** Ten idle minutes refill a whole bucket. */
    ghost predicate RefillCovers() {
      burst <= Gain(IDLE_TTL, this)
    }
  }

  datatype Bucket = Bucket(tokens: real, last: real)

  /** `lastSweep` is None for Go's zero time, which is older than any interval. */
  datatype State = State(buckets: map<string, Bucket>, lastSweep: Option<real>)

  datatype Call = Call(key: string, now: real)

  const INITIAL := State(map[], None)

  // ---------------------------------------------------------------- semantics

  function Gain(seconds: real, cfg: Config): real {
    seconds * cfg.rate
  }

  function Refilled(cfg: Config, b: Bucket, now: real): real {
    if now > b.last then
      var t := b.tokens + Gain(now - b.last, cfg);
      if t > cfg.burst then cfg.burst else t
    else b.tokens
  }

  /** The tokens a call for `key` at `now` finds. */
  function Available(cfg: Config, st: State, key: string, now: real): real {
    if key in st.buckets then Refilled(cfg, st.buckets[key], now) else cfg.burst
  }

  function Sweep(st: State, now: real): State {
    State(map k | k in st.buckets && now - st.buckets[k].last <= IDLE_TTL :: st.buckets[k], Some(now))
  }

  function Swept(sweeping: bool, st: State, now: real): State {
    if sweeping && (st.lastSweep.None? || now - st.lastSweep.value > SWEEP_INTERVAL)
    then Sweep(st, now) else st
  }

  predicate Verdict(cfg: Config, sweeping: bool, st: State, c: Call) {
    Available(cfg, Swept(sweeping, st, c.now), c.key, c.now) >= 1.0
  }

  /** One call; `sweeping == false` is the limiter that never drops a bucket. */
  function Step(cfg: Config, sweeping: bool, st: State, c: Call): State {
    var s := Swept(sweeping, st, c.now);
    var t := Available(cfg, s, c.key, c.now);
    s.(buckets := s.buckets[c.key := Bucket(if t >= 1.0 then t - 1.0 else t, c.now)])
  }

  function After(cfg: Config, sweeping: bool, st: State, run: seq<Call>): State
    decreases |run|
  {
    if run == [] then st else After(cfg, sweeping, Step(cfg, sweeping, st, run[0]), run[1..])
  }

  function Verdicts(cfg: Config, sweeping: bool, st: State, run: seq<Call>): seq<bool>
    decreases |run|
  {
    if run == [] then []
    else [Verdict(cfg, sweeping, st, run[0])] + Verdicts(cfg, sweeping, Step(cfg, sweeping, st, run[0]), run[1..])
  }

  /** How many calls for `key` the run lets through. */
  function Allowed(cfg: Config, sweeping: bool, st: State, run: seq<Call>, key: string): nat
    decreases |run|
  {
    if run == [] then 0
    else
      (if run[0].key == key && Verdict(cfg, sweeping, st, run[0]) then 1 else 0)
      + Allowed(cfg, sweeping, Step(cfg, sweeping, st, run[0]), run[1..], key)
  }

  /** The same count, restricted to calls made in the time window [from, to]. */
  function AllowedBetween(cfg: Config, sweeping: bool, st: State, run: seq<Call>, key: string, from: real,
                          to: real): nat
    decreases |run|
  {
    if run == [] then 0
    else
      (if run[0].key == key && from <= run[0].now <= to && Verdict(cfg, sweeping, st, run[0]) then 1 else 0)
      + AllowedBetween(cfg, sweeping, Step(cfg, sweeping, st, run[0]), run[1..], key, from, to)
  }

  function Forward(a: real, b: real): real {
    if b > a then b - a else 0.0
  }

  /** Total forward movement of the clock over the run. */
  function Elapsed(run: seq<Call>): real {
    if |run| < 2 then 0.0 else Forward(run[0].now, run[1].now) + Elapsed(run[1..])
  }

  predicate Monotone(run: seq<Call>) {
    forall i, j :: 0 <= i < j < |run| ==> run[i].now <= run[j].now
  }

  // ------------------------------------------------------------ the limiter

  /** loginRateLimiter: `buckets` and `lastSweep` are updated in place. */
  class LoginRateLimiter {
    const cfg: Config
    var buckets: map<string, Bucket>
    var lastSweep: Option<real>

    constructor (ratePerMinute: nat, burst: nat)
      ensures cfg == Config(ratePerMinute as real / 60.0, burst as real) && cfg.Valid() && Contents() == INITIAL
      ensures cfg.RefillCovers() <==> burst <= 10 * ratePerMinute
    {
      cfg := Config(ratePerMinute as real / 60.0, burst as real);
      buckets := map[];
      lastSweep := None;
    }

    function Contents(): State
      reads this
    {
      State(buckets, lastSweep)
    }

    method Allow(key: string, now: real) returns (ok: bool)
      modifies this
      ensures ok == Verdict(cfg, true, old(Contents()), Call(key, now))
      ensures Contents() == Step(cfg, true, old(Contents()), Call(key, now))
    {
      if lastSweep.None? || now - lastSweep.value > SWEEP_INTERVAL {
        SweepLocked(now);
      }
      assert Contents() == Swept(true, old(Contents()), now);
      var b := Bucket(cfg.burst, now);
      if key in buckets {
        b := buckets[key];
      }
      var elapsed := now - b.last;
      if elapsed > 0.0 {
        b := b.(tokens := b.tokens + Gain(elapsed, cfg));
        if b.tokens > cfg.burst {
          b := b.(tokens := cfg.burst);
        }
      }
      b := b.(last := now);
      if b.tokens < 1.0 {
        buckets := buckets[key := b];
        return false;
      }
      buckets := buckets[key := b.(tokens := b.tokens - 1.0)];
      return true;
    }

    /** Visits the keys in an arbitrary order, as Go's map iteration does. */
    method SweepLocked(now: real)
      modifies this
      ensures Contents() == Sweep(old(Contents()), now)
    {
      var todo := buckets.Keys;
      while todo != {}
        invariant todo <= buckets.Keys <= old(buckets).Keys
        invariant forall k :: k in buckets ==> buckets[k] == old(buckets)[k]
        invariant forall k :: k in old(buckets) && k !in todo ==>
          (k in buckets <==> now - old(buckets)[k].last <= IDLE_TTL)
        decreases todo
      {
        var k :| k in todo;
        if now - buckets[k].last > IDLE_TTL {
          buckets := buckets - {k};
        }
        todo := todo - {k};
      }
      lastSweep := Some(now);
      assert buckets == Sweep(old(Contents()), now).buckets;
    }
  }

  // ------------------------------------------- the potential of one bucket

  ghost predicate Good(cfg: Config, st: State) {
    cfg.Valid() && forall k :: k in st.buckets ==> 0.0 <= st.buckets[k].tokens <= cfg.burst
  }

  lemma GainMono(cfg: Config, a: real, b: real)
    requires cfg.Valid() && a <= b
    ensures Gain(a, cfg) <= Gain(b, cfg) && (a >= 0.0 ==> Gain(a, cfg) >= 0.0)
  {
    assert (b - a) * cfg.rate >= 0.0;
    assert a >= 0.0 ==> a * cfg.rate >= 0.0;
  }

  lemma GainAdds(cfg: Config, a: real, b: real)
    ensures Gain(a + b, cfg) == Gain(a, cfg) + Gain(b, cfg)
  {}

  lemma AvailableBounds(cfg: Config, st: State, key: string, now: real)
    requires Good(cfg, st)
    ensures 0.0 <= Available(cfg, st, key, now) <= cfg.burst
  {
    if key in st.buckets && now > st.buckets[key].last {
      GainMono(cfg, 0.0, now - st.buckets[key].last);
    }
  }

  lemma StepGood(cfg: Config, sweeping: bool, st: State, c: Call)
    requires Good(cfg, st)
    ensures Good(cfg, Step(cfg, sweeping, st, c))
  {
    AvailableBounds(cfg, Swept(sweeping, st, c.now), c.key, c.now);
  }

  lemma {:induction false} RunGood(cfg: Config, sweeping: bool, st: State, run: seq<Call>)
    requires Good(cfg, st)
    ensures Good(cfg, After(cfg, sweeping, st, run))
    decreases |run|
  {
    if run != [] {
      StepGood(cfg, sweeping, st, run[0]);
      RunGood(cfg, sweeping, Step(cfg, sweeping, st, run[0]), run[1..]);
    }
  }

  /** A sweep never changes what the call that triggers it finds: a dropped bucket was full. */
  lemma SweepKeepsAvailable(cfg: Config, sweeping: bool, st: State, key: string, now: real)
    requires Good(cfg, st) && (sweeping ==> cfg.RefillCovers())
    ensures Available(cfg, Swept(sweeping, st, now), key, now) == Available(cfg, st, key, now)
    ensures key in st.buckets && key !in Swept(sweeping, st, now).buckets ==>
      Available(cfg, st, key, now) == cfg.burst && now > st.buckets[key].last
  {
    if key in st.buckets && key !in Swept(sweeping, st, now).buckets {
      GainMono(cfg, IDLE_TTL, now - st.buckets[key].last);
    }
  }

  lemma RefilledLater(cfg: Config, b: Bucket, now: real, later: real)
    requires cfg.Valid() && 0.0 <= b.tokens <= cfg.burst
    ensures Refilled(cfg, b, later) <= Refilled(cfg, b, now) + Gain(Forward(now, later), cfg)
  {
    GainMono(cfg, 0.0, Forward(now, later));
    GainMono(cfg, 0.0, Forward(b.last, now));
    GainMono(cfg, Forward(b.last, later), Forward(b.last, now) + Forward(now, later));
    GainAdds(cfg, Forward(b.last, now), Forward(now, later));
  }

  /**
    What a later call can find is what this call found, minus what this call took,
    plus the refill of the clock's forward movement. Calls for other keys, and
    the sweeps they trigger, take nothing and add nothing.
  */
  lemma StepPotential(cfg: Config, sweeping: bool, st: State, c: Call, key: string, later: real)
    requires Good(cfg, st) && (sweeping ==> cfg.RefillCovers())
    ensures var took := if c.key == key && Verdict(cfg, sweeping, st, c) then 1.0 else 0.0;
            Available(cfg, Step(cfg, sweeping, st, c), key, later)
              <= Available(cfg, st, key, c.now) - took + Gain(Forward(c.now, later), cfg)
  {
    SweepKeepsAvailable(cfg, sweeping, st, key, c.now);
    GainMono(cfg, 0.0, Forward(c.now, later));
    var s := Step(cfg, sweeping, st, c);
    StepGood(cfg, sweeping, st, c);
    if key in s.buckets {
      RefilledLater(cfg, s.buckets[key], c.now, later);
    }
  }

  lemma {:induction false} AllowedWithinPotential(cfg: Config, sweeping: bool, st: State, run: seq<Call>, key: string)
    requires Good(cfg, st) && (sweeping ==> cfg.RefillCovers()) && run != []
    ensures Allowed(cfg, sweeping, st, run, key) as real
              <= Available(cfg, st, key, run[0].now) + Gain(Elapsed(run), cfg)
    decreases |run|
  {
    var s := Step(cfg, sweeping, st, run[0]);
    StepGood(cfg, sweeping, st, run[0]);
    SweepKeepsAvailable(cfg, sweeping, st, key, run[0].now);
    if |run| == 1 {
      AvailableBounds(cfg, st, key, run[0].now);
    } else {
      AllowedWithinPotential(cfg, sweeping, s, run[1..], key);
      StepPotential(cfg, sweeping, st, run[0], key, run[1].now);
      GainAdds(cfg, Forward(run[0].now, run[1].now), Elapsed(run[1..]));
    }
  }

  // --------------------------------------------------------- the rate bound

  /**
    However calls for other keys and sweeps are interleaved, and even if the
    clock readings race, any stretch of any run admits one key at most
    burst + rate * (forward clock movement) times.
  */
  lemma RateBound(cfg: Config, before: seq<Call>, window: seq<Call>, key: string)
    requires cfg.Valid() && cfg.RefillCovers() && window != []
    ensures Allowed(cfg, true, After(cfg, true, INITIAL, before), window, key) as real
              <= cfg.burst + Gain(Elapsed(window), cfg)
  {
    var st := After(cfg, true, INITIAL, before);
    RunGood(cfg, true, INITIAL, before);
    AllowedWithinPotential(cfg, true, st, window, key);
    AvailableBounds(cfg, st, key, window[0].now);
  }

  /** With a nondecreasing clock the bound reads: at most burst + rate * (to - from) in [from, to]. */
  lemma {:induction false} WindowBound(cfg: Config, st: State, run: seq<Call>, key: string, from: real, to: real)
    requires cfg.RefillCovers() && Good(cfg, st) && Monotone(run) && from <= to
    ensures AllowedBetween(cfg, true, st, run, key, from, to) as real <= cfg.burst + Gain(to - from, cfg)
    decreases |run|
  {
    GainMono(cfg, 0.0, to - from);
    if run != [] {
      StepGood(cfg, true, st, run[0]);
      if run[0].now < from {
        WindowBound(cfg, Step(cfg, true, st, run[0]), run[1..], key, from, to);
      } else {
        InWindow(cfg, st, run, key, from, to);
        AvailableBounds(cfg, st, key, run[0].now);
        GainMono(cfg, Forward(run[0].now, to), to - from);
      }
    }
  }

  lemma {:induction false} InWindow(cfg: Config, st: State, run: seq<Call>, key: string, from: real, to: real)
    requires cfg.RefillCovers() && Good(cfg, st) && Monotone(run) && run != [] && from <= run[0].now
    ensures AllowedBetween(cfg, true, st, run, key, from, to) as real
              <= Available(cfg, st, key, run[0].now) + Gain(Forward(run[0].now, to), cfg)
    decreases |run|
  {
    var s := Step(cfg, true, st, run[0]);
    StepGood(cfg, true, st, run[0]);
    SweepKeepsAvailable(cfg, true, st, key, run[0].now);
    AvailableBounds(cfg, st, key, run[0].now);
    GainMono(cfg, 0.0, Forward(run[0].now, to));
    if |run| > 1 {
      InWindow(cfg, s, run[1..], key, from, to);
      StepPotential(cfg, true, st, run[0], key, run[1].now);
      if run[1].now <= to {
        GainAdds(cfg, Forward(run[0].now, run[1].now), Forward(run[1].now, to));
      } else {
        NoneAfter(cfg, s, run[1..], key, from, to);
      }
    }
  }

  lemma {:induction false} NoneAfter(cfg: Config, st: State, run: seq<Call>, key: string, from: real, to: real)
    requires forall i :: 0 <= i < |run| ==> run[i].now > to
    ensures AllowedBetween(cfg, true, st, run, key, from, to) == 0
    decreases |run|
  {
    if run != [] {
      NoneAfter(cfg, Step(cfg, true, st, run[0]), run[1..], key, from, to);
    }
  }

  // ----------------------------------------- the bound's exact condition

  function Repeat(c: Call, n: nat): (s: seq<Call>)
    ensures |s| == n && forall i :: 0 <= i < n ==> s[i] == c
  {
    seq(n, _ => c)
  }

  lemma {:induction false} AllowedConcat(cfg: Config, sweeping: bool, st: State, a: seq<Call>, b: seq<Call>,
                                         key: string)
    ensures Allowed(cfg, sweeping, st, a + b, key)
              == Allowed(cfg, sweeping, st, a, key) + Allowed(cfg, sweeping, After(cfg, sweeping, st, a), b, key)
    decreases |a|
  {
    if a == [] {
      assert a + b == b;
    } else {
      assert (a + b)[0] == a[0] && (a + b)[1..] == a[1..] + b;
      AllowedConcat(cfg, sweeping, Step(cfg, sweeping, st, a[0]), a[1..], b, key);
    }
  }

  /** A bucket with n tokens lets n simultaneous calls through and is then empty. */
  lemma {:induction false} Exhaust(cfg: Config, sweeping: bool, st: State, c: Call, n: nat)
    requires Available(cfg, Swept(sweeping, st, c.now), c.key, c.now) == n as real
    ensures Allowed(cfg, sweeping, st, Repeat(c, n), c.key) == n
    ensures n > 0 ==> var s := After(cfg, sweeping, st, Repeat(c, n));
      c.key in s.buckets && s.buckets[c.key] == Bucket(0.0, c.now)
      && (sweeping ==> s.lastSweep == Swept(sweeping, st, c.now).lastSweep)
    decreases n
  {
    if n > 0 {
      var s := Step(cfg, sweeping, st, c);
      assert Repeat(c, n)[0] == c && Repeat(c, n)[1..] == Repeat(c, n - 1);
      assert Swept(sweeping, s, c.now).buckets[c.key] == s.buckets[c.key];
      Exhaust(cfg, sweeping, s, c, n - 1);
    }
  }

  function Epsilon(cfg: Config): real
    requires cfg.rate >= 0.0
  {
    (cfg.burst - IDLE_TTL * cfg.rate) / (1.0 + cfg.rate)
  }

  /** Empty the bucket, wait just over the idle limit, empty it again. */
  function TwoBursts(cfg: Config, n: nat, key: string): seq<Call>
    requires cfg.rate >= 0.0
  {
    Repeat(Call(key, 0.0), n)
    + Repeat(Call(key, IDLE_TTL + Epsilon(cfg)), n)
  }

  lemma IdleIsDropped(cfg: Config, st: State, key: string, now: real)
    requires key in st.buckets && now - st.buckets[key].last > IDLE_TTL
    requires st.lastSweep.Some? && now - st.lastSweep.value > SWEEP_INTERVAL
    ensures Available(cfg, Swept(true, st, now), key, now) == cfg.burst
  {}

  lemma TwoBurstsAllowed(cfg: Config, n: nat, key: string)
    requires cfg.Valid() && !cfg.RefillCovers() && cfg.burst == n as real
    ensures Allowed(cfg, true, INITIAL, TwoBursts(cfg, n, key), key) == 2 * n
  {
    EpsilonRefill(cfg);
    var first, second := Call(key, 0.0), Call(key, IDLE_TTL + Epsilon(cfg));
    Exhaust(cfg, true, INITIAL, first, n);
    var s := After(cfg, true, INITIAL, Repeat(first, n));
    IdleIsDropped(cfg, s, key, second.now);
    Exhaust(cfg, true, s, second, n);
    AllowedConcat(cfg, true, INITIAL, Repeat(first, n), Repeat(second, n), key);
  }

  lemma TwoBurstsElapsed(cfg: Config, n: nat, key: string)
    requires cfg.Valid() && !cfg.RefillCovers() && cfg.burst == n as real
    ensures var run := TwoBursts(cfg, n, key);
      Monotone(run) && run != [] && cfg.burst + Gain(Elapsed(run), cfg) < 2.0 * cfg.burst
  {
    EpsilonRefill(cfg);
    var first, second := Call(key, 0.0), Call(key, IDLE_TTL + Epsilon(cfg));
    ElapsedRepeat(second, n);
    ElapsedJoin(first, n, Repeat(second, n));
    assert Elapsed(TwoBursts(cfg, n, key)) == IDLE_TTL + Epsilon(cfg);
  }

  lemma EpsilonRefill(cfg: Config)
    requires cfg.Valid() && !cfg.RefillCovers()
    ensures Epsilon(cfg) > 0.0
    ensures Gain(IDLE_TTL + Epsilon(cfg), cfg) < cfg.burst
  {
    var gap, eps := cfg.burst - IDLE_TTL * cfg.rate, Epsilon(cfg);
    assert eps * (1.0 + cfg.rate) == gap;
    assert eps > 0.0;
    assert eps * cfg.rate == gap - eps;
  }

  lemma {:induction false} ElapsedRepeat(c: Call, n: nat)
    ensures Elapsed(Repeat(c, n)) == 0.0
  {
    if n >= 2 {
      assert Repeat(c, n)[1..] == Repeat(c, n - 1);
      ElapsedRepeat(c, n - 1);
    }
  }

  lemma {:induction false} ElapsedJoin(c: Call, n: nat, b: seq<Call>)
    requires n > 0 && b != []
    ensures Elapsed(Repeat(c, n) + b) == Forward(c.now, b[0].now) + Elapsed(b)
  {
    assert (Repeat(c, n) + b)[1..] == Repeat(c, n - 1) + b;
    if n > 1 {
      ElapsedJoin(c, n - 1, b);
    } else {
      assert Repeat(c, 0) + b == b;
    }
  }

  lemma {:induction false} BetweenConcat(
      cfg: Config, st: State, a: seq<Call>, b: seq<Call>, key: string, from: real, to: real)
    ensures AllowedBetween(cfg, true, st, a + b, key, from, to)
              == AllowedBetween(cfg, true, st, a, key, from, to)
                 + AllowedBetween(cfg, true, After(cfg, true, st, a), b, key, from, to)
    decreases |a|
  {
    if a == [] {
      assert a + b == b;
    } else {
      assert (a + b)[0] == a[0] && (a + b)[1..] == a[1..] + b;
      BetweenConcat(cfg, Step(cfg, true, st, a[0]), a[1..], b, key, from, to);
    }
  }

  lemma {:induction false} AllBetween(cfg: Config, st: State, run: seq<Call>, key: string, from: real, to: real)
    requires forall i :: 0 <= i < |run| ==> from <= run[i].now <= to
    ensures AllowedBetween(cfg, true, st, run, key, from, to) == Allowed(cfg, true, st, run, key)
    decreases |run|
  {
    if run != [] {
      AllBetween(cfg, Step(cfg, true, st, run[0]), run[1..], key, from, to);
    }
  }

  lemma {:induction false} AfterConcat(cfg: Config, st: State, a: seq<Call>, b: seq<Call>)
    ensures After(cfg, true, st, a + b) == After(cfg, true, After(cfg, true, st, a), b)
    decreases |a|
  {
    if a == [] {
      assert a + b == b;
    } else {
      assert (a + b)[0] == a[0] && (a + b)[1..] == a[1..] + b;
      AfterConcat(cfg, Step(cfg, true, st, a[0]), a[1..], b);
    }
  }

  /** The time that refills an empty bucket. */
  function FullTime(cfg: Config): real
    requires cfg.rate > 0.0
  {
    cfg.burst / cfg.rate
  }

  /** Empty the bucket at the full time, let a reading of time zero arrive late, empty it again at the full time. */
  function Race(cfg: Config, n: nat, key: string): seq<Call>
    requires cfg.rate > 0.0
  {
    Repeat(Call(key, FullTime(cfg)), n) + [Call(key, 0.0)] + Repeat(Call(key, FullTime(cfg)), n)
  }

  /** A late reading on an empty bucket is refused and moves `last` back, so the same seconds refill it again. */
  lemma LateReading(cfg: Config, st: State, key: string)
    requires cfg.rate > 0.0 && cfg.burst >= 0.0 && key in st.buckets
    requires st.buckets[key] == Bucket(0.0, FullTime(cfg)) && st.lastSweep == Some(FullTime(cfg))
    ensures var s := Step(cfg, true, st, Call(key, 0.0));
      Available(cfg, Swept(true, s, FullTime(cfg)), key, FullTime(cfg)) == cfg.burst
  {
    var s := Step(cfg, true, st, Call(key, 0.0));
    assert FullTime(cfg) >= 0.0 && Gain(FullTime(cfg), cfg) == cfg.burst;
    assert Swept(true, st, 0.0) == st;
    assert s.buckets[key] == Bucket(0.0, 0.0) && Swept(true, s, FullTime(cfg)) == s;
    assert FullTime(cfg) == 0.0 ==> cfg.burst == 0.0;
  }

  lemma RaceAllowed(cfg: Config, n: nat, key: string)
    requires cfg.Valid() && cfg.rate > 0.0 && cfg.burst == n as real && n >= 1
    ensures AllowedBetween(cfg, true, INITIAL, Race(cfg, n, key), key, FullTime(cfg), FullTime(cfg)) >= 2 * n
  {
    var t := FullTime(cfg);
    var full, late := Call(key, t), Call(key, 0.0);
    var burst := Repeat(full, n);
    Exhaust(cfg, true, INITIAL, full, n);
    var s1 := After(cfg, true, INITIAL, burst);
    LateReading(cfg, s1, key);
    var s2 := Step(cfg, true, s1, late);
    Exhaust(cfg, true, s2, full, n);
    AllBetween(cfg, INITIAL, burst, key, t, t);
    AllBetween(cfg, s2, burst, key, t, t);
    AfterConcat(cfg, INITIAL, burst, [late]);
    assert After(cfg, true, s1, [late]) == s2 by {
      assert [late][1..] == [];
    }
    hide Allowed, AllowedBetween, After, Step, Race;
    BetweenConcat(cfg, INITIAL, burst, [late], key, t, t);
    BetweenConcat(cfg, INITIAL, burst + [late], burst, key, t, t);
    assert Race(cfg, n, key) == burst + [late] + burst by {
      RaceIs(cfg, n, key);
    }
  }

  lemma RaceIs(cfg: Config, n: nat, key: string)
    requires cfg.rate > 0.0
    ensures Race(cfg, n, key)
      == Repeat(Call(key, FullTime(cfg)), n) + [Call(key, 0.0)] + Repeat(Call(key, FullTime(cfg)), n)
  {
  }

  ghost predicate WindowBounded(cfg: Config, run: seq<Call>) {
    forall key: string, from: real, to: real :: from <= to ==>
      AllowedBetween(cfg, true, INITIAL, run, key, from, to) as real <= cfg.burst + Gain(to - from, cfg)
  }

  lemma TwoBurstsBeatWindow(cfg: Config, n: nat)
    requires cfg.Valid() && !cfg.RefillCovers() && cfg.burst == n as real
    ensures Monotone(TwoBursts(cfg, n, "ip")) && !WindowBounded(cfg, TwoBursts(cfg, n, "ip"))
  {
    var run, to := TwoBursts(cfg, n, "ip"), IDLE_TTL + Epsilon(cfg);
    EpsilonRefill(cfg);
    TwoBurstsAllowed(cfg, n, "ip");
    TwoBurstsElapsed(cfg, n, "ip");
    AllBetween(cfg, INITIAL, run, "ip", 0.0, to);
    assert AllowedBetween(cfg, true, INITIAL, run, "ip", 0.0, to) as real > cfg.burst + Gain(to - 0.0, cfg);
  }

  /** With a nondecreasing clock the window bound holds of every run exactly when ten idle minutes refill the bucket. */
  lemma WindowBoundIff(cfg: Config, n: nat)
    requires cfg.Valid() && cfg.burst == n as real
    ensures (forall run: seq<Call> :: Monotone(run) ==> WindowBounded(cfg, run)) <==> cfg.RefillCovers()
  {
    if cfg.RefillCovers() {
      forall run: seq<Call>, key: string, from: real, to: real | Monotone(run) && from <= to
        ensures AllowedBetween(cfg, true, INITIAL, run, key, from, to) as real <= cfg.burst + Gain(to - from, cfg)
      {
        WindowBound(cfg, INITIAL, run, key, from, to);
      }
    } else {
      TwoBurstsBeatWindow(cfg, n);
    }
  }

  /**
    With clock readings in any order, as `now` is read before the lock, it holds of every run only for the
    limiter that never lets anyone through: a race beats the window of every other one.
  */
  lemma ClockRaceIff(cfg: Config, n: nat)
    requires cfg.Valid() && cfg.burst == n as real
    ensures (forall run: seq<Call> :: WindowBounded(cfg, run)) <==> n == 0
  {
    if n == 0 {
      forall run: seq<Call>, key: string, from: real, to: real | from <= to
        ensures AllowedBetween(cfg, true, INITIAL, run, key, from, to) as real <= cfg.burst + Gain(to - from, cfg)
      {
        NothingAllowed(cfg, INITIAL, run, key, from, to);
        GainMono(cfg, 0.0, to - from);
      }
    } else if cfg.RefillCovers() {
      assert cfg.rate > 0.0;
      var run, t := Race(cfg, n, "ip"), FullTime(cfg);
      RaceAllowed(cfg, n, "ip");
      assert Gain(t - t, cfg) == 0.0;
      assert AllowedBetween(cfg, true, INITIAL, run, "ip", t, t) as real > cfg.burst + Gain(t - t, cfg);
      assert !WindowBounded(cfg, run);
    } else {
      TwoBurstsBeatWindow(cfg, n);
    }
  }

  lemma {:induction false} NothingAllowed(cfg: Config, st: State, run: seq<Call>, key: string, from: real, to: real)
    requires Good(cfg, st) && cfg.burst == 0.0
    ensures AllowedBetween(cfg, true, st, run, key, from, to) == 0
    decreases |run|
  {
    if run != [] {
      StepGood(cfg, true, st, run[0]);
      NothingAllowed(cfg, Step(cfg, true, st, run[0]), run[1..], key, from, to);
    }
  }

  /** The rate bound holds of every run exactly when ten idle minutes refill the bucket. */
  lemma RateBoundIff(cfg: Config, n: nat)
    requires cfg.Valid() && cfg.burst == n as real
    ensures (forall run: seq<Call>, key: string :: run != [] ==>
               Allowed(cfg, true, INITIAL, run, key) as real <= cfg.burst + Gain(Elapsed(run), cfg))
            <==> cfg.RefillCovers()
  {
    if cfg.RefillCovers() {
      forall run: seq<Call>, key: string | run != []
        ensures Allowed(cfg, true, INITIAL, run, key) as real <= cfg.burst + Gain(Elapsed(run), cfg)
      {
        RateBound(cfg, [], run, key);
      }
    } else {
      TwoBurstsAllowed(cfg, n, "ip");
      TwoBurstsElapsed(cfg, n, "ip");
    }
  }

  // ------------------------------------------------- sweeping is invisible

  /** From `t` on, the two states answer alike for every key. */
  ghost predicate Alike(cfg: Config, a: State, b: State, t: real) {
    forall key: string, later: real :: later >= t ==> Available(cfg, a, key, later) == Available(cfg, b, key, later)
  }

  lemma RefillSplits(cfg: Config, b: Bucket, now: real, later: real)
    requires cfg.Valid() && b.last <= now <= later && 0.0 <= b.tokens <= cfg.burst
    ensures Refilled(cfg, Bucket(Refilled(cfg, b, now), now), later) == Refilled(cfg, b, later)
  {
    GainMono(cfg, 0.0, now - b.last);
    GainMono(cfg, 0.0, later - now);
    GainAdds(cfg, now - b.last, later - now);
  }

  ghost predicate Past(st: State, t: real) {
    forall k :: k in st.buckets ==> st.buckets[k].last <= t
  }

  lemma SweepAlike(cfg: Config, sweeping: bool, st: State, now: real)
    requires Good(cfg, st) && (sweeping ==> cfg.RefillCovers()) && Past(st, now)
    ensures Alike(cfg, Swept(sweeping, st, now), st, now)
  {
    forall key: string, later: real | later >= now
      ensures Available(cfg, Swept(sweeping, st, now), key, later) == Available(cfg, st, key, later)
    {
      if key in st.buckets && key !in Swept(sweeping, st, now).buckets {
        GainMono(cfg, IDLE_TTL, later - st.buckets[key].last);
      }
    }
  }

  /** Alike states stay alike, whether or not either side sweeps. */
  lemma StepAlike(cfg: Config, sa: bool, a: State, sb: bool, b: State, c: Call)
    requires Good(cfg, a) && Good(cfg, b) && Past(a, c.now) && Past(b, c.now)
    requires sa || sb ==> cfg.RefillCovers()
    requires Alike(cfg, a, b, c.now)
    ensures Verdict(cfg, sa, a, c) == Verdict(cfg, sb, b, c)
    ensures Alike(cfg, Step(cfg, sa, a, c), Step(cfg, sb, b, c), c.now)
    ensures Past(Step(cfg, sa, a, c), c.now)
  {
    SweepAlike(cfg, sa, a, c.now);
    SweepAlike(cfg, sb, b, c.now);
    var a', b' := Swept(sa, a, c.now), Swept(sb, b, c.now);
    assert Available(cfg, a', c.key, c.now) == Available(cfg, a, c.key, c.now);
    assert Available(cfg, b', c.key, c.now) == Available(cfg, b, c.key, c.now);
    forall key: string, later: real | later >= c.now
      ensures Available(cfg, Step(cfg, sa, a, c), key, later) == Available(cfg, Step(cfg, sb, b, c), key, later)
    {
      assert Available(cfg, a', key, later) == Available(cfg, a, key, later);
      assert Available(cfg, b', key, later) == Available(cfg, b, key, later);
    }
  }

  lemma {:induction false} VerdictsAlike(cfg: Config, sa: bool, a: State, sb: bool, b: State, run: seq<Call>)
    requires Good(cfg, a) && Good(cfg, b) && Monotone(run)
    requires sa || sb ==> cfg.RefillCovers()
    requires run != [] ==> Past(a, run[0].now) && Past(b, run[0].now) && Alike(cfg, a, b, run[0].now)
    ensures Verdicts(cfg, sa, a, run) == Verdicts(cfg, sb, b, run)
    decreases |run|
  {
    if run != [] {
      var c := run[0];
      StepAlike(cfg, sa, a, sb, b, c);
      StepAlike(cfg, sb, b, sa, a, c);
      StepGood(cfg, sa, a, c);
      StepGood(cfg, sb, b, c);
      VerdictsAlike(cfg, sa, Step(cfg, sa, a, c), sb, Step(cfg, sb, b, c), run[1..]);
    }
  }

  lemma {:induction false} CountFromVerdicts(cfg: Config, sa: bool, a: State, sb: bool, b: State, run: seq<Call>,
                                             key: string)
    requires Verdicts(cfg, sa, a, run) == Verdicts(cfg, sb, b, run)
    ensures Allowed(cfg, sa, a, run, key) == Allowed(cfg, sb, b, run, key)
    decreases |run|
  {
    if run != [] {
      var va, vb := Verdicts(cfg, sa, a, run), Verdicts(cfg, sb, b, run);
      var a', b' := Step(cfg, sa, a, run[0]), Step(cfg, sb, b, run[0]);
      assert va[0] == Verdict(cfg, sa, a, run[0]) && va[1..] == Verdicts(cfg, sa, a', run[1..]);
      assert vb[0] == Verdict(cfg, sb, b, run[0]) && vb[1..] == Verdicts(cfg, sb, b', run[1..]);
      CountFromVerdicts(cfg, sa, a', sb, b', run[1..], key);
    }
  }

  /**
    The sweeping limiter refines the one that keeps every bucket forever: same
    verdict on every call of every run, exactly when ten idle minutes refill the bucket.
  */
  lemma SweepInvisibleIff(cfg: Config, n: nat)
    requires cfg.Valid() && cfg.burst == n as real
    ensures (forall run: seq<Call> :: Monotone(run) ==>
               Verdicts(cfg, true, INITIAL, run) == Verdicts(cfg, false, INITIAL, run))
            <==> cfg.RefillCovers()
  {
    if cfg.RefillCovers() {
      forall run: seq<Call> | Monotone(run)
        ensures Verdicts(cfg, true, INITIAL, run) == Verdicts(cfg, false, INITIAL, run)
      {
        VerdictsAlike(cfg, true, INITIAL, false, INITIAL, run);
      }
    } else {
      var run := TwoBursts(cfg, n, "ip");
      TwoBurstsAllowed(cfg, n, "ip");
      TwoBurstsElapsed(cfg, n, "ip");
      AllowedWithinPotential(cfg, false, INITIAL, run, "ip");
      AvailableBounds(cfg, INITIAL, "ip", run[0].now);
      if Verdicts(cfg, true, INITIAL, run) == Verdicts(cfg, false, INITIAL, run) {
        CountFromVerdicts(cfg, true, INITIAL, false, INITIAL, run, "ip");
        assert false;
      }
    }
  }

  // ------------------------------------------------ refusals leave no trace

  function WithoutDenied(cfg: Config, st: State, run: seq<Call>): seq<Call>
    decreases |run|
  {
    if run == [] then []
    else
      (if Verdict(cfg, true, st, run[0]) then [run[0]] else [])
      + WithoutDenied(cfg, Step(cfg, true, st, run[0]), run[1..])
  }

  lemma DeniedAlike(cfg: Config, st: State, c: Call)
    requires cfg.RefillCovers() && Good(cfg, st) && Past(st, c.now) && !Verdict(cfg, true, st, c)
    ensures Alike(cfg, Step(cfg, true, st, c), st, c.now)
  {
    SweepAlike(cfg, true, st, c.now);
    var s := Swept(true, st, c.now);
    forall key: string, later: real | later >= c.now
      ensures Available(cfg, Step(cfg, true, st, c), key, later) == Available(cfg, st, key, later)
    {
      assert Available(cfg, s, key, later) == Available(cfg, st, key, later);
      if key == c.key {
        if key in s.buckets {
          RefillSplits(cfg, s.buckets[key], c.now, later);
        } else {
          GainMono(cfg, 0.0, later - c.now);
        }
      }
    }
  }

  /**
    A refused call changes no later verdict, whoever the later calls are for and whether they are
    allowed or refused.
  */
  lemma DeniedChangesNothing(cfg: Config, before: seq<Call>, c: Call, later: seq<Call>)
    requires cfg.Valid() && cfg.RefillCovers() && Monotone(before + [c] + later)
    requires !Verdict(cfg, true, After(cfg, true, INITIAL, before), c)
    ensures var st := After(cfg, true, INITIAL, before);
      Verdicts(cfg, true, Step(cfg, true, st, c), later) == Verdicts(cfg, true, st, later)
  {
    var st := After(cfg, true, INITIAL, before);
    var run := before + [c] + later;
    assert run[|before|] == c && run[..|before|] == before && run[|before| + 1..] == later;
    assert Monotone(before) && Monotone(later) && (before != [] ==> before[|before| - 1].now <= c.now) by {
      assert forall i :: 0 <= i < |before| ==> before[i] == run[i];
      assert forall i :: 0 <= i < |later| ==> later[i] == run[|before| + 1 + i];
    }
    assert later != [] ==> later[0] == run[|before| + 1];
    RunGood(cfg, true, INITIAL, before);
    AfterIsPast(cfg, INITIAL, before, c.now);
    DeniedStep(cfg, st, c, later);
  }

  lemma {:induction false} AfterIsPast(cfg: Config, st: State, run: seq<Call>, t: real)
    requires Monotone(run) && (run == [] ==> Past(st, t))
    requires run != [] ==> Past(st, run[0].now) && run[|run| - 1].now <= t
    ensures Past(After(cfg, true, st, run), t)
    decreases |run|
  {
    if run != [] {
      var st' := Step(cfg, true, st, run[0]);
      AfterIsPast(cfg, st', run[1..], t);
    }
  }

  lemma DeniedStep(cfg: Config, st: State, c: Call, later: seq<Call>)
    requires cfg.RefillCovers() && Good(cfg, st) && Past(st, c.now) && !Verdict(cfg, true, st, c)
    requires Monotone(later) && (later != [] ==> c.now <= later[0].now)
    ensures Verdicts(cfg, true, Step(cfg, true, st, c), later) == Verdicts(cfg, true, st, later)
  {
    var st' := Step(cfg, true, st, c);
    DeniedAlike(cfg, st, c);
    StepGood(cfg, true, st, c);
    StepPast(cfg, st, c);
    if later != [] {
      VerdictsAlike(cfg, true, st', true, st, later);
    }
  }

  lemma Prepend(c: Call, rest: seq<Call>)
    requires Monotone(rest) && (rest != [] ==> c.now <= rest[0].now)
    ensures Monotone([c] + rest)
  {
    forall i, j | 0 <= i < j < |rest| + 1
      ensures ([c] + rest)[i].now <= ([c] + rest)[j].now
    {
      assert rest[0].now <= rest[j - 1].now;
    }
  }

  lemma {:induction false} KeptInOrder(cfg: Config, st: State, run: seq<Call>, t: real)
    requires Monotone(run) && (run != [] ==> t <= run[0].now)
    ensures Monotone(WithoutDenied(cfg, st, run))
    ensures WithoutDenied(cfg, st, run) != [] ==> t <= WithoutDenied(cfg, st, run)[0].now
    decreases |run|
  {
    if run != [] {
      hide Verdict, Step;
      var st' := Step(cfg, true, st, run[0]);
      KeptInOrder(cfg, st', run[1..], run[0].now);
      Prepend(run[0], WithoutDenied(cfg, st', run[1..]));
    }
  }

  predicate AllAllowed(verdicts: seq<bool>) {
    forall i :: 0 <= i < |verdicts| ==> verdicts[i]
  }

  lemma KeptVerdicts(cfg: Config, st: State, run: seq<Call>)
    requires run != []
    ensures var c, st' := run[0], Step(cfg, true, st, run[0]);
      var kept, rest := WithoutDenied(cfg, st, run), WithoutDenied(cfg, st', run[1..]);
      if Verdict(cfg, true, st, c)
      then Verdicts(cfg, true, st, kept) == [true] + Verdicts(cfg, true, st', rest)
      else kept == rest
  {
    var rest := WithoutDenied(cfg, Step(cfg, true, st, run[0]), run[1..]);
    assert ([run[0]] + rest)[1..] == rest;
  }

  lemma StepPast(cfg: Config, st: State, c: Call)
    requires Past(st, c.now)
    ensures Past(Step(cfg, true, st, c), c.now)
  {
  }

  /** So dropping every refused call from a run leaves the others all let through. */
  lemma {:induction false} DeniedLeaveNoTrace(cfg: Config, st: State, run: seq<Call>)
    requires cfg.RefillCovers() && Good(cfg, st) && Monotone(run) && (run != [] ==> Past(st, run[0].now))
    ensures AllAllowed(Verdicts(cfg, true, st, WithoutDenied(cfg, st, run)))
    decreases |run|
  {
    if run != [] {
      var c := run[0];
      var st' := Step(cfg, true, st, c);
      StepGood(cfg, true, st, c);
      StepPast(cfg, st, c);
      assert run[1..] != [] ==> Past(st', run[1..][0].now);
      hide Good, Past, Step, Verdict, Verdicts, WithoutDenied;
      DeniedLeaveNoTrace(cfg, st', run[1..]);
      KeptInOrder(cfg, st', run[1..], c.now);
      KeptVerdicts(cfg, st, run);
      if !Verdict(cfg, true, st, c) {
        DeniedStep(cfg, st, c, WithoutDenied(cfg, st', run[1..]));
      }
    } else {
      assert Verdicts(cfg, true, st, WithoutDenied(cfg, st, run)) == [];
    }
  }

  // --------------------------------------------------- the map stays small

  /** Every bucket kept after a call at `t` was used within the last eleven minutes. */
  ghost predicate Recent(st: State, t: real) {
    && Past(st, t)
    && (st.buckets != map[] ==> st.lastSweep.Some?)
    && (st.lastSweep.Some? ==>
          && 0.0 <= t - st.lastSweep.value <= SWEEP_INTERVAL
          && forall k :: k in st.buckets ==> st.lastSweep.value - st.buckets[k].last <= IDLE_TTL)
  }

  lemma {:induction false} KeptAreRecent(cfg: Config, st: State, run: seq<Call>, t: real)
    requires Monotone(run) && Recent(st, t) && (run != [] ==> t <= run[0].now)
    ensures var end := if run == [] then t else run[|run| - 1].now;
            var s := After(cfg, true, st, run);
            Recent(s, end)
            && forall k :: k in s.buckets ==> end - (SWEEP_INTERVAL + IDLE_TTL) <= s.buckets[k].last <= end
    decreases |run|
  {
    if run != [] {
      KeptAreRecent(cfg, Step(cfg, true, st, run[0]), run[1..], run[0].now);
    }
  }
}
