/** The per-IP token bucket of services/identity/api/server.go:456-512, with tokens and
    time as reals. A run interleaves `Allow` and `evict` calls under the limiter's lock. */
module RateLimiter {

  import opened Wrappers

  datatype Bucket = Bucket(tokens: real, lastSeen: real)

  datatype Limiter = Limiter(rate: real, capacity: int, buckets: map<string, Bucket>)

  /** Idle time after which an entry is evicted, in seconds. */
  const STALE: real := 600.0

  function Cap(capacity: int, tokens: real): real {
    if tokens > capacity as real then capacity as real else tokens
  }

  /** The bucket `Allow` works on when it reads the clock at t0 (only for a new entry) and t1. */
  function Entry(l: Limiter, ip: string, t0: real): Bucket {
    if ip in l.buckets then l.buckets[ip] else Bucket(l.capacity as real, t0)
  }

  function Refill(capacity: int, rate: real, b: Bucket, t: real): real {
    Cap(capacity, b.tokens + (t - b.lastSeen) * rate)
  }

  function Refilled(l: Limiter, ip: string, t0: real, t1: real): real {
    Refill(l.capacity, l.rate, Entry(l, ip, t0), t1)
  }

  function Admits(l: Limiter, ip: string, t0: real, t1: real): bool {
    Refilled(l, ip, t0, t1) >= 1.0
  }

  function AfterAllow(l: Limiter, ip: string, t0: real, t1: real): Limiter {
    var tokens := Refilled(l, ip, t0, t1);
    var left := if Admits(l, ip, t0, t1) then tokens - 1.0 else tokens;
    l.(buckets := l.buckets[ip := Bucket(left, t1)])
  }

  function AfterEvict(l: Limiter, read: real): Limiter {
    l.(buckets := map ip | ip in l.buckets && l.buckets[ip].lastSeen >= read - STALE :: l.buckets[ip])
  }

  // ----- the object -----

  class IpRateLimiter {
    const rate: real
    const capacity: int
    var buckets: map<string, Bucket>

    constructor (rate: real, capacity: int)
      ensures View() == Limiter(rate, capacity, map[])
    {
      this.rate := rate;
      this.capacity := capacity;
      buckets := map[];
    }

    ghost function View(): Limiter
      reads this
    {
      Limiter(rate, capacity, buckets)
    }

    /** server.go:481-501 */
    method Allow(ip: string, t0: real, t1: real) returns (admitted: bool)
      modifies this
      ensures View() == AfterAllow(old(View()), ip, t0, t1)
      ensures admitted == Admits(old(View()), ip, t0, t1)
    {
      if ip !in buckets {
        buckets := buckets[ip := Bucket(capacity as real, t0)];
      }
      var b := buckets[ip];
      assert b == Entry(old(View()), ip, t0);
      var elapsed := t1 - b.lastSeen;
      var tokens := b.tokens + elapsed * rate;
      if tokens > capacity as real {
        tokens := capacity as real;
      }
      assert tokens == Refilled(old(View()), ip, t0, t1);
      buckets := buckets[ip := Bucket(tokens, t1)];
      assert buckets == old(buckets)[ip := Bucket(tokens, t1)];
      if tokens < 1.0 {
        return false;
      }
      buckets := buckets[ip := Bucket(tokens - 1.0, t1)];
      assert buckets == old(buckets)[ip := Bucket(tokens - 1.0, t1)];
      return true;
    }

    /** server.go:503-512 */
    method Evict(read: real)
      modifies this
      ensures View() == AfterEvict(old(View()), read)
    {
      var cutoff := read - STALE;
      var pending := buckets.Keys;
      while pending != {}
        invariant pending <= buckets.Keys <= old(buckets).Keys
        invariant forall ip :: ip in buckets ==> buckets[ip] == old(buckets)[ip]
        invariant forall ip :: ip in old(buckets) && ip !in pending ==>
                    (ip in buckets <==> old(buckets)[ip].lastSeen >= cutoff)
        invariant forall ip :: ip in pending ==> ip in buckets
        decreases pending
      {
        var ip :| ip in pending;
        pending := pending - {ip};
        if buckets[ip].lastSeen < cutoff {
          buckets := buckets - {ip};
        }
      }
      assert buckets == AfterEvict(old(View()), read).buckets;
    }
  }

  // ----- runs -----

  /** A call, with its clock readings; `evict` reads the clock before it takes the lock at `at`. */
  datatype Event = Allow(ip: string, t0: real, t1: real) | Evict(read: real, at: real)

  function Time(e: Event): real {
    if e.Allow? then e.t1 else e.at
  }

  /** The clock is monotone along the run, starting from `clock`. */
  predicate Timed(clock: real, es: seq<Event>)
    decreases |es|
  {
    if |es| == 0 then true
    else
      && (match es[0]
          case Allow(_, t0, t1) => clock <= t0 <= t1
          case Evict(read, at) => clock <= at && read <= at)
      && Timed(Time(es[0]), es[1..])
  }

  function EndTime(clock: real, es: seq<Event>): real
    decreases |es|
  {
    if |es| == 0 then clock else EndTime(Time(es[0]), es[1..])
  }

  function Step(l: Limiter, e: Event): Limiter {
    match e
    case Allow(ip, t0, t1) => AfterAllow(l, ip, t0, t1)
    case Evict(read, _) => AfterEvict(l, read)
  }

  function Run(l: Limiter, es: seq<Event>): Limiter
    decreases |es|
  {
    if |es| == 0 then l else Run(Step(l, es[0]), es[1..])
  }

  /** The answers of the `Allow` calls, in order. */
  function Answers(l: Limiter, es: seq<Event>): seq<bool>
    decreases |es|
  {
    if |es| == 0 then []
    else
      (match es[0]
       case Allow(ip, t0, t1) => [Admits(l, ip, t0, t1)]
       case Evict(_, _) => [])
      + Answers(Step(l, es[0]), es[1..])
  }

  /** The call admits a request of the address. */
  predicate Counts(l: Limiter, e: Event, ip: string) {
    e.Allow? && e.ip == ip && Admits(l, ip, e.t0, e.t1)
  }

  /** How many requests of one address the run admits. */
  function Admitted(l: Limiter, es: seq<Event>, ip: string): nat
    decreases |es|
  {
    if |es| == 0 then 0
    else
      (if Counts(l, es[0], ip) then 1 else 0) + Admitted(Step(l, es[0]), es[1..], ip)
  }

  // ----- the invariant -----

  predicate Valid(l: Limiter, clock: real) {
    && l.rate >= 0.0 && l.capacity >= 0
    && forall ip :: ip in l.buckets ==>
         0.0 <= l.buckets[ip].tokens <= l.capacity as real && l.buckets[ip].lastSeen <= clock
  }

  lemma MulNonNegative(x: real, y: real)
    requires x >= 0.0 && y >= 0.0
    ensures x * y >= 0.0
  {}

  lemma RefillRange(capacity: int, rate: real, b: Bucket, t: real)
    requires rate >= 0.0 && 0.0 <= b.tokens <= capacity as real && b.lastSeen <= t
    ensures b.tokens <= Refill(capacity, rate, b, t) <= capacity as real
  {
    var earned := (t - b.lastSeen) * rate;
    MulNonNegative(t - b.lastSeen, rate);
    assert earned >= 0.0;
  }

  lemma RefilledRange(l: Limiter, clock: real, ip: string, t0: real, t1: real)
    requires Valid(l, clock) && clock <= t0 <= t1
    ensures 0.0 <= Refilled(l, ip, t0, t1) <= l.capacity as real
    ensures ip !in l.buckets ==> Refilled(l, ip, t0, t1) == l.capacity as real
  {
    RefillRange(l.capacity, l.rate, Entry(l, ip, t0), t1);
  }

  lemma StepKeepsValid(l: Limiter, clock: real, e: Event)
    requires Valid(l, clock) && Timed(clock, [e])
    ensures Valid(Step(l, e), Time(e))
  {
    match e
    case Allow(ip, t0, t1) => RefilledRange(l, clock, ip, t0, t1);
    case Evict(_, _) =>
  }

  /** In every run tokens stay within 0 and the capacity. */
  lemma {:induction false} RunKeepsValid(l: Limiter, clock: real, es: seq<Event>)
    requires Valid(l, clock) && Timed(clock, es)
    ensures Valid(Run(l, es), EndTime(clock, es))
    ensures clock <= EndTime(clock, es)
    decreases |es|
  {
    hide Step;
    if |es| > 0 {
      StepKeepsValid(l, clock, es[0]);
      RunKeepsValid(Step(l, es[0]), Time(es[0]), es[1..]);
    }
  }

  // ----- the admission budget -----

  /** Tokens an address would find at time t. */
  function Available(l: Limiter, ip: string, t: real): real {
    Refilled(l, ip, t, t)
  }

  predicate Evictions(es: seq<Event>) {
    exists i :: 0 <= i < |es| && es[i].Evict?
  }

  /** Ten minutes refill a bucket completely. */
  predicate RefillsWhileIdle(l: Limiter) {
    l.capacity as real <= STALE * l.rate
  }

  lemma MulMonotone(x: real, y: real, k: real)
    requires x <= y && k >= 0.0
    ensures x * k <= y * k
  {}

  lemma SplitWait(r: real, s: real, t: real, k: real)
    ensures (t - r) * k == (s - r) * k + (t - s) * k
  {}

  lemma WaitEarns(l: Limiter, clock: real, ip: string, s: real, t: real)
    requires Valid(l, clock) && clock <= s <= t
    ensures Available(l, ip, t) <= Available(l, ip, s) + (t - s) * l.rate
  {
    MulNonNegative(t - s, l.rate);
    if ip in l.buckets {
      SplitWait(l.buckets[ip].lastSeen, s, t, l.rate);
    } else {
      RefillRange(l.capacity, l.rate, Entry(l, ip, s), s);
      RefillRange(l.capacity, l.rate, Entry(l, ip, t), t);
    }
  }

  lemma RefillNow(capacity: int, rate: real, b: Bucket)
    requires b.tokens <= capacity as real
    ensures Refill(capacity, rate, b, b.lastSeen) == b.tokens
  {
    assert (b.lastSeen - b.lastSeen) * rate == 0.0;
  }

  lemma AllowSpends(l: Limiter, clock: real, ip: string, other: string, t0: real, t1: real)
    requires Valid(l, clock) && clock <= t0 <= t1
    ensures Available(AfterAllow(l, ip, t0, t1), other, t1)
         == Available(l, other, t1) - (if other == ip && Admits(l, ip, t0, t1) then 1.0 else 0.0)
  {
    hide Refill;
    RefilledRange(l, clock, ip, t0, t1);
    RefilledRange(l, clock, ip, t1, t1);
    var l' := AfterAllow(l, ip, t0, t1);
    if other == ip {
      RefillNow(l.capacity, l.rate, l'.buckets[ip]);
    }
  }

  lemma IdleRefill(capacity: int, rate: real, b: Bucket, t: real)
    requires rate >= 0.0 && b.tokens >= 0.0 && b.lastSeen < t - STALE && capacity as real <= STALE * rate
    ensures Refill(capacity, rate, b, t) == capacity as real
  {
    var gain := (t - b.lastSeen) * rate;
    MulMonotone(STALE, t - b.lastSeen, rate);
    CapFull(capacity, b.tokens, gain);
  }

  lemma CapFull(capacity: int, tokens: real, gain: real)
    requires tokens >= 0.0 && gain >= capacity as real
    ensures Cap(capacity, tokens + gain) == capacity as real
  {
  }

  lemma EvictHarmless(l: Limiter, clock: real, ip: string, read: real, at: real)
    requires Valid(l, clock) && clock <= at && read <= at && RefillsWhileIdle(l)
    ensures Available(AfterEvict(l, read), ip, at) == Available(l, ip, at)
  {
    hide Refill;
    var l' := AfterEvict(l, read);
    RefilledRange(l', at, ip, at, at);
    if ip in l.buckets && ip !in l'.buckets {
      IdleRefill(l.capacity, l.rate, l.buckets[ip], at);
    }
  }

  /** Tokens earned by waiting. */
  function Earned(waited: real, rate: real): real {
    waited * rate
  }

  /** One call: what it admits and leaves is covered by what was there and what the wait earned. */
  lemma StepBudget(l: Limiter, clock: real, e: Event, ip: string)
    requires Valid(l, clock) && Timed(clock, [e])
    requires RefillsWhileIdle(l) || e.Allow?
    ensures (if Counts(l, e, ip) then 1.0 else 0.0) + Available(Step(l, e), ip, Time(e))
         <= Available(l, ip, clock) + Earned(Time(e) - clock, l.rate)
  {
    hide Available, AfterAllow, AfterEvict, Admits;
    WaitEarns(l, clock, ip, clock, Time(e));
    match e {
      case Allow(who, t0, t1) => AllowSpends(l, clock, who, ip, t0, t1);
      case Evict(read, at) => EvictHarmless(l, clock, ip, read, at);
    }
  }

  lemma SameRefill(l: Limiter, l': Limiter)
    requires l'.rate == l.rate && l'.capacity == l.capacity
    ensures RefillsWhileIdle(l') <==> RefillsWhileIdle(l)
  {
  }

  lemma NoWaitEarnsNothing(rate: real)
    ensures Earned(0.0, rate) == 0.0
  {
  }

  lemma BudgetsAdd(first: real, more: real, a0: real, a1: real, a2: real, r: real, s: real, t: real, k: real)
    requires first + a1 <= a0 + Earned(s - r, k) && more + a2 <= a1 + Earned(t - s, k)
    ensures first + more + a2 <= a0 + Earned(t - r, k)
  {
    SplitWait(r, s, t, k);
  }

  lemma EvictionsSplit(es: seq<Event>)
    requires |es| > 0 && !Evictions(es)
    ensures es[0].Allow? && !Evictions(es[1..])
  {
    assert forall i :: 0 <= i < |es| - 1 ==> es[1..][i] == es[i + 1];
  }

  /** Admissions plus what is left never exceed what was there plus what was earned. */
  lemma {:induction false} Budget(l: Limiter, clock: real, es: seq<Event>, ip: string)
    requires Valid(l, clock) && Timed(clock, es)
    requires RefillsWhileIdle(l) || !Evictions(es)
    ensures Admitted(l, es, ip) as real + Available(Run(l, es), ip, EndTime(clock, es))
         <= Available(l, ip, clock) + Earned(EndTime(clock, es) - clock, l.rate)
    decreases |es|
  {
    hide Available, Step, Counts, Evictions, Valid, Earned, RefillsWhileIdle;
    if |es| == 0 {
      NoWaitEarnsNothing(l.rate);
    } else {
      var e, t, end := es[0], Time(es[0]), EndTime(clock, es);
      assert Timed(clock, [e]);
      StepKeepsValid(l, clock, e);
      StepRates(l, e);
      SameRefill(l, Step(l, e));
      if !Evictions(es) {
        EvictionsSplit(es);
      }
      Budget(Step(l, e), t, es[1..], ip);
      StepBudget(l, clock, e, ip);
      BudgetsAdd(if Counts(l, e, ip) then 1.0 else 0.0, Admitted(Step(l, e), es[1..], ip) as real,
                 Available(l, ip, clock),
                 Available(Step(l, e), ip, t), Available(Run(l, es), ip, end), clock, t, end, l.rate);
    }
  }

  lemma StepRates(l: Limiter, e: Event)
    ensures Step(l, e).rate == l.rate && Step(l, e).capacity == l.capacity
  {}

  lemma {:induction false} RunRates(l: Limiter, es: seq<Event>)
    ensures Run(l, es).rate == l.rate && Run(l, es).capacity == l.capacity
    decreases |es|
  {
    if |es| > 0 {
      StepRates(l, es[0]);
      RunRates(Step(l, es[0]), es[1..]);
    }
  }

  lemma SpentAtMostEarned(l: Limiter, w: real, mid: seq<Event>, ip: string)
    requires Valid(l, w) && Timed(w, mid)
    requires RefillsWhileIdle(l) || !Evictions(mid)
    ensures Admitted(l, mid, ip) as real <= l.capacity as real + Earned(EndTime(w, mid) - w, l.rate)
  {
    hide Timed, Run, EndTime, Admitted, Available, Valid, Evictions, Earned;
    RunKeepsValid(l, w, mid);
    Budget(l, w, mid, ip);
    AvailableRange(l, w, ip);
    AvailableRange(Run(l, mid), EndTime(w, mid), ip);
  }

  lemma LongerEarnsMore(admitted: real, capacity: real, waited: real, d: real, rate: real)
    requires admitted <= capacity + Earned(waited, rate) && waited <= d && rate >= 0.0
    ensures admitted <= capacity + rate * d
  {
    MulMonotone(waited, d, rate);
    assert rate * d == d * rate;
  }

  lemma SubRunBound(l: Limiter, w: real, mid: seq<Event>, ip: string, d: real)
    requires Valid(l, w) && Timed(w, mid) && EndTime(w, mid) <= w + d
    requires RefillsWhileIdle(l) || !Evictions(mid)
    ensures Admitted(l, mid, ip) as real <= l.capacity as real + l.rate * d
  {
    hide Valid, Timed, EndTime, Admitted, Earned, RefillsWhileIdle, Evictions;
    NonNegativeRate(l, w);
    SpentAtMostEarned(l, w, mid, ip);
    LongerEarnsMore(Admitted(l, mid, ip) as real, l.capacity as real, EndTime(w, mid) - w, d, l.rate);
  }

  lemma NonNegativeRate(l: Limiter, clock: real)
    requires Valid(l, clock)
    ensures l.rate >= 0.0
  {
  }

  lemma AvailableRange(l: Limiter, clock: real, ip: string)
    requires Valid(l, clock)
    ensures 0.0 <= Available(l, ip, clock) <= l.capacity as real
  {
    hide Refill;
    RefilledRange(l, clock, ip, clock, clock);
  }

  /** After the run `pre` from `start`, the events `mid` fall into the window of length d that opens at w. */
  datatype Window = Window(start: real, pre: seq<Event>, mid: seq<Event>, w: real, d: real)

  predicate IsWindow(v: Window) {
    && Timed(v.start, v.pre) && EndTime(v.start, v.pre) <= v.w
    && Timed(v.w, v.mid) && EndTime(v.w, v.mid) <= v.w + v.d
  }

  /** Admitted requests of one address in the window number at most capacity + rate * d. */
  predicate WithinBound(rate: real, capacity: int, v: Window, ip: string) {
    Admitted(Run(Limiter(rate, capacity, map[]), v.pre), v.mid, ip) as real <= capacity as real + rate * v.d
  }

  lemma WindowBound(rate: real, capacity: int, v: Window, ip: string)
    requires rate >= 0.0 && capacity >= 0 && IsWindow(v)
    requires capacity as real <= STALE * rate || !Evictions(v.mid)
    ensures WithinBound(rate, capacity, v, ip)
  {
    hide Timed, Run, EndTime, Admitted;
    var l0 := Limiter(rate, capacity, map[]);
    RunKeepsValid(l0, v.start, v.pre);
    RunRates(l0, v.pre);
    SubRunBound(Run(l0, v.pre), v.w, v.mid, ip, v.d);
  }

  // ----- the bound is exact: when ten minutes do not refill the bucket, eviction breaks it -----

  /** k requests of one address at the same instant. */
  function Burst(ip: string, t: real, k: nat): (es: seq<Event>)
    ensures |es| == k
  {
    if k == 0 then [] else [Allow(ip, t, t)] + Burst(ip, t, k - 1)
  }

  lemma {:induction false} BurstTimed(ip: string, t: real, k: nat, clock: real)
    requires clock <= t
    ensures Timed(clock, Burst(ip, t, k))
    ensures EndTime(clock, Burst(ip, t, k)) == if k == 0 then clock else t
    ensures !Evictions(Burst(ip, t, k))
  {
    if k > 0 {
      BurstTimed(ip, t, k - 1, t);
      var es := Burst(ip, t, k);
      assert es[1..] == Burst(ip, t, k - 1);
      assert forall i :: 1 <= i < |es| ==> es[i] == es[1..][i - 1];
    }
  }

  /** A burst within the available tokens is admitted in full. */
  lemma {:induction false} BurstAdmitted(l: Limiter, ip: string, t: real, k: nat)
    requires Valid(l, t) && k as real <= Available(l, ip, t)
    ensures Admitted(l, Burst(ip, t, k), ip) == k
    ensures k > 0 ==> Run(l, Burst(ip, t, k)).buckets == l.buckets[ip := Bucket(Available(l, ip, t) - k as real, t)]
    ensures Run(l, Burst(ip, t, k)).rate == l.rate && Run(l, Burst(ip, t, k)).capacity == l.capacity
    decreases k
  {
    if k > 0 {
      hide Refill;
      var l' := AfterAllow(l, ip, t, t);
      RefilledRange(l, t, ip, t, t);
      AllowSpends(l, t, ip, ip, t, t);
      StepKeepsValid(l, t, Allow(ip, t, t));
      BurstAdmitted(l', ip, t, k - 1);
      assert Burst(ip, t, k)[1..] == Burst(ip, t, k - 1);
      assert Run(l, Burst(ip, t, k)) == Run(l', Burst(ip, t, k - 1));
    }
  }

  lemma {:induction false} AdmittedAppend(l: Limiter, a: seq<Event>, b: seq<Event>, ip: string)
    ensures Admitted(l, a + b, ip) == Admitted(l, a, ip) + Admitted(Run(l, a), b, ip)
    decreases |a|
  {
    hide Step, Admits;
    if |a| == 0 {
      assert a + b == b;
    } else {
      assert (a + b)[1..] == a[1..] + b;
      AdmittedAppend(Step(l, a[0]), a[1..], b, ip);
    }
  }

  lemma {:induction false} TimedAppend(clock: real, a: seq<Event>, b: seq<Event>)
    requires Timed(clock, a) && Timed(EndTime(clock, a), b)
    ensures Timed(clock, a + b)
    ensures EndTime(clock, a + b) == EndTime(EndTime(clock, a), b)
    decreases |a|
  {
    if |a| == 0 {
      assert a + b == b;
    } else {
      assert (a + b)[1..] == a[1..] + b;
      TimedAppend(Time(a[0]), a[1..], b);
    }
  }

  /** A burst, an eviction after more than ten idle minutes, and a second burst. */
  function EvictionRun(ip: string, capacity: nat, t: real): seq<Event> {
    Burst(ip, 0.0, capacity) + ([Evict(t, t)] + Burst(ip, t, capacity))
  }

  lemma SecondBurst(l: Limiter, ip: string, t: real)
    requires Valid(l, t) && l.capacity >= 1 && t > STALE
    requires ip in l.buckets && l.buckets[ip].lastSeen == 0.0
    ensures Admitted(l, [Evict(t, t)] + Burst(ip, t, l.capacity), ip) == l.capacity
  {
    hide Refill;
    var es := [Evict(t, t)] + Burst(ip, t, l.capacity);
    var l' := AfterEvict(l, t);
    assert es[1..] == Burst(ip, t, l.capacity);
    assert ip !in l'.buckets;
    RefilledRange(l', t, ip, t, t);
    BurstAdmitted(l', ip, t, l.capacity);
  }

  lemma EvictionDoublesBurst(rate: real, capacity: int, ip: string, t: real)
    requires rate >= 0.0 && capacity >= 1 && t > STALE
    ensures var es := EvictionRun(ip, capacity, t);
            && Timed(0.0, es) && EndTime(0.0, es) == t
            && Admitted(Limiter(rate, capacity, map[]), es, ip) == 2 * capacity
  {
    hide Refill;
    var l := Limiter(rate, capacity, map[]);
    var first, second := Burst(ip, 0.0, capacity), [Evict(t, t)] + Burst(ip, t, capacity);
    BurstTimed(ip, 0.0, capacity, 0.0);
    BurstTimed(ip, t, capacity, t);
    assert second[1..] == Burst(ip, t, capacity);
    TimedAppend(0.0, first, second);
    RefilledRange(l, 0.0, ip, 0.0, 0.0);
    BurstAdmitted(l, ip, 0.0, capacity);
    RunKeepsValid(l, 0.0, first);
    SecondBurst(Run(l, first), ip, t);
    AdmittedAppend(l, first, second, ip);
  }

  /** An instant after ten minutes at which the bucket is still not full. */
  function LateInstant(rate: real, capacity: int): real
    requires rate >= 0.0
  {
    if rate == 0.0 then STALE + 1.0 else (STALE + capacity as real / rate) / 2.0
  }

  lemma LateInstantEarly(rate: real, capacity: int)
    requires rate >= 0.0 && capacity as real > STALE * rate
    ensures LateInstant(rate, capacity) > STALE
    ensures rate * LateInstant(rate, capacity) < capacity as real
  {
    if rate > 0.0 {
      var full := capacity as real / rate;
      assert full * rate == capacity as real;
      assert full > STALE by {
        if full <= STALE {
          MulMonotone(full, STALE, rate);
        }
      }
      var t := LateInstant(rate, capacity);
      assert t < full;
      assert (full - t) * rate > 0.0;
    }
  }

  /** Every window of every run respects the bound. */
  ghost predicate BoundHolds(rate: real, capacity: int) {
    forall v: Window, ip: string :: IsWindow(v) ==> WithinBound(rate, capacity, v, ip)
  }

  /** The window bound holds for every run exactly when ten minutes refill the bucket. */
  lemma BoundHoldsIff(rate: real, capacity: int)
    requires rate >= 0.0 && capacity >= 0
    ensures BoundHolds(rate, capacity) <==> capacity as real <= STALE * rate
  {
    hide IsWindow, WithinBound;
    if capacity as real <= STALE * rate {
      forall v: Window, ip: string | IsWindow(v) ensures WithinBound(rate, capacity, v, ip) {
        WindowBound(rate, capacity, v, ip);
      }
    } else {
      MulNonNegative(STALE, rate);
      DoubleBurstWindow(rate, capacity);
    }
  }

  lemma DoubleBurstWindow(rate: real, capacity: int)
    requires rate >= 0.0 && capacity >= 1 && capacity as real > STALE * rate
    ensures var t := LateInstant(rate, capacity);
      var v := Window(0.0, [], EvictionRun("", capacity, t), 0.0, t);
      IsWindow(v) && !WithinBound(rate, capacity, v, "")
  {
    hide Admitted, Timed, EndTime, EvictionRun, LateInstant;
    var t := LateInstant(rate, capacity);
    LateInstantEarly(rate, capacity);
    EvictionDoublesBurst(rate, capacity, "", t);
    NothingYet(0.0);
  }

  lemma NothingYet(start: real)
    ensures Timed(start, []) && EndTime(start, []) == start
  {
  }

  // ----- eviction is invisible -----

  /** The same run with the evictions left out. */
  function WithoutEvictions(es: seq<Event>): seq<Event> {
    if |es| == 0 then []
    else (if es[0].Allow? then [es[0]] else []) + WithoutEvictions(es[1..])
  }

  /** `l` lost to eviction only entries of `full` that have been idle for ten minutes. */
  predicate Forgets(l: Limiter, full: Limiter, clock: real) {
    && l.rate == full.rate && l.capacity == full.capacity
    && (forall ip :: ip in l.buckets ==> ip in full.buckets && full.buckets[ip] == l.buckets[ip])
    && (forall ip :: ip in full.buckets && ip !in l.buckets ==> full.buckets[ip].lastSeen < clock - STALE)
  }

  lemma AllowSame(l: Limiter, full: Limiter, clock: real, ip: string, t0: real, t1: real)
    requires Valid(l, clock) && Valid(full, clock) && Forgets(l, full, clock)
             && RefillsWhileIdle(l) && clock <= t0 <= t1
    ensures Refilled(l, ip, t0, t1) == Refilled(full, ip, t0, t1)
    ensures Forgets(AfterAllow(l, ip, t0, t1), AfterAllow(full, ip, t0, t1), t1)
  {
    hide Refill;
    if ip !in l.buckets && ip in full.buckets {
      RefilledRange(l, clock, ip, t0, t1);
      IdleRefill(full.capacity, full.rate, full.buckets[ip], t1);
    }
  }

  lemma {:induction false} EvictionUnseenFrom(l: Limiter, full: Limiter, clock: real, es: seq<Event>)
    requires Valid(l, clock) && Valid(full, clock) && Forgets(l, full, clock) && RefillsWhileIdle(l) && Timed(clock, es)
    ensures Answers(l, es) == Answers(full, WithoutEvictions(es))
    decreases |es|
  {
    hide Refill, AfterAllow, Refilled;
    if |es| > 0 {
      var e, rest := es[0], es[1..];
      assert Timed(clock, [e]);
      StepKeepsValid(l, clock, e);
      StepRates(l, e);
      match e {
        case Allow(ip, t0, t1) =>
          StepKeepsValid(full, clock, e);
          AllowSame(l, full, clock, ip, t0, t1);
          EvictionUnseenFrom(Step(l, e), Step(full, e), t1, rest);
          assert WithoutEvictions(es)[0] == e && WithoutEvictions(es)[1..] == WithoutEvictions(rest);
        case Evict(read, at) =>
          EvictionUnseenFrom(Step(l, e), full, at, rest);
          assert WithoutEvictions(es) == WithoutEvictions(rest);
      }
    }
  }

  /** The capacity chosen for a configured rate. */
  function WiredCapacity(rate: real): int {
    (rate * 2.0).Floor
  }

  /** As wired, a limiter that evicts at arbitrary times answers exactly as one that never does. */
  lemma EvictionUnseen(rate: real, start: real, es: seq<Event>)
    requires rate >= 0.0 && Timed(start, es)
    ensures var l := Limiter(rate, WiredCapacity(rate), map[]);
            Answers(l, es) == Answers(l, WithoutEvictions(es))
  {
    var l := Limiter(rate, WiredCapacity(rate), map[]);
    assert WiredCapacity(rate) as real <= rate * 2.0;
    MulMonotone(2.0, STALE, rate);
    EvictionUnseenFrom(l, l, start, es);
  }

  // ----- and it is visible as soon as ten minutes do not refill the bucket -----

  function Trues(a: seq<bool>): nat {
    if |a| == 0 then 0 else (if a[0] then 1 else 0) + Trues(a[1..])
  }

  predicate OnlyFrom(es: seq<Event>, ip: string) {
    forall i :: 0 <= i < |es| && es[i].Allow? ==> es[i].ip == ip
  }

  lemma {:induction false} AnswersCount(l: Limiter, es: seq<Event>, ip: string)
    requires OnlyFrom(es, ip)
    ensures Trues(Answers(l, es)) == Admitted(l, es, ip)
    decreases |es|
  {
    hide Step, Admits;
    if |es| > 0 {
      assert OnlyFrom(es[1..], ip) by {
        assert forall i :: 0 <= i < |es| - 1 ==> es[1..][i] == es[i + 1];
      }
      AnswersCount(Step(l, es[0]), es[1..], ip);
      var rest := Answers(Step(l, es[0]), es[1..]);
      if es[0].Allow? {
        var first := Admits(l, es[0].ip, es[0].t0, es[0].t1);
        assert ([first] + rest)[1..] == rest;
      } else {
        assert [] + rest == rest;
      }
    }
  }

  lemma {:induction false} WithoutEvictionsShape(clock: real, clock': real, es: seq<Event>, ip: string)
    requires Timed(clock', es) && clock <= clock' && OnlyFrom(es, ip)
    ensures Timed(clock, WithoutEvictions(es))
    ensures clock <= EndTime(clock, WithoutEvictions(es)) <= EndTime(clock', es)
    ensures !Evictions(WithoutEvictions(es)) && OnlyFrom(WithoutEvictions(es), ip)
    decreases |es|
  {
    if |es| > 0 {
      var e, rest := es[0], es[1..];
      assert forall i :: 0 <= i < |rest| ==> rest[i] == es[i + 1];
      WithoutEvictionsShape(if e.Allow? then e.t1 else clock, Time(e), rest, ip);
      if e.Allow? {
        assert WithoutEvictions(es)[1..] == WithoutEvictions(rest);
        assert forall i :: 1 <= i < |WithoutEvictions(es)| ==> WithoutEvictions(es)[i] == WithoutEvictions(rest)[i - 1];
      } else {
        assert WithoutEvictions(es) == WithoutEvictions(rest);
      }
    }
  }

  lemma {:induction false} BurstOnlyFrom(ip: string, t: real, k: nat)
    ensures OnlyFrom(Burst(ip, t, k), ip)
  {
    if k > 0 {
      BurstOnlyFrom(ip, t, k - 1);
      assert forall i :: 1 <= i < k ==> Burst(ip, t, k)[i] == Burst(ip, t, k - 1)[i - 1];
    }
  }

  ghost predicate EvictionInvisible(rate: real, capacity: int) {
    forall start: real, es: seq<Event> :: Timed(start, es) ==>
      Answers(Limiter(rate, capacity, map[]), es) == Answers(Limiter(rate, capacity, map[]), WithoutEvictions(es))
  }

  lemma BelowTwice(admitted: nat, capacity: int, earned: real)
    requires admitted as real <= capacity as real + earned && earned < capacity as real
    ensures admitted < 2 * capacity
  {
  }

  lemma EvictionSeen(rate: real, capacity: int, ip: string)
    requires rate >= 0.0 && capacity >= 1 && capacity as real > STALE * rate
    ensures !EvictionInvisible(rate, capacity)
  {
    hide Timed, EndTime, Admitted, Answers, WithoutEvictions, Burst;
    var l, t := Limiter(rate, capacity, map[]), LateInstant(rate, capacity);
    var es := EvictionRun(ip, capacity, t);
    LateInstantEarly(rate, capacity);
    EvictionDoublesBurst(rate, capacity, ip, t);
    BurstOnlyFrom(ip, 0.0, capacity);
    BurstOnlyFrom(ip, t, capacity);
    assert OnlyFrom(es, ip);
    var kept := WithoutEvictions(es);
    WithoutEvictionsShape(0.0, 0.0, es, ip);
    SubRunBound(l, 0.0, kept, ip, t);
    BelowTwice(Admitted(l, kept, ip), capacity, rate * t);
    AnswersCount(l, es, ip);
    AnswersCount(l, kept, ip);
    assert Trues(Answers(l, kept)) < Trues(Answers(l, es));
  }

  lemma EvictionInvisibleIff(rate: real, capacity: int)
    requires rate >= 0.0 && capacity >= 0
    ensures EvictionInvisible(rate, capacity) <==> capacity as real <= STALE * rate
  {
    hide Timed, Answers, WithoutEvictions;
    var l := Limiter(rate, capacity, map[]);
    if capacity as real <= STALE * rate {
      forall start: real, es: seq<Event> | Timed(start, es) ensures Answers(l, es) == Answers(l, WithoutEvictions(es)) {
        EvictionUnseenFrom(l, l, start, es);
      }
    } else {
      MulNonNegative(STALE, rate);
      EvictionSeen(rate, capacity, "");
    }
  }

  // ----- what a bucket earns -----

  /** Waiting earns exactly the rate, up to the capacity. */
  lemma WaitEarnsExactly(l: Limiter, clock: real, ip: string, s: real, t: real)
    requires Valid(l, clock) && clock <= s <= t
    ensures Available(l, ip, t) == Cap(l.capacity, Available(l, ip, s) + Earned(t - s, l.rate))
  {
    MulNonNegative(t - s, l.rate);
    if ip in l.buckets {
      var b := l.buckets[ip];
      SplitWait(b.lastSeen, s, t, l.rate);
      CapTwice(l.capacity, b.tokens + (s - b.lastSeen) * l.rate, (t - s) * l.rate);
    } else {
      hide Refill;
      RefilledRange(l, clock, ip, s, s);
      RefilledRange(l, clock, ip, t, t);
    }
  }

  lemma CapTwice(capacity: int, x: real, gain: real)
    requires gain >= 0.0
    ensures Cap(capacity, Cap(capacity, x) + gain) == Cap(capacity, x + gain)
  {
  }

  /** A request is admitted exactly when a whole token is there. */
  lemma AdmittedIff(l: Limiter, clock: real, ip: string, t0: real, t1: real)
    requires Valid(l, clock) && clock <= t0 <= t1
    ensures Admits(l, ip, t0, t1) <==> Available(l, ip, t1) >= 1.0
  {
    hide Refill;
    RefilledRange(l, clock, ip, t0, t1);
    RefilledRange(l, clock, ip, t1, t1);
  }

  /** Eviction never takes tokens away. */
  lemma EvictKeepsTokens(l: Limiter, clock: real, ip: string, read: real, at: real)
    requires Valid(l, clock) && clock <= at
    ensures Available(AfterEvict(l, read), ip, at) >= Available(l, ip, at)
  {
    hide Refill;
    RefilledRange(l, clock, ip, at, at);
    RefilledRange(AfterEvict(l, read), clock, ip, at, at);
  }

  /** Requests of the address since the last one at `last` are at least one token apart. */
  predicate Paced(rate: real, last: Option<real>, es: seq<Event>, ip: string)
    decreases |es|
  {
    if |es| == 0 then true
    else if es[0].Allow? && es[0].ip == ip then
      (last.Some? ==> Earned(es[0].t1 - last.value, rate) >= 1.0) && Paced(rate, Some(es[0].t1), es[1..], ip)
    else Paced(rate, last, es[1..], ip)
  }

  function Requests(es: seq<Event>, ip: string): nat {
    if |es| == 0 then 0 else (if es[0].Allow? && es[0].ip == ip then 1 else 0) + Requests(es[1..], ip)
  }

  /** A token, or as much of one as was earned since the last request. */
  function Share(last: Option<real>, clock: real, rate: real): real {
    if last.None? || Earned(clock - last.value, rate) >= 1.0 then 1.0 else Earned(clock - last.value, rate)
  }

  lemma EarnedAdds(r: real, s: real, t: real, rate: real)
    requires s <= t && rate >= 0.0
    ensures Earned(t - r, rate) == Earned(s - r, rate) + Earned(t - s, rate)
    ensures Earned(t - s, rate) >= 0.0
  {
    MulNonNegative(t - s, rate);
    SplitWait(r, s, t, rate);
  }

  lemma CapKeepsShare(capacity: int, tokens: real, before: real, gain: real)
    requires capacity >= 1 && gain >= 0.0 && (tokens >= 1.0 || tokens >= before)
    ensures var filled := Cap(capacity, tokens + gain); filled >= 1.0 || filled >= before + gain
  {
  }

  lemma ShareGrows(last: Option<real>, s: real, t: real, rate: real, capacity: int, tokens: real)
    requires s <= t && rate >= 0.0 && capacity >= 1 && tokens >= Share(last, s, rate)
    ensures Cap(capacity, tokens + Earned(t - s, rate)) >= Share(last, t, rate)
  {
    hide Earned, Cap;
    var r := if last.Some? then last.value else s;
    EarnedAdds(r, s, t, rate);
    CapKeepsShare(capacity, tokens, if last.Some? then Earned(s - r, rate) else 1.0, Earned(t - s, rate));
  }

  lemma WaitKeepsShare(l: Limiter, clock: real, ip: string, last: Option<real>, t: real)
    requires Valid(l, clock) && l.capacity >= 1 && clock <= t && Available(l, ip, clock) >= Share(last, clock, l.rate)
    ensures Available(l, ip, t) >= Share(last, t, l.rate)
  {
    NonNegativeRate(l, clock);
    hide Available, Share, Earned, Valid, Cap;
    WaitEarnsExactly(l, clock, ip, clock, t);
    ShareGrows(last, clock, t, l.rate, l.capacity, Available(l, ip, clock));
  }

  lemma StepKeepsShare(l: Limiter, clock: real, e: Event, ip: string, last: Option<real>)
    requires Valid(l, clock) && Timed(clock, [e]) && l.capacity >= 1
    requires Available(l, ip, clock) >= Share(last, clock, l.rate) && Paced(l.rate, last, [e], ip)
    ensures var own := e.Allow? && e.ip == ip;
      && (own ==> Counts(l, e, ip))
      && Available(Step(l, e), ip, Time(e)) >= Share(if own then Some(Time(e)) else last, Time(e), l.rate)
  {
    hide Available, Earned, AfterAllow, AfterEvict, Admits;
    WaitKeepsShare(l, clock, ip, last, Time(e));
    NoWaitEarnsNothing(l.rate);
    match e {
      case Allow(who, t0, t1) =>
        AdmittedIff(l, clock, who, t0, t1);
        AllowSpends(l, clock, who, ip, t0, t1);
      case Evict(read, at) => EvictKeepsTokens(l, clock, ip, read, at);
    }
  }

  lemma {:induction false} PacedServed(l: Limiter, clock: real, es: seq<Event>, ip: string, last: Option<real>)
    requires Valid(l, clock) && Timed(clock, es) && l.capacity >= 1
    requires Available(l, ip, clock) >= Share(last, clock, l.rate) && Paced(l.rate, last, es, ip)
    ensures Admitted(l, es, ip) == Requests(es, ip)
    decreases |es|
  {
    hide Available, Step, Counts, Valid, Share, Earned;
    if |es| > 0 {
      var e := es[0];
      assert Timed(clock, [e]);
      PacedHead(l.rate, last, es, ip);
      StepKeepsValid(l, clock, e);
      StepRates(l, e);
      StepKeepsShare(l, clock, e, ip, last);
      PacedServed(Step(l, e), Time(e), es[1..], ip, if e.Allow? && e.ip == ip then Some(Time(e)) else last);
      NotOwnNotCounted(l, e, ip);
    }
  }

  lemma PacedHead(rate: real, last: Option<real>, es: seq<Event>, ip: string)
    requires |es| > 0 && Paced(rate, last, es, ip)
    ensures Paced(rate, last, [es[0]], ip)
  {
    hide Earned;
    assert [es[0]][1..] == [];
  }

  lemma NotOwnNotCounted(l: Limiter, e: Event, ip: string)
    ensures !(e.Allow? && e.ip == ip) ==> !Counts(l, e, ip)
  {
  }

  /** A client whose requests are spaced by the time of one token is never refused, whatever other clients do
      and whenever entries are evicted. */
  lemma PacedClientNeverRefused(rate: real, capacity: int, start: real, es: seq<Event>, ip: string)
    requires rate >= 0.0 && capacity >= 1 && Timed(start, es) && Paced(rate, None, es, ip)
    ensures Admitted(Limiter(rate, capacity, map[]), es, ip) == Requests(es, ip)
  {
    var l := Limiter(rate, capacity, map[]);
    hide Timed, Paced, Admitted, Requests, Refill;
    RefilledRange(l, start, ip, start, start);
    PacedServed(l, start, es, ip, None);
  }

  /** The wired capacity is twice the rate, rounded down. */
  lemma WiredCapacityIs(rate: real)
    ensures WiredCapacity(rate) as real <= rate * 2.0 < WiredCapacity(rate) as real + 1.0
  {
  }
}
