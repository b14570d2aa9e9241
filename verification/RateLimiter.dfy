/**
 The per-IP rate limiter: one token bucket per client address, and a loop that drops the buckets nobody has
 used for ten minutes. Time is in seconds since the server started.
 */
module RateLimiter {
  /** Validate() demands both of an enabled configuration. */
  datatype Config = Config(rate: real, burst: int) {
    predicate Valid() {
      rate > 0.0 && burst >= 1
    }

    function Max(): real {
      burst as real
    }

    /** Refilling a bucket takes no longer than its owner must stay away to be forgotten. */
    predicate RefillsBeforeEviction() {
      Max() <= rate * IDLE
    }
  }

  const IDLE := 600.0

  /** A bucket's tokens as of its last use. */
  datatype Bucket = Bucket(tokens: real, last: real)

  datatype Entry = Entry(bucket: Bucket, lastSeen: real)

  type Limiters = map<string, Entry>

  /** Retry-After is in whole seconds. */
  datatype Verdict = Admitted | Rejected(retryAfter: nat)

  function Least(a: real, b: real): real {
    if a < b then a else b
  }

  lemma LeastAbove(c: Config, tokens: real)
    requires c.Valid() && tokens >= 1.0
    ensures Least(c.Max(), tokens) >= 1.0
  {
  }

  function Refill(c: Config, b: Bucket, now: real): real {
    Least(c.Max(), b.tokens + c.rate * (now - b.last))
  }

  /** Taking a token, or giving it back because it would only be there later. */
  function Take(c: Config, b: Bucket, now: real): Bucket {
    var t := Refill(c, b, now);
    Bucket(if t >= 1.0 then t - 1.0 else t, now)
  }

  function Judge(c: Config, tokens: real): Verdict
    requires c.Valid()
  {
    if tokens >= 1.0 then Admitted
    else
      var delay := (1.0 - tokens) / c.rate;
      DelayPositive(c, tokens);
      Rejected(delay.Floor + 1)
  }

  lemma DelayPositive(c: Config, tokens: real)
    requires c.Valid() && tokens < 1.0
    ensures (1.0 - tokens) / c.rate > 0.0
  {
  }

  /** A new address starts with a full bucket. */
  function BucketOf(c: Config, m: Limiters, ip: string, now: real): Bucket {
    if ip in m then m[ip].bucket else Bucket(c.Max(), now)
  }

  /** The tokens an address would find now. */
  function Level(c: Config, m: Limiters, ip: string, now: real): real {
    Refill(c, BucketOf(c, m, ip, now), now)
  }

  function Used(c: Config, m: Limiters, ip: string, now: real): Limiters {
    m[ip := Entry(Take(c, BucketOf(c, m, ip, now), now), now)]
  }

  function Evicted(m: Limiters, now: real): Limiters {
    map ip | ip in m && !(m[ip].lastSeen < now - IDLE) :: m[ip]
  }

  // ---------------------------------------------------------------- the limiter and its handler

  class IpRateLimiter {
    const config: Config
    var limiters: Limiters

    constructor (config: Config)
      ensures this.config == config && limiters == map[]
    {
      this.config := config;
      limiters := map[];
    }

    /** One tick of the eviction loop. */
    method Evict(now: real)
      modifies this
      ensures limiters == Evicted(old(limiters), now)
      ensures forall ip :: ip in limiters <==> ip in old(limiters) && old(limiters)[ip].lastSeen >= now - 600.0
    {
      var cutoff := now - IDLE;
      var rest := limiters.Keys;
      while rest != {}
        invariant rest <= limiters.Keys <= old(limiters).Keys
        invariant forall ip | ip in limiters :: limiters[ip] == old(limiters)[ip]
        invariant forall ip | ip in old(limiters) && ip !in rest ::
                    ip in limiters <==> !(old(limiters)[ip].lastSeen < cutoff)
        decreases |rest|
      {
        var ip :| ip in rest;
        rest := rest - {ip};
        if limiters[ip].lastSeen < cutoff {
          limiters := limiters - {ip};
        }
      }
    }

    method Get(ip: string, now: real) returns (b: Bucket)
      modifies this
      ensures b == BucketOf(config, old(limiters), ip, now)
      ensures limiters == old(limiters)[ip := Entry(b, now)]
    {
      if ip !in limiters {
        limiters := limiters[ip := Entry(Bucket(config.Max(), now), now)];
      }
      b := limiters[ip].bucket;
      limiters := limiters[ip := Entry(b, now)];
    }

    /** The health checks are never limited. */
    method Handle(path: string, ip: string, now: real) returns (verdict: Verdict)
      requires config.Valid()
      modifies this
      ensures path in {"/healthz", "/readyz"} ==> verdict == Admitted && limiters == old(limiters)
      ensures path !in {"/healthz", "/readyz"} ==>
                && verdict == Judge(config, Level(config, old(limiters), ip, now))
                && limiters == Used(config, old(limiters), ip, now)
    {
      if path == "/healthz" || path == "/readyz" {
        return Admitted;
      }
      var b := Get(ip, now);
      var tokens := Refill(config, b, now);
      verdict := Judge(config, tokens);
      limiters := limiters[ip := Entry(Bucket(if verdict == Admitted then tokens - 1.0 else tokens, now), now)];
    }
  }

  // ---------------------------------------------------------------- runs

  /** The ticker fires every ten minutes. */
  datatype Event = Request(ip: string, at: real) | Tick(n: nat)

  function TimeOf(e: Event): real {
    match e
    case Request(_, at) => at
    case Tick(n) => n as real * IDLE
  }

  predicate Ordered(now: real, events: seq<Event>)
    decreases |events|
  {
    events == [] || (now <= TimeOf(events[0]) && Ordered(TimeOf(events[0]), events[1..]))
  }

  function Step(c: Config, evicting: bool, m: Limiters, e: Event): Limiters {
    match e
    case Request(ip, at) => Used(c, m, ip, at)
    case Tick(_) => if evicting then Evicted(m, TimeOf(e)) else m
  }

  /** The verdicts on the requests of a run. */
  function Verdicts(c: Config, evicting: bool, m: Limiters, events: seq<Event>): seq<Verdict>
    requires c.Valid()
    decreases |events|
  {
    if events == [] then []
    else
      (if events[0].Request? then [Judge(c, Level(c, m, events[0].ip, events[0].at))] else [])
      + Verdicts(c, evicting, Step(c, evicting, m, events[0]), events[1..])
  }

  function After(c: Config, evicting: bool, m: Limiters, events: seq<Event>): Limiters
    decreases |events|
  {
    if events == [] then m else After(c, evicting, Step(c, evicting, m, events[0]), events[1..])
  }

  function EndOf(now: real, events: seq<Event>): real
    decreases |events|
  {
    if events == [] then now else EndOf(TimeOf(events[0]), events[1..])
  }

  predicate SaneEntry(c: Config, e: Entry, now: real) {
    0.0 <= e.bucket.tokens <= c.Max() && e.bucket.last == e.lastSeen <= now
  }

  predicate Sane(c: Config, m: Limiters, now: real) {
    forall ip | ip in m :: SaneEntry(c, m[ip], now)
  }

  // ---------------------------------------------------------------- how levels move

  lemma GainGrows(c: Config, s: real, t: real)
    requires c.Valid() && 0.0 <= s <= t
    ensures 0.0 <= c.rate * s <= c.rate * t
  {
  }

  lemma GainAdds(c: Config, s: real, t: real)
    ensures c.rate * (s + t) == c.rate * s + c.rate * t
  {
  }

  lemma RefillLater(c: Config, b: Bucket, now: real, later: real)
    requires c.Valid() && 0.0 <= b.tokens <= c.Max() && b.last <= now <= later
    ensures Refill(c, b, later) == Least(c.Max(), Refill(c, b, now) + c.rate * (later - now))
    ensures 0.0 <= Refill(c, b, now) <= c.Max()
  {
    GainGrows(c, 0.0, later - now);
    GainGrows(c, 0.0, now - b.last);
    GainAdds(c, now - b.last, later - now);
    assert (now - b.last) + (later - now) == later - b.last;
  }

  lemma RefillFresh(c: Config, tokens: real, now: real)
    requires tokens <= c.Max()
    ensures Refill(c, Bucket(tokens, now), now) == tokens
  {
    assert c.rate * (now - now) == 0.0;
  }

  /** The level an address finds later is what it would find now plus the refill, up to the burst. */
  lemma LevelLater(c: Config, m: Limiters, ip: string, now: real, later: real)
    requires c.Valid() && Sane(c, m, now) && now <= later
    ensures Level(c, m, ip, later) == Least(c.Max(), Level(c, m, ip, now) + c.rate * (later - now))
    ensures 0.0 <= Level(c, m, ip, now) <= c.Max()
  {
    if ip in m {
      RefillLater(c, m[ip].bucket, now, later);
    } else {
      GainGrows(c, 0.0, later - now);
      RefillFresh(c, c.Max(), now);
      RefillFresh(c, c.Max(), later);
    }
  }

  /** A request takes one token if there is one, and touches no other address. */
  lemma LevelUsed(c: Config, m: Limiters, user: string, now: real, ip: string)
    requires c.Valid() && Sane(c, m, now)
    ensures Sane(c, Used(c, m, user, now), now)
    ensures var t := Level(c, m, ip, now);
            Level(c, Used(c, m, user, now), ip, now) == if ip == user && t >= 1.0 then t - 1.0 else t
  {
    LevelLater(c, m, user, now, now);
    RefillFresh(c, Take(c, BucketOf(c, m, user, now), now).tokens, now);
  }

  lemma Products(r: real, a: real, b: real) returns (x: real, y: real)
    requires r > 0.0 && a <= b
    ensures x == r * a && y == r * b && x <= y
  {
    x, y := r * a, r * b;
    assert y - x == r * (b - a);
  }

  lemma FullWhenIdle(c: Config, b: Bucket, now: real)
    requires c.Valid() && c.RefillsBeforeEviction() && b.tokens >= 0.0 && b.last < now - IDLE
    ensures Refill(c, b, now) == c.Max()
  {
    var away := now - b.last;
    var enough, gained := Products(c.rate, IDLE, away);
    assert enough >= c.Max();
    assert Refill(c, b, now) == Least(c.Max(), b.tokens + gained);
  }

  /** Forgetting an idle bucket changes no level: by then it is full again. */
  lemma LevelEvicted(c: Config, m: Limiters, now: real, ip: string)
    requires c.Valid() && Sane(c, m, now)
    ensures Sane(c, Evicted(m, now), now)
    ensures c.RefillsBeforeEviction() ==> Level(c, Evicted(m, now), ip, now) == Level(c, m, ip, now)
  {
    if c.RefillsBeforeEviction() && ip in m && m[ip].lastSeen < now - IDLE {
      FullWhenIdle(c, m[ip].bucket, now);
      RefillFresh(c, c.Max(), now);
    }
  }

  lemma StepSane(c: Config, evicting: bool, m: Limiters, now: real, e: Event)
    requires c.Valid() && Sane(c, m, now) && now <= TimeOf(e)
    ensures Sane(c, m, TimeOf(e)) && Sane(c, Step(c, evicting, m, e), TimeOf(e))
  {
    if e.Request? {
      LevelUsed(c, m, e.ip, e.at, e.ip);
    }
  }

  // ---------------------------------------------------------------- eviction cannot be observed

  ghost predicate SameLevels(c: Config, kept: Limiters, evicted: Limiters, now: real) {
    forall ip :: Level(c, kept, ip, now) == Level(c, evicted, ip, now)
  }

  lemma StepKeepsLevels(c: Config, kept: Limiters, evicted: Limiters, now: real, e: Event)
    requires c.Valid() && c.RefillsBeforeEviction() && now <= TimeOf(e)
    requires Sane(c, kept, now) && Sane(c, evicted, now) && SameLevels(c, kept, evicted, now)
    ensures SameLevels(c, kept, evicted, TimeOf(e))
    ensures SameLevels(c, Step(c, false, kept, e), Step(c, true, evicted, e), TimeOf(e))
  {
    var t := TimeOf(e);
    StepSane(c, false, kept, now, e);
    StepSane(c, true, evicted, now, e);
    forall ip ensures Level(c, kept, ip, t) == Level(c, evicted, ip, t) {
      LevelLater(c, kept, ip, now, t);
      LevelLater(c, evicted, ip, now, t);
    }
    forall ip ensures Level(c, Step(c, false, kept, e), ip, t) == Level(c, Step(c, true, evicted, e), ip, t) {
      if e.Request? {
        LevelUsed(c, kept, e.ip, t, ip);
        LevelUsed(c, evicted, e.ip, t, ip);
      } else {
        LevelEvicted(c, evicted, t, ip);
      }
    }
  }

  lemma {:induction false} SameVerdicts(c: Config, kept: Limiters, evicted: Limiters, now: real, events: seq<Event>)
    requires c.Valid() && c.RefillsBeforeEviction() && Ordered(now, events)
    requires Sane(c, kept, now) && Sane(c, evicted, now) && SameLevels(c, kept, evicted, now)
    ensures Verdicts(c, false, kept, events) == Verdicts(c, true, evicted, events)
    decreases |events|
  {
    if events != [] {
      var e := events[0];
      StepKeepsLevels(c, kept, evicted, now, e);
      StepSane(c, false, kept, now, e);
      StepSane(c, true, evicted, now, e);
      SameVerdicts(c, Step(c, false, kept, e), Step(c, true, evicted, e), TimeOf(e), events[1..]);
    }
  }

  // ---------------------------------------------------------------- and otherwise it can

  function Times(ip: string, at: real, n: nat): seq<Event> {
    if n == 0 then [] else [Request(ip, at)] + Times(ip, at, n - 1)
  }

  predicate AllAdmitted(verdicts: seq<Verdict>) {
    verdicts == [] || (verdicts[0] == Admitted && AllAdmitted(verdicts[1..]))
  }

  /** n requests at one instant are all admitted exactly when there are n tokens. */
  lemma {:induction false} Drain(c: Config, evicting: bool, m: Limiters, ip: string, at: real, n: nat)
    requires c.Valid() && Sane(c, m, at)
    ensures var m' := After(c, evicting, m, Times(ip, at, n));
            && Sane(c, m', at)
            && (AllAdmitted(Verdicts(c, evicting, m, Times(ip, at, n))) <==> n == 0 || Level(c, m, ip, at) >= n as real)
            && (n as real <= Level(c, m, ip, at) ==> Level(c, m', ip, at) == Level(c, m, ip, at) - n as real)
            && (n > 0 ==> ip in m' && m'[ip].lastSeen == at)
    decreases n
  {
    if n > 0 {
      var next := Used(c, m, ip, at);
      LevelUsed(c, m, ip, at, ip);
      Drain(c, evicting, next, ip, at, n - 1);
      assert Times(ip, at, n)[1..] == Times(ip, at, n - 1);
      var rest := Verdicts(c, evicting, next, Times(ip, at, n - 1));
      assert Verdicts(c, evicting, m, Times(ip, at, n)) == [Judge(c, Level(c, m, ip, at))] + rest;
      assert Verdicts(c, evicting, m, Times(ip, at, n))[1..] == rest;
      assert n as real >= 1.0;
      assert (n - 1) as real == n as real - 1.0;
    }
  }

  /** B requests just within ten minutes of a tick, and B more when the second tick after them has come. */
  function Straddle(c: Config, ip: string, at: real): seq<Event>
    requires c.Valid()
  {
    Times(ip, at, c.burst) + [Tick(2)] + Times(ip, 2.0 * IDLE, c.burst)
  }

  lemma {:induction false} RunConcat(c: Config, evicting: bool, m: Limiters, a: seq<Event>, b: seq<Event>)
    requires c.Valid()
    ensures Verdicts(c, evicting, m, a + b)
            == Verdicts(c, evicting, m, a) + Verdicts(c, evicting, After(c, evicting, m, a), b)
    ensures After(c, evicting, m, a + b) == After(c, evicting, After(c, evicting, m, a), b)
    decreases |a|
  {
    if a == [] {
      assert a + b == b;
    } else {
      assert (a + b)[1..] == a[1..] + b;
      RunConcat(c, evicting, Step(c, evicting, m, a[0]), a[1..], b);
    }
  }

  /** Between the halves the address has what has refilled since, or a fresh bucket if it was forgotten. */
  lemma StraddleMiddle(c: Config, evicting: bool, ip: string, at: real) returns (m: Limiters)
    requires c.Valid() && at < IDLE
    ensures m == After(c, evicting, map[], Times(ip, at, c.burst) + [Tick(2)])
    ensures Sane(c, m, 2.0 * IDLE)
    ensures Level(c, m, ip, 2.0 * IDLE) == if evicting then c.Max() else Least(c.Max(), c.rate * (2.0 * IDLE - at))
  {
    var half, late := Times(ip, at, c.burst), 2.0 * IDLE;
    RefillFresh(c, c.Max(), at);
    Drain(c, evicting, map[], ip, at, c.burst);
    var before := After(c, evicting, map[], half);
    RunConcat(c, evicting, map[], half, [Tick(2)]);
    assert [Tick(2)][1..] == [];
    m := Step(c, evicting, before, Tick(2));
    StepSane(c, evicting, before, at, Tick(2));
    if evicting {
      assert ip !in m;
      RefillFresh(c, c.Max(), late);
    } else {
      LevelLater(c, before, ip, at, late);
    }
  }

  /** What the two halves of the run are given, with and without eviction. */
  lemma StraddleVerdicts(c: Config, evicting: bool, ip: string, at: real)
    returns (first: seq<Verdict>, second: seq<Verdict>)
    requires c.Valid() && at < IDLE
    ensures Verdicts(c, evicting, map[], Straddle(c, ip, at)) == first + second
    ensures first == Verdicts(c, evicting, map[], Times(ip, at, c.burst))
    ensures AllAdmitted(second) <==> evicting || c.rate * (2.0 * IDLE - at) >= c.Max()
  {
    hide Level, Refill, Judge, After, Step, AllAdmitted, Sane;
    var half, late := Times(ip, at, c.burst), 2.0 * IDLE;
    var m := StraddleMiddle(c, evicting, ip, at);
    first := Verdicts(c, evicting, map[], half);
    second := Verdicts(c, evicting, m, Times(ip, late, c.burst));
    RunConcat(c, evicting, map[], half, [Tick(2)]);
    RunConcat(c, evicting, map[], half + [Tick(2)], Times(ip, late, c.burst));
    NoVerdict(c, evicting, After(c, evicting, map[], half));
    Drain(c, evicting, m, ip, late, c.burst);
  }

  lemma NoVerdict(c: Config, evicting: bool, m: Limiters)
    requires c.Valid()
    ensures Verdicts(c, evicting, m, [Tick(2)]) == []
  {
    assert [Tick(2)][1..] == [];
  }

  /** With a slow refill there is such a moment: the bucket is forgotten before it is full. */
  lemma JustBefore(c: Config) returns (at: real)
    requires c.Valid() && !c.RefillsBeforeEviction()
    ensures 0.0 <= at < IDLE && c.rate * (2.0 * IDLE - at) < c.Max()
  {
    var missing := c.Max() - c.rate * IDLE;
    var gap := missing / (2.0 * c.rate);
    assert gap > 0.0 && c.rate * gap == missing / 2.0;
    var e := Least(gap, 1.0);
    at := IDLE - e;
    GainGrows(c, e, gap);
    GainAdds(c, IDLE, e);
    assert 2.0 * IDLE - at == IDLE + e;
  }

  lemma {:induction false} TimesOrdered(now: real, ip: string, at: real, n: nat, rest: seq<Event>)
    requires now <= at && Ordered(at, rest)
    ensures Ordered(now, Times(ip, at, n) + rest)
    decreases n
  {
    if n == 0 {
      assert Times(ip, at, n) + rest == rest;
    } else {
      TimesOrdered(at, ip, at, n - 1, rest);
      assert (Times(ip, at, n) + rest)[1..] == Times(ip, at, n - 1) + rest;
    }
  }

  lemma StraddleOrdered(c: Config, ip: string, at: real)
    requires c.Valid() && 0.0 <= at < IDLE
    ensures Ordered(0.0, Straddle(c, ip, at))
  {
    var late := Times(ip, 2.0 * IDLE, c.burst);
    TimesOrdered(2.0 * IDLE, ip, 2.0 * IDLE, c.burst, []);
    assert late + [] == late;
    var rest := [Tick(2)] + late;
    assert rest[1..] == late && TimeOf(Tick(2)) == 2.0 * IDLE;
    TimesOrdered(0.0, ip, at, c.burst, rest);
    assert Straddle(c, ip, at) == Times(ip, at, c.burst) + rest;
  }

  /** Without ticks there is nothing to tell the two limiters apart. */
  lemma {:induction false} SameWithoutTicks(c: Config, m: Limiters, ip: string, at: real, n: nat)
    requires c.Valid()
    ensures Verdicts(c, false, m, Times(ip, at, n)) == Verdicts(c, true, m, Times(ip, at, n))
    decreases n
  {
    if n > 0 {
      assert Times(ip, at, n)[1..] == Times(ip, at, n - 1);
      SameWithoutTicks(c, Used(c, m, ip, at), ip, at, n - 1);
    }
  }

  /** Eviction goes unnoticed in every run exactly when a bucket refills no slower than it takes to be forgotten. */
  lemma EvictionUnobservableExactly(c: Config)
    requires c.rate > 0.0 && c.burst >= 1
    ensures c.burst as real <= 600.0 * c.rate
            <==> forall events | Ordered(0.0, events) ::
                   Verdicts(c, false, map[], events) == Verdicts(c, true, map[], events)
  {
    if c.RefillsBeforeEviction() {
      forall events | Ordered(0.0, events)
        ensures Verdicts(c, false, map[], events) == Verdicts(c, true, map[], events)
      {
        SameVerdicts(c, map[], map[], 0.0, events);
      }
    } else {
      var at := JustBefore(c);
      var events := Straddle(c, "ip", at);
      StraddleOrdered(c, "ip", at);
      var first, kept := StraddleVerdicts(c, false, "ip", at);
      var first', evicted := StraddleVerdicts(c, true, "ip", at);
      SameWithoutTicks(c, map[], "ip", at, c.burst);
      assert first == first';
      assert (first + kept)[|first|..] == kept && (first + evicted)[|first|..] == evicted;
    }
  }

  // ---------------------------------------------------------------- how much a window lets through

  /** The request is this address's and finds a token, which is when its verdict is Admitted. */
  predicate Admits(c: Config, m: Limiters, e: Event, ip: string) {
    e.Request? && e.ip == ip && Level(c, m, ip, e.at) >= 1.0
  }

  lemma AdmitsExactly(c: Config, m: Limiters, e: Event)
    requires c.Valid() && e.Request?
    ensures Admits(c, m, e, e.ip) <==> Judge(c, Level(c, m, e.ip, e.at)) == Admitted
  {
  }

  /** The requests of one address that a run admits. */
  function Admissions(c: Config, evicting: bool, m: Limiters, events: seq<Event>, ip: string): nat
    decreases |events|
  {
    if events == [] then 0
    else
      var e := events[0];
      (if Admits(c, m, e, ip) then 1 else 0)
      + Admissions(c, evicting, Step(c, evicting, m, e), events[1..], ip)
  }

  lemma OneStepPaid(c: Config, evicting: bool, m: Limiters, now: real, e: Event, ip: string)
    requires c.Valid() && (evicting ==> c.RefillsBeforeEviction())
    requires Sane(c, m, now) && now <= TimeOf(e)
    ensures Level(c, Step(c, evicting, m, e), ip, TimeOf(e)) + (if Admits(c, m, e, ip) then 1.0 else 0.0)
            <= Level(c, m, ip, now) + c.rate * (TimeOf(e) - now)
  {
    hide Level;
    StepSane(c, evicting, m, now, e);
    LevelLater(c, m, ip, now, TimeOf(e));
    if e.Request? {
      LevelUsed(c, m, e.ip, e.at, ip);
    } else {
      LevelEvicted(c, m, TimeOf(e), ip);
    }
  }

  lemma GainChain(c: Config, a: real, b: real, d: real)
    ensures c.rate * (d - a) == c.rate * (b - a) + c.rate * (d - b)
  {
    GainAdds(c, b - a, d - b);
    assert (b - a) + (d - b) == d - a;
  }

  lemma NoAdmissions(c: Config, evicting: bool, m: Limiters, now: real, ip: string)
    requires c.Valid() && Sane(c, m, now)
    ensures EndOf(now, []) == now && Admissions(c, evicting, m, [], ip) == 0
    ensures 0.0 <= Level(c, m, ip, now) + c.rate * (now - now)
  {
    LevelLater(c, m, ip, now, now);
  }

  lemma FirstAdmission(c: Config, evicting: bool, m: Limiters, now: real, events: seq<Event>, ip: string)
    requires Ordered(now, events) && events != []
    ensures now <= TimeOf(events[0]) && Ordered(TimeOf(events[0]), events[1..])
    ensures EndOf(now, events) == EndOf(TimeOf(events[0]), events[1..])
    ensures Admissions(c, evicting, m, events, ip)
            == (if Admits(c, m, events[0], ip) then 1 else 0)
               + Admissions(c, evicting, Step(c, evicting, m, events[0]), events[1..], ip)
  {
  }

  /** Every admission is paid for by the level at the start or by the refill since. */
  lemma {:induction false} AdmissionsPaid(c: Config, evicting: bool, m: Limiters, now: real, events: seq<Event>,
    ip: string)
    requires c.Valid() && (evicting ==> c.RefillsBeforeEviction())
    requires Sane(c, m, now) && Ordered(now, events)
    ensures now <= EndOf(now, events)
    ensures Admissions(c, evicting, m, events, ip) as real <= Level(c, m, ip, now) + c.rate * (EndOf(now, events) - now)
    decreases |events|
  {
    hide *;
    if events == [] {
      NoAdmissions(c, evicting, m, now, ip);
    } else {
      var e := events[0];
      FirstAdmission(c, evicting, m, now, events, ip);
      StepSane(c, evicting, m, now, e);
      AdmissionsPaid(c, evicting, Step(c, evicting, m, e), TimeOf(e), events[1..], ip);
      OneStepPaid(c, evicting, m, now, e, ip);
      GainChain(c, now, TimeOf(e), EndOf(now, events));
    }
  }

  lemma {:induction false} RunSane(c: Config, evicting: bool, m: Limiters, now: real, events: seq<Event>,
    more: seq<Event>)
    requires c.Valid() && Sane(c, m, now) && Ordered(now, events + more)
    ensures now <= EndOf(now, events)
    ensures Sane(c, After(c, evicting, m, events), EndOf(now, events)) && Ordered(EndOf(now, events), more)
    decreases |events|
  {
    if events == [] {
      assert events + more == more;
    } else {
      assert (events + more)[1..] == events[1..] + more;
      StepSane(c, evicting, m, now, events[0]);
      RunSane(c, evicting, Step(c, evicting, m, events[0]), TimeOf(events[0]), events[1..], more);
    }
  }

  lemma LevelAtMost(c: Config, m: Limiters, ip: string, now: real)
    ensures Level(c, m, ip, now) <= c.Max()
  {
  }

  lemma StartOf(c: Config, m: Limiters, now: real, window: seq<Event>)
    requires Sane(c, m, now) && Ordered(now, window) && window != []
    ensures Sane(c, m, TimeOf(window[0])) && Ordered(TimeOf(window[0]), window)
  {
  }

  lemma WindowFrom(c: Config, evicting: bool, m: Limiters, now: real, window: seq<Event>, ip: string)
    requires c.Valid() && (evicting ==> c.RefillsBeforeEviction())
    requires Sane(c, m, now) && Ordered(now, window) && window != []
    ensures var start := TimeOf(window[0]);
            Admissions(c, evicting, m, window, ip) as real <= c.Max() + c.rate * (EndOf(start, window) - start)
  {
    hide *;
    var start := TimeOf(window[0]);
    StartOf(c, m, now, window);
    AdmissionsPaid(c, evicting, m, start, window, ip);
    LevelAtMost(c, m, ip, start);
  }

  /** In any stretch of a run an address gets through at most the burst and what the stretch refills. */
  lemma WindowBound(c: Config, evicting: bool, before: seq<Event>, window: seq<Event>, ip: string)
    requires c.Valid() && (evicting ==> c.RefillsBeforeEviction())
    requires Ordered(0.0, before + window) && window != []
    ensures var m, start := After(c, evicting, map[], before), TimeOf(window[0]);
            Admissions(c, evicting, m, window, ip) as real <= c.Max() + c.rate * (EndOf(start, window) - start)
  {
    RunSane(c, evicting, map[], 0.0, before, window);
    WindowFrom(c, evicting, After(c, evicting, map[], before), EndOf(0.0, before), window, ip);
  }

  lemma {:induction false} AdmissionsConcat(c: Config, evicting: bool, m: Limiters, a: seq<Event>, b: seq<Event>,
    ip: string)
    ensures Admissions(c, evicting, m, a + b, ip)
            == Admissions(c, evicting, m, a, ip) + Admissions(c, evicting, After(c, evicting, m, a), b, ip)
    decreases |a|
  {
    hide Admits, Step;
    if a == [] {
      assert a + b == b;
    } else {
      assert (a + b)[1..] == a[1..] + b;
      AdmissionsConcat(c, evicting, Step(c, evicting, m, a[0]), a[1..], b, ip);
    }
  }

  lemma {:induction false} AllTimesAdmitted(c: Config, evicting: bool, m: Limiters, ip: string, at: real, n: nat)
    requires c.Valid() && Sane(c, m, at) && n as real <= Level(c, m, ip, at)
    ensures Admissions(c, evicting, m, Times(ip, at, n), ip) == n
    decreases n
  {
    hide Level;
    if n > 0 {
      LevelUsed(c, m, ip, at, ip);
      assert Times(ip, at, n)[1..] == Times(ip, at, n - 1) && (n - 1) as real == n as real - 1.0;
      AllTimesAdmitted(c, evicting, Used(c, m, ip, at), ip, at, n - 1);
    }
  }

  lemma {:induction false} EndOfTimes(now: real, ip: string, at: real, n: nat, rest: seq<Event>)
    ensures EndOf(now, Times(ip, at, n) + rest) == EndOf(if n == 0 then now else at, rest)
    decreases n
  {
    if n == 0 {
      assert Times(ip, at, n) + rest == rest;
    } else {
      assert (Times(ip, at, n) + rest)[1..] == Times(ip, at, n - 1) + rest;
      EndOfTimes(at, ip, at, n - 1, rest);
    }
  }

  lemma StraddleWindow(c: Config, ip: string, at: real)
    requires c.Valid() && 0.0 <= at < IDLE
    ensures Straddle(c, ip, at) != [] && TimeOf(Straddle(c, ip, at)[0]) == at
    ensures EndOf(at, Straddle(c, ip, at)) == 2.0 * IDLE
  {
    var late := Times(ip, 2.0 * IDLE, c.burst);
    var rest := [Tick(2)] + late;
    assert Straddle(c, ip, at) == Times(ip, at, c.burst) + rest;
    EndOfTimes(at, ip, at, c.burst, rest);
    assert rest[1..] == late && late + [] == late && TimeOf(Tick(2)) == 2.0 * IDLE;
    EndOfTimes(2.0 * IDLE, ip, 2.0 * IDLE, c.burst, []);
  }

  /** With eviction, both halves of the run are admitted in full. */
  lemma StraddleAdmissions(c: Config, ip: string, at: real)
    requires c.Valid() && 0.0 <= at < IDLE
    ensures Admissions(c, true, map[], Straddle(c, ip, at), ip) == 2 * c.burst
  {
    hide Level, Admissions, Refill;
    var half, late := Times(ip, at, c.burst), 2.0 * IDLE;
    var m := StraddleMiddle(c, true, ip, at);
    NoneSaneAt(c, ip, at);
    AllTimesAdmitted(c, true, map[], ip, at, c.burst);
    AllTimesAdmitted(c, true, m, ip, late, c.burst);
    AdmissionsConcat(c, true, map[], half, [Tick(2)], ip);
    AdmissionsConcat(c, true, map[], half + [Tick(2)], Times(ip, late, c.burst), ip);
    TickAdmitsNone(c, After(c, true, map[], half), ip);
  }

  lemma NoneSaneAt(c: Config, ip: string, at: real)
    requires c.Valid()
    ensures Sane(c, map[], at) && Level(c, map[], ip, at) == c.Max() == c.burst as real
  {
    RefillFresh(c, c.Max(), at);
  }

  lemma TickAdmitsNone(c: Config, m: Limiters, ip: string)
    ensures Admissions(c, true, m, [Tick(2)], ip) == 0
  {
    assert [Tick(2)][1..] == [];
  }

  predicate WithinBound(c: Config, before: seq<Event>, window: seq<Event>, ip: string)
    requires window != []
  {
    var m, start := After(c, true, map[], before), TimeOf(window[0]);
    Admissions(c, true, m, window, ip) as real <= c.Max() + c.rate * (EndOf(start, window) - start)
  }

  /** With eviction the bound holds in every window of every run exactly if buckets refill before they are forgotten. */
  lemma WindowBoundExactly(c: Config)
    requires c.rate > 0.0 && c.burst >= 1
    ensures c.burst as real <= 600.0 * c.rate
            <==> forall before, window, ip | Ordered(0.0, before + window) && window != [] ::
                   WithinBound(c, before, window, ip)
  {
    if c.RefillsBeforeEviction() {
      forall before, window, ip | Ordered(0.0, before + window) && window != []
        ensures WithinBound(c, before, window, ip)
      {
        WindowBound(c, true, before, window, ip);
      }
    } else {
      var at := JustBefore(c);
      var window := Straddle(c, "ip", at);
      StraddleOrdered(c, "ip", at);
      StraddleWindow(c, "ip", at);
      StraddleAdmissions(c, "ip", at);
      StraddleBreaksBound(c, at, window);
    }
  }

  lemma StraddleBreaksBound(c: Config, at: real, window: seq<Event>)
    requires c.Valid() && c.rate * (2.0 * IDLE - at) < c.Max()
    requires window != [] && TimeOf(window[0]) == at && EndOf(at, window) == 2.0 * IDLE
    requires Admissions(c, true, map[], window, "ip") == 2 * c.burst
    requires Ordered(0.0, window)
    ensures !WithinBound(c, [], window, "ip") && Ordered(0.0, [] + window)
  {
    hide Admissions, EndOf;
    assert [] + window == window;
    assert (2 * c.burst) as real == 2.0 * c.Max();
  }

  /** What Admissions counts are the verdicts given: one for every request of the address judged Admitted. */
  function AdmittedOf(events: seq<Event>, verdicts: seq<Verdict>, ip: string): nat
    decreases |events|
  {
    if events == [] || (events[0].Request? && verdicts == []) then 0
    else if events[0].Tick? then AdmittedOf(events[1..], verdicts, ip)
    else (if events[0].ip == ip && verdicts[0] == Admitted then 1 else 0) + AdmittedOf(events[1..], verdicts[1..], ip)
  }

  lemma {:induction false} AdmissionsAreVerdicts(c: Config, evicting: bool, m: Limiters, events: seq<Event>, ip: string)
    requires c.Valid()
    ensures Admissions(c, evicting, m, events, ip) == AdmittedOf(events, Verdicts(c, evicting, m, events), ip)
    decreases |events|
  {
    hide Level, Judge, Step;
    if events != [] {
      var e := events[0];
      var rest := Verdicts(c, evicting, Step(c, evicting, m, e), events[1..]);
      AdmissionsAreVerdicts(c, evicting, Step(c, evicting, m, e), events[1..], ip);
      if e.Request? {
        AdmitsExactly(c, m, e);
        assert ([Judge(c, Level(c, m, e.ip, e.at))] + rest)[1..] == rest;
      } else {
        assert [] + rest == rest;
      }
    }
  }

  // ---------------------------------------------------------------- Retry-After keeps its promise

  predicate LeavesAlone(events: seq<Event>, ip: string) {
    forall e | e in events && e.Request? :: e.ip != ip
  }

  /** A level after a time of refilling. */
  function Grown(c: Config, level: real, d: real): real {
    Least(c.Max(), level + c.rate * d)
  }

  /** As long as an address stays away its level only refills, evicted or not. */
  lemma {:induction false} LevelGrows(c: Config, evicting: bool, m: Limiters, now: real, events: seq<Event>,
    ip: string, later: real)
    requires c.Valid() && Sane(c, m, now) && Ordered(now, events + [Request(ip, later)]) && LeavesAlone(events, ip)
    ensures now <= later
    ensures Level(c, After(c, evicting, m, events), ip, later) >= Grown(c, Level(c, m, ip, now), later - now)
    decreases |events|
  {
    hide Level, Step, Sane, Grown, Ordered, LeavesAlone;
    OrderedTail(now, events, Request(ip, later));
    if events == [] {
      GrownLater(c, m, ip, now, later);
    } else {
      var e, t := events[0], TimeOf(events[0]);
      var m' := Step(c, evicting, m, e);
      LeavesAloneTail(events, ip);
      StepGrowsSince(c, evicting, m, now, e, ip);
      LevelGrows(c, evicting, m', t, events[1..], ip, later);
      GrowthAdds(c, Level(c, m, ip, now), Level(c, m', ip, t), t - now, later - t);
      assert (t - now) + (later - t) == later - now;
    }
  }

  lemma OrderedTail(now: real, events: seq<Event>, e: Event)
    requires Ordered(now, events + [e])
    ensures events == [] ==> now <= TimeOf(e)
    ensures events != [] ==> now <= TimeOf(events[0]) && Ordered(TimeOf(events[0]), events[1..] + [e])
  {
    if events != [] {
      assert (events + [e])[1..] == events[1..] + [e];
    }
  }

  lemma LeavesAloneTail(events: seq<Event>, ip: string)
    requires LeavesAlone(events, ip) && events != []
    ensures LeavesAlone(events[1..], ip) && !(events[0].Request? && events[0].ip == ip)
  {
  }

  lemma GrownLater(c: Config, m: Limiters, ip: string, now: real, later: real)
    requires c.Valid() && Sane(c, m, now) && now <= later
    ensures Level(c, m, ip, later) >= Grown(c, Level(c, m, ip, now), later - now)
  {
    LevelLater(c, m, ip, now, later);
  }

  lemma GrowthAdds(c: Config, before: real, then': real, d: real, d': real)
    requires c.Valid() && d >= 0.0 && d' >= 0.0 && then' >= Grown(c, before, d)
    ensures Grown(c, then', d') >= Grown(c, before, d + d')
  {
    GainGrows(c, 0.0, d');
    GainAdds(c, d, d');
  }

  lemma StepGrowsSince(c: Config, evicting: bool, m: Limiters, now: real, e: Event, ip: string)
    requires c.Valid() && Sane(c, m, now) && now <= TimeOf(e) && !(e.Request? && e.ip == ip)
    ensures Sane(c, Step(c, evicting, m, e), TimeOf(e))
    ensures Level(c, Step(c, evicting, m, e), ip, TimeOf(e))
            >= Grown(c, Level(c, m, ip, now), TimeOf(e) - now)
  {
    hide Level, Step, Sane, Grown;
    StepSane(c, evicting, m, now, e);
    StepGrows(c, evicting, m, TimeOf(e), e, ip);
    GrownLater(c, m, ip, now, TimeOf(e));
  }

  lemma StepGrows(c: Config, evicting: bool, m: Limiters, now: real, e: Event, ip: string)
    requires c.Valid() && Sane(c, m, now) && TimeOf(e) == now && !(e.Request? && e.ip == ip)
    ensures Level(c, Step(c, evicting, m, e), ip, now) >= Level(c, m, ip, now)
  {
    LevelLater(c, m, ip, now, now);
    if e.Request? {
      LevelUsed(c, m, e.ip, now, ip);
    } else {
      RefillFresh(c, c.Max(), now);
    }
  }

  lemma DelayExact(c: Config, tokens: real) returns (delay: real)
    requires c.Valid() && tokens < 1.0
    ensures c.rate * delay == 1.0 - tokens
    ensures Judge(c, tokens).Rejected? && Judge(c, tokens).retryAfter >= 1
    ensures var s := Judge(c, tokens).retryAfter as real; s - 1.0 <= delay <= s
  {
    delay := (1.0 - tokens) / c.rate;
    DelayPositive(c, tokens);
  }

  /** Waiting one more second than the whole seconds of the delay is enough, and more than a second too much never. */
  lemma RetryAfterExactly(c: Config, tokens: real)
    requires c.Valid() && 0.0 <= tokens < 1.0
    ensures Judge(c, tokens).Rejected? && Judge(c, tokens).retryAfter >= 1
    ensures var s := Judge(c, tokens).retryAfter as real;
            tokens + c.rate * (s - 1.0) <= 1.0 <= tokens + c.rate * s
  {
    hide Judge;
    var delay := DelayExact(c, tokens);
    Between(c, delay, Judge(c, tokens).retryAfter as real, tokens);
  }

  lemma Between(c: Config, delay: real, s: real, tokens: real)
    requires c.Valid() && c.rate * delay == 1.0 - tokens
    requires s - 1.0 <= delay <= s
    ensures tokens + c.rate * (s - 1.0) <= 1.0 <= tokens + c.rate * s
  {
    var low, _ := Products(c.rate, s - 1.0, delay);
    var _, high := Products(c.rate, delay, s);
    assert low <= 1.0 - tokens <= high;
  }

  lemma JudgeExactly(c: Config, tokens: real)
    requires c.Valid()
    ensures Judge(c, tokens) == Admitted <==> tokens >= 1.0
  {
  }

  /** From any sane state: a request, then nothing from its address for as long as its bucket needs, then another. */
  lemma RetryFrom(c: Config, evicting: bool, m: Limiters, ip: string, now: real, between: seq<Event>, later: real,
    wait: real)
    requires c.Valid() && Sane(c, m, now) && LeavesAlone(between, ip)
    requires Ordered(now, between + [Request(ip, later)])
    requires Level(c, m, ip, now) < 1.0 && Level(c, m, ip, now) + c.rate * wait >= 1.0
    requires 0.0 <= wait <= later - now
    ensures Level(c, After(c, evicting, Used(c, m, ip, now), between), ip, later) >= 1.0
  {
    hide *;
    LevelUsed(c, m, ip, now, ip);
    LevelGrows(c, evicting, Used(c, m, ip, now), now, between, ip, later);
    GrownEnough(c, Level(c, m, ip, now), wait, later - now);
  }

  lemma GrownEnough(c: Config, level: real, wait: real, d: real)
    requires c.Valid() && 0.0 <= wait <= d && level + c.rate * wait >= 1.0
    ensures Grown(c, level, d) >= 1.0
  {
    GainGrows(c, wait, d);
    LeastAbove(c, level + c.rate * d);
  }

  lemma AfterOne(c: Config, evicting: bool, m: Limiters, before: real, ip: string, now: real, between: seq<Event>,
    last: Event)
    requires Ordered(before, [Request(ip, now)] + (between + [last])) && Sane(c, m, before)
    ensures Sane(c, m, now) && Ordered(now, between + [last])
    ensures After(c, evicting, m, [Request(ip, now)] + between) == After(c, evicting, Used(c, m, ip, now), between)
  {
    assert ([Request(ip, now)] + (between + [last]))[1..] == between + [last];
    assert ([Request(ip, now)] + between)[1..] == between;
  }

  lemma ValidIs(c: Config)
    requires c.rate > 0.0 && c.burst >= 1
    ensures c.Valid()
  {
  }

  /** A rejected client that sends nothing for the seconds it was told is admitted, whatever others do meanwhile. */
  lemma RetryAfterWorks(c: Config, evicting: bool, before: seq<Event>, ip: string, now: real, between: seq<Event>,
    later: real)
    requires c.rate > 0.0 && c.burst >= 1
    requires Ordered(0.0, before + ([Request(ip, now)] + (between + [Request(ip, later)])))
    requires LeavesAlone(between, ip)
    requires var v := Judge(c, Level(c, After(c, evicting, map[], before), ip, now));
             v.Rejected? && later >= now + v.retryAfter as real
    ensures var m := After(c, evicting, map[], before + ([Request(ip, now)] + between));
            Judge(c, Level(c, m, ip, later)) == Admitted
  {
    hide *;
    ValidIs(c);
    var m, last := After(c, evicting, map[], before), Request(ip, later);
    NoneSane(c);
    RunSane(c, evicting, map[], 0.0, before, [Request(ip, now)] + (between + [last]));
    AfterOne(c, evicting, m, EndOf(0.0, before), ip, now, between, last);
    RunConcat(c, evicting, map[], before, [Request(ip, now)] + between);
    JudgeExactly(c, Level(c, m, ip, now));
    JudgeExactly(c, Level(c, After(c, evicting, Used(c, m, ip, now), between), ip, later));
    LevelLater(c, m, ip, now, now);
    RetryAfterExactly(c, Level(c, m, ip, now));
    RetryFrom(c, evicting, m, ip, now, between, later, Judge(c, Level(c, m, ip, now)).retryAfter as real);
  }

  lemma NoneSane(c: Config)
    ensures Sane(c, map[], 0.0)
  {
  }

  // ---------------------------------------------------------------- admitted exactly within the bound

  lemma EndOfOne(now: real, front: seq<Event>, e: Event)
    requires Ordered(now, front + [e])
    ensures Ordered(now, front) && EndOf(now, front) <= TimeOf(e) && EndOf(now, front + [e]) == TimeOf(e)
    decreases |front|
  {
    if front == [] {
      assert front + [e] == [e] && [e][1..] == [];
    } else {
      assert (front + [e])[1..] == front[1..] + [e];
      EndOfOne(TimeOf(front[0]), front[1..], e);
    }
  }

  lemma OneAdmission(c: Config, evicting: bool, m: Limiters, e: Event, ip: string)
    ensures Admissions(c, evicting, m, [e], ip) == if Admits(c, m, e, ip) then 1 else 0
    ensures After(c, evicting, m, [e]) == Step(c, evicting, m, e)
  {
    assert [e][1..] == [];
  }

  lemma LevelGrown(c: Config, m: Limiters, ip: string, now: real, later: real)
    requires c.Valid() && Sane(c, m, now) && now <= later
    ensures Level(c, m, ip, later) == Grown(c, Level(c, m, ip, now), later - now)
  {
    hide Level, Sane;
    LevelLater(c, m, ip, now, later);
  }

  lemma LevelStepped(c: Config, evicting: bool, m: Limiters, now: real, e: Event, ip: string)
    requires c.Valid() && (evicting ==> c.RefillsBeforeEviction())
    requires Sane(c, m, now) && now <= TimeOf(e)
    ensures Level(c, Step(c, evicting, m, e), ip, TimeOf(e))
         == Level(c, m, ip, TimeOf(e)) - (if Admits(c, m, e, ip) then 1.0 else 0.0)
  {
    hide Level, Sane;
    StepSane(c, evicting, m, now, e);
    if e.Request? {
      LevelUsed(c, m, e.ip, e.at, ip);
    } else {
      LevelEvicted(c, m, TimeOf(e), ip);
    }
  }

  lemma LevelAfterStep(c: Config, evicting: bool, m: Limiters, now: real, e: Event, ip: string, later: real)
    requires c.Valid() && (evicting ==> c.RefillsBeforeEviction())
    requires Sane(c, m, now) && now <= TimeOf(e) <= later
    ensures Level(c, Step(c, evicting, m, e), ip, later)
         == Grown(c, Level(c, m, ip, TimeOf(e)) - (if Admits(c, m, e, ip) then 1.0 else 0.0), later - TimeOf(e))
  {
    hide Level, Sane, Step, Grown, Admits;
    StepSane(c, evicting, m, now, e);
    LevelStepped(c, evicting, m, now, e, ip);
    LevelGrown(c, Step(c, evicting, m, e), ip, TimeOf(e), later);
  }

  /** The stretch from the i-th event on, and what it admits. */
  function Since(c: Config, evicting: bool, events: seq<Event>, i: nat, ip: string): nat
    requires i <= |events|
  {
    Admissions(c, evicting, After(c, evicting, map[], events[..i]), events[i..], ip)
  }

  lemma SinceOneMore(c: Config, evicting: bool, front: seq<Event>, e: Event, i: nat, ip: string)
    requires c.Valid() && i <= |front|
    ensures Since(c, evicting, front + [e], i, ip)
         == Since(c, evicting, front, i, ip) + if Admits(c, After(c, evicting, map[], front), e, ip) then 1 else 0
    ensures After(c, evicting, map[], front + [e]) == Step(c, evicting, After(c, evicting, map[], front), e)
  {
    hide Admits, Step;
    var events := front + [e];
    assert events[..i] == front[..i] && events[i..] == front[i..] + [e] && front[..i] + front[i..] == front;
    AdmissionsConcat(c, evicting, After(c, evicting, map[], front[..i]), front[i..], [e], ip);
    RunConcat(c, evicting, map[], front[..i], front[i..]);
    RunConcat(c, evicting, map[], front, [e]);
    OneAdmission(c, evicting, After(c, evicting, map[], front), e, ip);
  }

  lemma NothingSince(c: Config, evicting: bool, events: seq<Event>, ip: string, t: real)
    ensures Since(c, evicting, events, |events|, ip) == 0
    ensures c.rate * (t - t) == 0.0
  {
    assert events[|events|..] == [];
  }

  /**
   An address's level is what a full bucket at the start of some stretch has left after the refill since and the
   admissions since.
   */
  lemma {:induction false} FullSince(c: Config, evicting: bool, events: seq<Event>, ip: string, t: real)
    returns (i: nat)
    requires c.Valid() && (evicting ==> c.RefillsBeforeEviction())
    requires Ordered(0.0, events) && EndOf(0.0, events) <= t
    ensures i <= |events|
    ensures var s := if i < |events| then TimeOf(events[i]) else t;
            Level(c, After(c, evicting, map[], events), ip, t)
            == c.Max() + c.rate * (t - s) - Since(c, evicting, events, i, ip) as real
    decreases |events|
  {
    hide *;
    NothingSince(c, evicting, events, ip, t);
    if events == [] {
      i := 0;
      NothingAfter(c, evicting, ip, t);
    } else {
      var front, e := events[..|events| - 1], events[|events| - 1];
      assert events == front + [e];
      EndOfOne(0.0, front, e);
      var te, m := TimeOf(e), After(c, evicting, map[], front);
      var j := FullSince(c, evicting, front, ip, te);
      SaneAfter(c, evicting, front, e);
      LevelAfterStep(c, evicting, m, EndOf(0.0, front), e, ip, t);
      SinceOneMore(c, evicting, front, e, j, ip);
      i := StillSince(c, evicting, events, ip, t, j,
                      Level(c, m, ip, te) - (if Admits(c, m, e, ip) then 1.0 else 0.0));
    }
  }

  lemma NothingAfter(c: Config, evicting: bool, ip: string, t: real)
    requires c.Valid()
    ensures Level(c, After(c, evicting, map[], []), ip, t) == c.Max()
    ensures Since(c, evicting, [], 0, ip) == 0
  {
    RefillFresh(c, c.Max(), t);
  }

  lemma SaneAfter(c: Config, evicting: bool, front: seq<Event>, e: Event)
    requires c.Valid() && Ordered(0.0, front + [e])
    ensures Sane(c, After(c, evicting, map[], front), EndOf(0.0, front))
  {
    RunSane(c, evicting, map[], 0.0, front, [e]);
  }

  /** Either the bucket has filled up again by t, or it is still the same stretch. */
  lemma StillSince(c: Config, evicting: bool, events: seq<Event>, ip: string, t: real, j: nat, left: real)
    returns (i: nat)
    requires events != [] && j < |events| && c.rate * (t - t) == 0.0
    requires var te, s := TimeOf(events[|events| - 1]), TimeOf(events[j]);
             left == c.Max() + c.rate * (te - s) - Since(c, evicting, events, j, ip) as real
    requires Level(c, After(c, evicting, map[], events), ip, t) == Grown(c, left, t - TimeOf(events[|events| - 1]))
    requires Since(c, evicting, events, |events|, ip) == 0
    ensures i <= |events|
    ensures var s := if i < |events| then TimeOf(events[i]) else t;
            Level(c, After(c, evicting, map[], events), ip, t)
            == c.Max() + c.rate * (t - s) - Since(c, evicting, events, i, ip) as real
  {
    hide Level, After, Since;
    var te, s := TimeOf(events[|events| - 1]), TimeOf(events[j]);
    GainChain(c, s, te, t);
    i := if left + c.rate * (t - te) > c.Max() then |events| else j;
  }

  /** One more admission of the address now keeps the stretch from the i-th event on within its bound. */
  predicate FitsSince(c: Config, evicting: bool, before: seq<Event>, i: nat, ip: string, now: real)
    requires i < |before|
  {
    (Since(c, evicting, before, i, ip) + 1) as real <= c.burst as real + c.rate * (now - TimeOf(before[i]))
  }

  /**
   A request is admitted exactly if no stretch of the run that ends with it would thereby let its address through more
   often than the burst and the stretch's refill.
   */
  lemma AdmittedExactly(c: Config, evicting: bool, before: seq<Event>, ip: string, now: real)
    requires c.rate > 0.0 && c.burst >= 1 && (evicting ==> c.burst as real <= 600.0 * c.rate)
    requires Ordered(0.0, before + [Request(ip, now)])
    ensures Judge(c, Level(c, After(c, evicting, map[], before), ip, now)) == Admitted
            <==> forall i | 0 <= i < |before| :: FitsSince(c, evicting, before, i, ip, now)
  {
    assert TimeOf(Request(ip, now)) == now;
    hide *;
    EndOfOne(0.0, before, Request(ip, now));
    JudgeExactly(c, Level(c, After(c, evicting, map[], before), ip, now));
    if Level(c, After(c, evicting, map[], before), ip, now) >= 1.0 {
      forall i | 0 <= i < |before| ensures FitsSince(c, evicting, before, i, ip, now) {
        StretchBound(c, evicting, before, i, ip, now);
      }
    } else {
      var i := SomeStretchFull(c, evicting, before, ip, now);
    }
  }

  lemma SomeStretchFull(c: Config, evicting: bool, before: seq<Event>, ip: string, now: real) returns (i: nat)
    requires c.Valid() && (evicting ==> c.RefillsBeforeEviction())
    requires Ordered(0.0, before) && EndOf(0.0, before) <= now
    requires Level(c, After(c, evicting, map[], before), ip, now) < 1.0
    ensures i < |before| && !FitsSince(c, evicting, before, i, ip, now)
  {
    hide Level, Since, After, EndOf, Ordered;
    i := FullSince(c, evicting, before, ip, now);
    NothingSince(c, evicting, before, ip, now);
  }

  lemma StretchBound(c: Config, evicting: bool, before: seq<Event>, i: nat, ip: string, now: real)
    requires c.Valid() && (evicting ==> c.RefillsBeforeEviction())
    requires Ordered(0.0, before + [Request(ip, now)]) && i < |before|
    requires Level(c, After(c, evicting, map[], before), ip, now) >= 1.0
    ensures FitsSince(c, evicting, before, i, ip, now)
  {
    var request := Request(ip, now);
    var all := before + [request];
    hide Level, After, Admissions;
    SinceOneMore(c, evicting, before, request, i, ip);
    assert all[..i] + all[i..] == all && all[..i] == before[..i] && all[i] == before[i];
    assert all[i..] == before[i..] + [request];
    WindowBound(c, evicting, all[..i], all[i..], ip);
    RunSane(c, evicting, map[], 0.0, all[..i], all[i..]) by {
      EmptySane(c);
    }
    EndOfStart(EndOf(0.0, all[..i]), TimeOf(before[i]), before[i..], request);
  }

  lemma EmptySane(c: Config)
    ensures Sane(c, map[], 0.0)
  {
  }

  lemma EndOfStart(now: real, start: real, window: seq<Event>, e: Event)
    requires Ordered(now, window + [e]) && window != [] && start == TimeOf(window[0])
    ensures EndOf(start, window + [e]) == TimeOf(e)
  {
    assert (window + [e])[1..] == window[1..] + [e];
    EndOfOne(start, window[1..], e);
  }
}
