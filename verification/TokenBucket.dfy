/** The token bucket of golang.org/x/time/rate in exact arithmetic: it starts full, refills at rps
    tokens a second up to burst, and a request takes one whole token or none. */
module TokenBucket {

  datatype Config = Config(rps: real, burst: nat, ttl: real) {
    predicate Valid() {
      rps >= 0.0 && ttl > 0.0
    }
  }

  /** The tokens there were at the last successful request. */
  datatype Bucket = Bucket(tokens: real, last: real)

  predicate Sane(cfg: Config, b: Bucket, now: real) {
    0.0 <= b.tokens <= cfg.burst as real && b.last <= now
  }

  function Avail(cfg: Config, b: Bucket, now: real): real {
    Capped(b.tokens + cfg.rps * (now - b.last), cfg.burst as real)
  }

  function Capped(t: real, top: real): real {
    if t > top then top else t
  }

  function Full(cfg: Config, now: real): Bucket {
    Bucket(cfg.burst as real, now)
  }

  /** Limiter.Allow: a denied request leaves the bucket as it was. */
  function Allow(cfg: Config, b: Bucket, now: real): (Bucket, bool) {
    var t := Avail(cfg, b, now);
    if t >= 1.0 then (Bucket(t - 1.0, now), true) else (b, false)
  }

  lemma NonNegative(r: real, x: real)
    requires r >= 0.0 && x >= 0.0
    ensures r * x >= 0.0
  {
  }

  lemma Scale(r: real, x: real, y: real)
    requires r >= 0.0 && x <= y
    ensures r * x <= r * y
  {
  }

  lemma Distribute(r: real, x: real, y: real)
    ensures r * (x + y) == r * x + r * y
  {
  }

  lemma CappedRange(tokens: real, refill: real, top: real)
    requires 0.0 <= tokens <= top && refill >= 0.0
    ensures tokens <= Capped(tokens + refill, top) <= top
  {
  }

  lemma CappedTwice(tokens: real, x: real, y: real, top: real)
    requires y >= 0.0
    ensures Capped(tokens + (x + y), top) == Capped(Capped(tokens + x, top) + y, top)
  {
  }

  lemma AvailRange(cfg: Config, b: Bucket, now: real)
    requires cfg.Valid() && Sane(cfg, b, now)
    ensures 0.0 <= Avail(cfg, b, now) <= cfg.burst as real
    ensures Avail(cfg, b, now) >= b.tokens
  {
    NonNegative(cfg.rps, now - b.last);
    CappedRange(b.tokens, cfg.rps * (now - b.last), cfg.burst as real);
  }

  /** Refilling in one go or in two is the same. */
  lemma AvailLater(cfg: Config, b: Bucket, now: real, later: real)
    requires cfg.Valid() && Sane(cfg, b, now) && now <= later
    ensures Avail(cfg, b, later) ==
            Capped(Avail(cfg, b, now) + cfg.rps * (later - now), cfg.burst as real)
  {
    Distribute(cfg.rps, now - b.last, later - now);
    assert later - b.last == (now - b.last) + (later - now);
    NonNegative(cfg.rps, later - now);
    CappedTwice(b.tokens, cfg.rps * (now - b.last), cfg.rps * (later - now), cfg.burst as real);
  }

  lemma AllowSane(cfg: Config, b: Bucket, now: real)
    requires cfg.Valid() && Sane(cfg, b, now)
    ensures Sane(cfg, Allow(cfg, b, now).0, now)
    ensures Avail(cfg, Allow(cfg, b, now).0, now) == Avail(cfg, b, now) - (if Allow(cfg, b, now).1 then 1.0 else 0.0)
  {
    AvailRange(cfg, b, now);
    var t := Avail(cfg, b, now) - 1.0;
    assert Avail(cfg, Bucket(t, now), now) == t + cfg.rps * 0.0 == t;
  }

  /** After long enough without a request a bucket is full again. */
  lemma FullAgain(cfg: Config, b: Bucket, now: real, idle: real)
    requires cfg.Valid() && Sane(cfg, b, now)
    requires now - b.last >= idle && cfg.rps * idle >= cfg.burst as real
    ensures Avail(cfg, b, now) == cfg.burst as real
  {
    Scale(cfg.rps, idle, now - b.last);
  }

  /** The decisions of one bucket, never evicted, on requests at the given times. */
  function Private(cfg: Config, b: Bucket, times: seq<real>): (oks: seq<bool>)
    ensures |oks| == |times|
    decreases |times|
  {
    if times == [] then []
    else
      var (b', ok) := Allow(cfg, b, times[0]);
      [ok] + Private(cfg, b', times[1..])
  }
}
