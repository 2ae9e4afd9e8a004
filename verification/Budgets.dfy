/** Counting in whole ttls and full buckets. */
module Budgets {
  import opened TokenBucket

  /** How many whole ttls fit into x. */
  function Periods(cfg: Config, x: real): int
    requires cfg.Valid()
  {
    (x / cfg.ttl).Floor
  }

  lemma DivideMonotone(x: real, y: real, d: real)
    requires d > 0.0 && x <= y
    ensures x / d <= y / d
  {
  }

  lemma PeriodsMonotone(cfg: Config, x: real, y: real)
    requires cfg.Valid() && x <= y
    ensures Periods(cfg, x) <= Periods(cfg, y)
    ensures x >= 0.0 ==> Periods(cfg, x) >= 0
  {
    DivideMonotone(x, y, cfg.ttl);
    if x >= 0.0 {
      DivideMonotone(0.0, x, cfg.ttl);
    }
  }

  lemma MultiplyDivide(n: real, q: real, d: real)
    requires d > 0.0 && n == q * d
    ensures n / d == q
  {
  }

  lemma DivideStep(x: real, d: real)
    requires d > 0.0
    ensures (x + d) / d == x / d + 1.0
  {
    var q := x / d;
    MultiplyDivide(x + d, q + 1.0, d);
  }

  lemma PeriodsStep(cfg: Config, x: real, y: real)
    requires cfg.Valid() && x + cfg.ttl <= y
    ensures Periods(cfg, x) + 1 <= Periods(cfg, y)
  {
    DivideMonotone(x + cfg.ttl, y, cfg.ttl);
    DivideStep(x, cfg.ttl);
  }

  lemma MoreBursts(cfg: Config, k: int, n: int)
    requires k <= n
    ensures Bursts(cfg, k) <= Bursts(cfg, n)
    ensures Bursts(cfg, 0) == 0.0
  {
    Scale(cfg.burst as real, k as real, n as real);
  }

  lemma OneMoreBurst(cfg: Config, k: int)
    ensures Bursts(cfg, 1 + k) == cfg.burst as real + Bursts(cfg, k)
  {
    Distribute(cfg.burst as real, 1.0, k as real);
    assert (1 + k) as real == 1.0 + k as real;
  }

  /** k full buckets. */
  function Bursts(cfg: Config, k: int): real {
    cfg.burst as real * k as real
  }
}
