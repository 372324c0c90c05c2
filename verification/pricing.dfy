/** Effective price = base price plus the promotion that is active now (core/billing/pricing.py).
    Dollar amounts are whole cents, as the Numeric(12, 2) columns store them. */
module Pricing {
  import opened Wrappers

  datatype Promo = Promo(
    title: string,
    description: Option<string>,
    kind: string,
    percentOff: Option<int>,
    priceCents: Option<int>,
    priceStars: Option<int>,
    badge: string,
    startsAt: int,
    endsAt: int,
    enabled: bool)

  /** The singleton row of base prices. */
  datatype Config = Config(cents: nat, stars: nat, periodDays: nat)

  datatype Effective = Effective(cents: int, stars: int, periodDays: nat, promo: Option<nat>)

  /** Hundredths to a whole number, ties away from zero (ROUND_HALF_UP). */
  function HalfUp(n: int): int {
    if n >= 0 then (n + 50) / 100 else -((50 - n) / 100)
  }

  /** Hundredths to a whole number, ties to the even neighbour (Python's `round`). */
  function HalfEven(n: int): int {
    var q, r := n / 100, n % 100;
    if r < 50 || (r == 50 && q % 2 == 0) then q else q + 1
  }

  function PercentOff(p: Promo): int {
    if p.percentOff.Some? then p.percentOff.value else 0
  }

  function PromoCents(base: nat, p: Promo): int {
    Max(if p.kind == "fixed" && p.priceCents.Some? then p.priceCents.value
        else HalfUp(base * (100 - PercentOff(p))), 0)
  }

  function PromoStars(base: nat, p: Promo): int {
    Max(if p.kind == "fixed" && p.priceStars.Some? then p.priceStars.value
        else HalfEven(base * (100 - PercentOff(p))), 0)
  }

  /** `compute_effective`, for the promotion row with the given id, if any. */
  function ComputeEffective(cfg: Config, promo: Option<(nat, Promo)>): Effective {
    if promo.None? then Effective(cfg.cents, cfg.stars, cfg.periodDays, None)
    else
      Effective(PromoCents(cfg.cents, promo.value.1), PromoStars(cfg.stars, promo.value.1),
                cfg.periodDays, Some(promo.value.0))
  }

  // ---------------------------------------------------------------- rounding

  function Abs(x: int): nat { if x >= 0 then x else -x }

  /** Half-up rounding is the only value in its half-open unit, whose end away from zero is the open one. */
  lemma HalfUpExact(n: int, c: int)
    ensures c == HalfUp(n) <==>
              if n >= 0 then 100 * c - 50 <= n < 100 * c + 50 else 100 * c - 50 < n <= 100 * c + 50
  {
  }

  /** Half-even rounding is the only nearest value, the even one on a tie. */
  lemma HalfEvenExact(n: int, c: int)
    ensures c == HalfEven(n) <==> Abs(n - 100 * c) <= 50 && (Abs(n - 100 * c) == 50 ==> c % 2 == 0)
  {
    var q, r := n / 100, n % 100;
    assert n == 100 * q + r;
    if Abs(n - 100 * c) <= 50 {
      assert c == q || c == q + 1;
    }
  }

  lemma RoundingMonotone(m: nat, n: nat)
    requires m <= n
    ensures HalfUp(m) <= HalfUp(n) && HalfEven(m) <= HalfEven(n)
  {
    HalfEvenExact(m, HalfEven(m));
    HalfEvenExact(n, HalfEven(n));
  }

  /** The product whose hundredth part is rounded grows with the base and shrinks with the
      percentage. */
  lemma DiscountMonotone(b1: nat, b2: nat, p1: int, p2: int)
    requires b1 <= b2 && 0 <= p2 <= p1 <= 100
    ensures 0 <= b1 * (100 - p1) <= b2 * (100 - p2) <= 100 * b2
  {
    calc <= {
      b1 * (100 - p1);
      b2 * (100 - p1);
      b2 * (100 - p2);
    }
  }

  predicate PercentPromo(p: Promo) {
    p.kind == "percent" && p.percentOff.Some? && 1 <= p.percentOff.value <= 95
  }

  /** A percent promotion never raises a price, never makes it negative, and is never more than
      half a cent or half a star away from the exact discount. */
  lemma PercentPricesNearest(cfg: Config, id: nat, p: Promo)
    requires PercentPromo(p)
    ensures var e := ComputeEffective(cfg, Some((id, p)));
            && 0 <= e.cents <= cfg.cents && 0 <= e.stars <= cfg.stars
            && Abs(100 * e.cents - cfg.cents * (100 - p.percentOff.value)) <= 50
            && Abs(100 * e.stars - cfg.stars * (100 - p.percentOff.value)) <= 50
  {
    var d := p.percentOff.value;
    var e := ComputeEffective(cfg, Some((id, p)));
    DiscountMonotone(cfg.cents, cfg.cents, d, 0);
    DiscountMonotone(cfg.stars, cfg.stars, d, 0);
    DiscountMonotone(cfg.cents, cfg.cents, d, d);
    DiscountMonotone(cfg.stars, cfg.stars, d, d);
    RoundingMonotone(0, cfg.cents * (100 - d));
    RoundingMonotone(cfg.cents * (100 - d), 100 * cfg.cents);
    RoundingMonotone(0, cfg.stars * (100 - d));
    RoundingMonotone(cfg.stars * (100 - d), 100 * cfg.stars);
    HalfUpExact(cfg.cents * (100 - d), e.cents);
    HalfEvenExact(cfg.stars * (100 - d), e.stars);
  }

  /** A dearer base or a smaller discount never makes the discounted price lower. */
  lemma PercentPricesMonotone(cfg1: Config, cfg2: Config, p1: Promo, p2: Promo, id: nat)
    requires PercentPromo(p1) && PercentPromo(p2) && p2.percentOff.value <= p1.percentOff.value
    requires cfg1.cents <= cfg2.cents && cfg1.stars <= cfg2.stars
    ensures ComputeEffective(cfg1, Some((id, p1))).cents <= ComputeEffective(cfg2, Some((id, p2))).cents
    ensures ComputeEffective(cfg1, Some((id, p1))).stars <= ComputeEffective(cfg2, Some((id, p2))).stars
  {
    var d1, d2 := p1.percentOff.value, p2.percentOff.value;
    DiscountMonotone(cfg1.cents, cfg2.cents, d1, d2);
    DiscountMonotone(cfg1.stars, cfg2.stars, d1, d2);
    RoundingMonotone(cfg1.cents * (100 - d1), cfg2.cents * (100 - d2));
    RoundingMonotone(cfg1.stars * (100 - d1), cfg2.stars * (100 - d2));
  }
}
