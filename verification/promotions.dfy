/** Promotion records and the promotion that applies now (core/billing/promotions.py and
    `get_active_promo` of core/billing/pricing.py). */
module Promotions {
  import opened Wrappers
  import opened Pricing

  datatype Error = BadKind | BadBadge | BadWindow | BadPercent | MissingPrices | NegativePrices | Overlap

  datatype Outcome = Stored(id: nat) | Missing | Rejected(error: Error)

  const BADGES: set<string> := {"gold", "fire", "neon"}

  /** `_validate_fields`, checks in source order. */
  function FieldError(p: Promo): Option<Error> {
    if p.kind != "percent" && p.kind != "fixed" then Some(BadKind)
    else if p.badge !in BADGES then Some(BadBadge)
    else if p.endsAt <= p.startsAt then Some(BadWindow)
    else if p.kind == "percent" then
      if p.percentOff.None? || !(1 <= p.percentOff.value <= 95) then Some(BadPercent) else None
    else if p.priceCents.None? || p.priceStars.None? then Some(MissingPrices)
    else if p.priceCents.value < 0 || p.priceStars.value < 0 then Some(NegativePrices)
    else None
  }

  /** Which promotions are valid, and which fault of an invalid one is reported: the first in this order. */
  lemma FieldErrorExact(p: Promo)
    ensures var kindOk := p.kind == "percent" || p.kind == "fixed";
            var badgeOk := p.badge == "gold" || p.badge == "fire" || p.badge == "neon";
            var windowOk := p.startsAt < p.endsAt;
            var percentOk := p.percentOff.Some? && 1 <= p.percentOff.value <= 95;
            var given := p.priceCents.Some? && p.priceStars.Some?;
            && (FieldError(p) == Some(BadKind) <==> !kindOk)
            && (FieldError(p) == Some(BadBadge) <==> kindOk && !badgeOk)
            && (FieldError(p) == Some(BadWindow) <==> kindOk && badgeOk && !windowOk)
            && (kindOk && badgeOk && windowOk ==>
                  if p.kind == "percent" then FieldError(p) == if percentOk then None else Some(BadPercent)
                  else if !given then FieldError(p) == Some(MissingPrices)
                  else FieldError(p) == if p.priceCents.value >= 0 && p.priceStars.value >= 0 then None
                                        else Some(NegativePrices))
  {
  }

  /** A row other than `except` is enabled and its window meets that of `p`. */
  predicate Clashes(rows: map<nat, Promo>, p: Promo, except: Option<nat>) {
    exists i :: i in rows && except != Some(i)
                && rows[i].enabled && rows[i].startsAt < p.endsAt && rows[i].endsAt > p.startsAt
  }

  /** What validation says about storing `p`, replacing the row `except` if given. */
  function StoreError(rows: map<nat, Promo>, p: Promo, except: Option<nat>): Option<Error> {
    if FieldError(p).Some? then FieldError(p)
    else if p.enabled && Clashes(rows, p, except) then Some(Overlap)
    else None
  }

  /** A valid row is refused exactly when it is enabled and some other enabled row shares an instant with it. */
  lemma OverlapExact(rows: map<nat, Promo>, p: Promo, except: Option<nat>)
    requires FieldError(p).None?
    ensures StoreError(rows, p, except) ==
              if p.enabled && exists i :: i in rows && Some(i) != except && rows[i].enabled &&
                                          rows[i].startsAt < p.endsAt && p.startsAt < rows[i].endsAt
              then Some(Overlap) else None
  {
  }

  /** The fields of an update request; a missing field keeps the stored value.  An explicit null
      is ignored, except that it clears the description. */
  datatype Patch = Patch(
    title: Option<string>,
    description: Option<Option<string>>,
    kind: Option<string>,
    percentOff: Option<int>,
    priceCents: Option<int>,
    priceStars: Option<int>,
    badge: Option<string>,
    startsAt: Option<int>,
    endsAt: Option<int>,
    enabled: Option<bool>)

  function Or<T>(new_: Option<T>, old_: T): T { if new_.Some? then new_.value else old_ }

  function OrKeep<T>(new_: Option<T>, old_: Option<T>): Option<T> { if new_.Some? then new_ else old_ }

  function Merged(p: Promo, f: Patch): Promo {
    Promo(Or(f.title, p.title), Or(f.description, p.description), Or(f.kind, p.kind),
          OrKeep(f.percentOff, p.percentOff), OrKeep(f.priceCents, p.priceCents),
          OrKeep(f.priceStars, p.priceStars), Or(f.badge, p.badge),
          Or(f.startsAt, p.startsAt), Or(f.endsAt, p.endsAt), Or(f.enabled, p.enabled))
  }

  /** The column takes the value that the request gives, and keeps its own if there is none. */
  predicate Takes<T(==)>(given: Option<T>, stored: T, merged: T) {
    merged == if given.Some? then given.value else stored
  }

  /** Each column of an updated row is about its own field of the request.  A given price or percentage
      replaces the stored one but cannot be taken away; a description can. */
  lemma MergedMeans(p: Promo, f: Patch)
    ensures var m := Merged(p, f);
            && Takes(f.title, p.title, m.title) && Takes(f.description, p.description, m.description)
            && Takes(f.kind, p.kind, m.kind) && Takes(f.badge, p.badge, m.badge)
            && Takes(f.startsAt, p.startsAt, m.startsAt) && Takes(f.endsAt, p.endsAt, m.endsAt)
            && Takes(f.enabled, p.enabled, m.enabled)
            && (f.percentOff.Some? ==> m.percentOff == f.percentOff)
            && (f.percentOff.None? ==> m.percentOff == p.percentOff)
            && (f.priceCents.Some? ==> m.priceCents == f.priceCents)
            && (f.priceCents.None? ==> m.priceCents == p.priceCents)
            && (f.priceStars.Some? ==> m.priceStars == f.priceStars)
            && (f.priceStars.None? ==> m.priceStars == p.priceStars)
  {
  }

  class PromotionStore {
    var rows: map<nat, Promo>
    var nextId: nat

    /** Ids come from a sequence, so a new one is never in use. */
    ghost predicate Valid() reads this {
      && (forall i :: i in rows ==> i < nextId)
      && Consistent(rows)
    }

    constructor ()
      ensures Valid() && rows == map[]
    {
      rows, nextId := map[], 0;
    }

    method CreatePromotion(p: Promo) returns (r: Outcome)
      requires Valid()
      modifies this
      ensures Valid()
      ensures match StoreError(old(rows), p, None)
              case Some(e) => r == Rejected(e) && rows == old(rows)
              case None => r.Stored? && r.id !in old(rows) && rows == old(rows)[r.id := p]
    {
      var err := FieldError(p);
      if err.Some? {
        return Rejected(err.value);
      }
      if p.enabled && Clashes(rows, p, None) {
        return Rejected(Overlap);
      }
      StoringKeepsConsistent(rows, nextId, p, None);
      r := Stored(nextId);
      rows, nextId := rows[nextId := p], nextId + 1;
    }

    method UpdatePromotion(id: nat, f: Patch) returns (r: Outcome)
      requires Valid()
      modifies this`rows
      ensures Valid()
      ensures id !in old(rows) ==> r == Missing && rows == old(rows)
      ensures id in old(rows) ==>
        match StoreError(old(rows), Merged(old(rows)[id], f), Some(id))
        case Some(e) => r == Rejected(e) && rows == old(rows)
        case None => r == Stored(id) && rows == old(rows)[id := Merged(old(rows)[id], f)]
    {
      if id !in rows {
        return Missing;
      }
      var merged := Merged(rows[id], f);
      var err := FieldError(merged);
      if err.Some? {
        return Rejected(err.value);
      }
      if merged.enabled && Clashes(rows, merged, Some(id)) {
        return Rejected(Overlap);
      }
      StoringKeepsConsistent(rows, id, merged, Some(id));
      rows := rows[id := merged];
      r := Stored(id);
    }

    method DeletePromotion(id: nat) returns (found: bool)
      requires Valid()
      modifies this`rows
      ensures Valid()
      ensures found == (id in old(rows)) && rows == old(rows) - {id}
    {
      found := id in rows;
      rows := rows - {id};
    }

    /** `get_active_promo`: of the rows live at `now`, one that started last. */
    method GetActivePromo(now: int) returns (r: Option<nat>)
      requires Valid()
      ensures IsActiveAnswer(rows, now, r)
    {
      r := None;
      var todo := rows.Keys;
      while todo != {}
        invariant todo <= rows.Keys
        invariant r.Some? ==> r.value in rows && Live(rows[r.value], now)
        invariant forall i :: i in rows && i !in todo && Live(rows[i], now) ==>
                    r.Some? && rows[r.value].startsAt >= rows[i].startsAt
        decreases todo
      {
        var i :| i in todo;
        todo := todo - {i};
        if Live(rows[i], now) && (r.None? || rows[i].startsAt > rows[r.value].startsAt) {
          r := Some(i);
        }
      }
    }
  }

  // ---------------------------------------------------------------- one promotion at a time

  predicate Live(p: Promo, now: int) {
    p.enabled && p.startsAt <= now < p.endsAt
  }

  /** `ORDER BY starts_at DESC LIMIT 1` may answer any of the latest-starting live rows. */
  ghost predicate IsActiveAnswer(rows: map<nat, Promo>, now: int, r: Option<nat>) {
    match r
    case None => forall i :: i in rows ==> !Live(rows[i], now)
    case Some(i) =>
      && i in rows && Live(rows[i], now)
      && forall j :: j in rows && Live(rows[j], now) ==> rows[j].startsAt <= rows[i].startsAt
  }

  /** Every stored row is valid, and no two enabled windows share an instant. */
  ghost predicate Consistent(rows: map<nat, Promo>) {
    && (forall i :: i in rows ==> FieldError(rows[i]).None?)
    && (forall i, j :: i in rows && j in rows && i != j && rows[i].enabled && rows[j].enabled ==>
          rows[i].endsAt <= rows[j].startsAt || rows[j].endsAt <= rows[i].startsAt)
  }

  /** The validator is exact: a row may be stored under `id` iff the table stays consistent. */
  lemma StoringKeepsConsistent(rows: map<nat, Promo>, id: nat, p: Promo, except: Option<nat>)
    requires Consistent(rows)
    requires except == if id in rows then Some(id) else None
    ensures StoreError(rows, p, except).None? <==> Consistent(rows[id := p])
  {
    var after := rows[id := p];
    if Consistent(after) {
      assert after[id] == p;
      forall i | i in rows && except != Some(i)
        ensures !(p.enabled && rows[i].enabled && rows[i].startsAt < p.endsAt && rows[i].endsAt > p.startsAt)
      {
        assert after[i] == rows[i];
      }
    }
    if StoreError(rows, p, except).None? {
      forall i, j | i in after && j in after && i != j && after[i].enabled && after[j].enabled
        ensures after[i].endsAt <= after[j].startsAt || after[j].endsAt <= after[i].startsAt
      {
        if i == id || j == id {
          var other := if i == id then j else i;
          assert other in rows && except != Some(other);
        }
      }
    }
  }

  function Existing(rows: map<nat, Promo>, id: nat): Option<nat> {
    if id in rows then Some(id) else None
  }

  /** Validation and write are two steps.  Two requests on different rows, creating or updating, that were
      both validated against the same table leave it consistent exactly when they do not clash with each
      other. */
  lemma UnlockedWritesExact(rows: map<nat, Promo>, i: nat, p: Promo, j: nat, q: Promo)
    requires Consistent(rows) && i != j
    requires StoreError(rows, p, Existing(rows, i)).None? && StoreError(rows, q, Existing(rows, j)).None?
    ensures Consistent(rows[i := p][j := q])
        <==> !(p.enabled && q.enabled && p.startsAt < q.endsAt && q.startsAt < p.endsAt)
  {
    var one := rows[i := p];
    StoringKeepsConsistent(rows, i, p, Existing(rows, i));
    StoringKeepsConsistent(one, j, q, Existing(one, j));
    assert one[i] == p;
    if p.enabled && p.startsAt < q.endsAt && p.endsAt > q.startsAt {
      assert Clashes(one, q, Existing(one, j));
    } else {
      forall k | k in one && Existing(one, j) != Some(k)
        ensures !(q.enabled && one[k].enabled && one[k].startsAt < q.endsAt && one[k].endsAt > q.startsAt)
      {
        assert k == i || (k in rows && one[k] == rows[k] && Existing(rows, j) != Some(k));
      }
    }
  }

  /** The row after two updates that both read it as `loaded`: the second writes back what it changed. */
  function WrittenOver(row: Promo, loaded: Promo, current: Promo): Promo {
    Promo(Column(row.title, loaded.title, current.title),
          Column(row.description, loaded.description, current.description),
          Column(row.kind, loaded.kind, current.kind),
          Column(row.percentOff, loaded.percentOff, current.percentOff),
          Column(row.priceCents, loaded.priceCents, current.priceCents),
          Column(row.priceStars, loaded.priceStars, current.priceStars),
          Column(row.badge, loaded.badge, current.badge),
          Column(row.startsAt, loaded.startsAt, current.startsAt),
          Column(row.endsAt, loaded.endsAt, current.endsAt),
          Column(row.enabled, loaded.enabled, current.enabled))
  }

  /** Only what an update has changed is written: over the row as it was loaded that gives the row it wants,
      and an update without changes leaves the row as it has become. */
  lemma WrittenOverMeans(row: Promo, loaded: Promo, current: Promo)
    ensures WrittenOver(loaded, loaded, current) == current
    ensures WrittenOver(row, loaded, loaded) == row
  {
  }

  /** The check constraints of the table. */
  predicate TableAccepts(p: Promo) {
    && p.kind in {"percent", "fixed"}
    && (if p.kind == "percent" then p.percentOff.Some? && 1 <= p.percentOff.value <= 95
        else p.priceCents.Some? && p.priceStars.Some?)
    && p.startsAt < p.endsAt
  }

  /** Two updates of one row, both validated against the same table.  The table refuses the second exactly
      when their columns do not fit together, but for the sign of fixed prices; an accepted one leaves the
      table consistent exactly when no fixed price has become negative and the combined row, if enabled,
      clashes with no other. */
  lemma SameRowExact(rows: map<nat, Promo>, id: nat, f: Patch, g: Patch)
    requires Consistent(rows) && id in rows
    requires StoreError(rows, Merged(rows[id], f), Some(id)).None?
    requires StoreError(rows, Merged(rows[id], g), Some(id)).None?
    ensures var both := WrittenOver(Merged(rows[id], f), rows[id], Merged(rows[id], g));
            && (TableAccepts(both) <==> FieldError(both) in {None, Some(NegativePrices)})
            && (TableAccepts(both) ==>
                  (Consistent(rows[id := both]) <==>
                     !(both.kind == "fixed" && (both.priceCents.value < 0 || both.priceStars.value < 0)) &&
                     !(both.enabled && Clashes(rows, both, Some(id)))))
  {
    hide Clashes;
    var both := WrittenOver(Merged(rows[id], f), rows[id], Merged(rows[id], g));
    StoringKeepsConsistent(rows, id, both, Some(id));
    FieldsFit(rows[id], Merged(rows[id], f), Merged(rows[id], g));
  }

  lemma FieldsFit(loaded: Promo, p: Promo, q: Promo)
    requires FieldError(loaded).None? && FieldError(p).None? && FieldError(q).None?
    ensures var both := WrittenOver(p, loaded, q);
            && (TableAccepts(both) <==> FieldError(both) in {None, Some(NegativePrices)})
            && (TableAccepts(both) ==>
                  (FieldError(both).None? <==>
                     !(both.kind == "fixed" && (both.priceCents.value < 0 || both.priceStars.value < 0))))
  {
  }

  const NO_CHANGE := Patch(None, None, None, None, None, None, None, None, None, None)

  /** One request enables a promotion while the other moves it onto the window of an enabled one. */
  lemma EnabledOntoWindow(rows: map<nat, Promo>, id: nat, other: nat)
    requires Consistent(rows) && id in rows && other in rows && id != other
    requires !rows[id].enabled && rows[other].enabled && !Clashes(rows, rows[id], Some(id))
    ensures var enable := NO_CHANGE.(enabled := Some(true));
            var move := NO_CHANGE.(startsAt := Some(rows[other].startsAt), endsAt := Some(rows[other].endsAt));
            var p, q := Merged(rows[id], enable), Merged(rows[id], move);
            && StoreError(rows, p, Some(id)).None? && StoreError(rows, q, Some(id)).None?
            && TableAccepts(WrittenOver(p, rows[id], q))
            && !Consistent(rows[id := WrittenOver(p, rows[id], q)])
  {
    var enable := NO_CHANGE.(enabled := Some(true));
    var move := NO_CHANGE.(startsAt := Some(rows[other].startsAt), endsAt := Some(rows[other].endsAt));
    var p, q := Merged(rows[id], enable), Merged(rows[id], move);
    assert FieldError(rows[other]).None? && FieldError(rows[id]).None?;
    var both := WrittenOver(p, rows[id], q);
    assert rows[id := both][other] == rows[other] && rows[id := both][id] == both;
  }

  /** At any instant at most one promotion is live, so the query's answer does not depend on how
      ties are ordered: the answers are exactly the live rows, and there is at most one. */
  lemma ActivePromoUnique(rows: map<nat, Promo>, now: int, i: nat, j: nat)
    requires Consistent(rows)
    ensures IsActiveAnswer(rows, now, Some(i)) <==> i in rows && Live(rows[i], now)
    ensures IsActiveAnswer(rows, now, Some(i)) && IsActiveAnswer(rows, now, Some(j)) ==> i == j
  {
  }

  /** The price under a promotion: its fixed prices, as far as it is a fixed one that has them, or the
      discounted base rounded half up to the cent and half to even to the star, no percentage counting as
      none; never below zero.  The period is never changed. */
  lemma PromoPriceExact(cfg: Config, id: nat, p: Promo)
    ensures var e := ComputeEffective(cfg, Some((id, p)));
            var left := 100 - if p.percentOff.Some? then p.percentOff.value else 0;
            && e.periodDays == cfg.periodDays && e.promo == Some(id) && e.cents >= 0 && e.stars >= 0
            && (if p.kind == "fixed" && p.priceCents.Some? then
                  e.cents == (if p.priceCents.value < 0 then 0 else p.priceCents.value)
                else if cfg.cents * left >= 0 then 100 * e.cents - 50 <= cfg.cents * left < 100 * e.cents + 50
                else e.cents == 0)
            && (if p.kind == "fixed" && p.priceStars.Some? then
                  e.stars == (if p.priceStars.value < 0 then 0 else p.priceStars.value)
                else if cfg.stars * left >= 0 then
                  && Abs(cfg.stars * left - 100 * e.stars) <= 50
                  && (Abs(cfg.stars * left - 100 * e.stars) == 50 ==> e.stars % 2 == 0)
                else e.stars == 0)
  {
    hide HalfUp, HalfEven;
    var left := 100 - if p.percentOff.Some? then p.percentOff.value else 0;
    HalfUpExact(cfg.cents * left, HalfUp(cfg.cents * left));
    HalfEvenExact(cfg.stars * left, HalfEven(cfg.stars * left));
  }

  /** A valid fixed promotion charges its own prices. */
  lemma FixedPrices(cfg: Config, id: nat, p: Promo)
    requires FieldError(p).None? && p.kind == "fixed"
    ensures var e := ComputeEffective(cfg, Some((id, p)));
            Some(e.cents) == p.priceCents && Some(e.stars) == p.priceStars
  {
  }

  /** A window includes its first instant and not its last, so two windows that meet are never both live and
      leave no gap. */
  lemma AdjacentWindows(p: Promo, q: Promo, now: int)
    requires p.enabled && q.enabled && p.startsAt < p.endsAt == q.startsAt < q.endsAt
    ensures !(Live(p, now) && Live(q, now))
    ensures Live(p, now) || Live(q, now) <==> p.startsAt <= now < q.endsAt
  {
  }

  function PriceGiven(rows: map<nat, Promo>, cfg: Config, active: Option<nat>): Effective
    requires active.Some? ==> active.value in rows
  {
    ComputeEffective(cfg, if active.None? then None else Some((active.value, rows[active.value])))
  }

  /** The price is a function of the instant, and it is the base price exactly when no enabled
      window contains that instant (a promotion in force is always named in the answer). */
  lemma PriceReturnsToBase(rows: map<nat, Promo>, cfg: Config, now: int, a: Option<nat>, b: Option<nat>)
    requires Consistent(rows) && IsActiveAnswer(rows, now, a) && IsActiveAnswer(rows, now, b)
    ensures PriceGiven(rows, cfg, a) == PriceGiven(rows, cfg, b)
    ensures PriceGiven(rows, cfg, a) == Effective(cfg.cents, cfg.stars, cfg.periodDays, None)
        <==> forall i :: i in rows ==> !Live(rows[i], now)
  {
    if a.Some? && b.Some? {
      ActivePromoUnique(rows, now, a.value, b.value);
    }
  }
}
