/** Subscription rows and the time they pay for (core/repositories/subscription.py and
    `get_user_plan` of api/services/billing.py).  Times are whole seconds. */
module Subscriptions {
  import opened Wrappers

  datatype PlanId = Free | Pro

  datatype Sub = Sub(plan: PlanId, expiresAt: Option<int>, paymentMethod: Option<string>)

  /** `get_user_plan`: an open-ended Pro row is lifetime Pro. */
  function UserPlan(sub: Option<Sub>, now: int): PlanId {
    if sub.None? || sub.value.plan != Pro then Free
    else if sub.value.expiresAt.None? || sub.value.expiresAt.value > now then Pro
    else Free
  }

  /** The row `extend_pro` leaves behind: GREATEST(COALESCE(expires_at, now), now) + period. */
  function Extended(sub: Option<Sub>, now: int, days: nat, how: string): Sub {
    var base := if sub.Some? && sub.value.expiresAt.Some? then Max(sub.value.expiresAt.value, now) else now;
    Sub(Pro, Some(base + days * DAY), Some(how))
  }

  function Lookup(rows: map<string, Sub>, user: string): Option<Sub> {
    if user in rows then Some(rows[user]) else None
  }

  class SubscriptionTable {
    var rows: map<string, Sub>

    constructor ()
      ensures rows == map[]
    {
      rows := map[];
    }

    /** Manual grant: the plan changes, the expiry does not. */
    method Upsert(user: string, plan: PlanId, how: Option<string>)
      modifies this
      ensures rows.Keys == old(rows).Keys + {user}
      ensures forall u :: u in old(rows) && u != user ==> rows[u] == old(rows)[u]
      ensures rows[user].plan == plan
      ensures rows[user].expiresAt == (if user in old(rows) then old(rows)[user].expiresAt else None)
      ensures rows[user].paymentMethod
           == (if user in old(rows) && how.None? then old(rows)[user].paymentMethod else how)
    {
      if user !in rows {
        rows := rows[user := Sub(plan, None, how)];
      } else {
        var row := rows[user].(plan := plan);
        if how.Some? {
          row := row.(paymentMethod := how);
        }
        rows := rows[user := row];
      }
    }

    method ExtendPro(user: string, days: nat, how: string, now: int)
      modifies this
      ensures rows == old(rows)[user := Extended(Lookup(old(rows), user), now, days, how)]
    {
      var interval := days * DAY;
      if user !in rows {
        rows := rows[user := Sub(Pro, Some(now + interval), Some(how))];
      } else {
        var current := if rows[user].expiresAt.Some? then rows[user].expiresAt.value else now;
        rows := rows[user := Sub(Pro, Some(Max(current, now) + interval), Some(how))];
      }
    }
  }

  // ---------------------------------------------------------------- many payments

  /** One applied payment: the clock reading `extend_pro` used, and the period it bought. */
  datatype Grant = Grant(at: int, days: nat, how: string)

  function AfterGrants(sub: Option<Sub>, gs: seq<Grant>): Option<Sub> {
    if gs == [] then sub
    else
      var g := gs[|gs| - 1];
      Some(Extended(AfterGrants(sub, gs[..|gs| - 1]), g.at, g.days, g.how))
  }

  /** Seconds bought by the payments from the k-th on. */
  function PaidFrom(gs: seq<Grant>, k: nat): nat
    requires k <= |gs|
    decreases |gs| - k
  {
    if k == |gs| then 0 else gs[k].days * DAY + PaidFrom(gs, k + 1)
  }

  lemma {:induction false} PaidFromSnoc(gs: seq<Grant>, g: Grant, k: nat)
    requires k <= |gs|
    ensures PaidFrom(gs + [g], k) == PaidFrom(gs, k) + g.days * DAY
    decreases |gs| - k
  {
    if k < |gs| {
      PaidFromSnoc(gs, g, k + 1);
    }
  }

  /** A row that is lifetime Pro. */
  predicate Lifetime(sub: Option<Sub>) {
    sub.Some? && sub.value.plan == Pro && sub.value.expiresAt.None?
  }

  /** `e` is the largest of: each payment's clock plus everything bought from it on, and the
      old expiry (if there was one) plus everything. */
  ghost predicate IsLatestReach(sub: Option<Sub>, gs: seq<Grant>, e: int) {
    && (forall k :: 0 <= k < |gs| ==> gs[k].at + PaidFrom(gs, k) <= e)
    && (sub.Some? && sub.value.expiresAt.Some? ==> sub.value.expiresAt.value + PaidFrom(gs, 0) <= e)
    && ((exists k :: 0 <= k < |gs| && gs[k].at + PaidFrom(gs, k) == e)
        || (sub.Some? && sub.value.expiresAt.Some? && sub.value.expiresAt.value + PaidFrom(gs, 0) == e))
  }

  /** Closed form of the stacking rule, for payments with arbitrary clock readings. */
  lemma {:induction false} ExpiryIsLatestReach(sub: Option<Sub>, gs: seq<Grant>)
    requires gs != []
    ensures var r := AfterGrants(sub, gs);
            r.Some? && r.value.plan == Pro && r.value.expiresAt.Some?
            && r.value.paymentMethod == Some(gs[|gs| - 1].how)
            && IsLatestReach(sub, gs, r.value.expiresAt.value)
  {
    var n := |gs| - 1;
    var front, g := gs[..n], gs[n];
    assert gs == front + [g];
    forall k | 0 <= k <= n
      ensures PaidFrom(gs, k) == PaidFrom(front, k) + g.days * DAY
    {
      PaidFromSnoc(front, g, k);
    }
    assert PaidFrom(gs, n) == g.days * DAY;
    var e := AfterGrants(sub, gs).value.expiresAt.value;
    if front != [] {
      ExpiryIsLatestReach(sub, front);
      var d := AfterGrants(sub, front).value.expiresAt.value;
      assert e == Max(d, g.at) + g.days * DAY;
      if d >= g.at && exists k :: 0 <= k < |front| && front[k].at + PaidFrom(front, k) == d {
        var k :| 0 <= k < |front| && front[k].at + PaidFrom(front, k) == d;
        assert gs[k].at + PaidFrom(gs, k) == e;
      }
      forall k | 0 <= k < |gs|
        ensures gs[k].at + PaidFrom(gs, k) <= e
      {
        if k < n {
          assert front[k].at + PaidFrom(front, k) <= d;
        }
      }
    }
  }

  /** Two payments with the same clock reading may be applied in either order. */
  lemma SameClockCommutes(sub: Option<Sub>, now: int, d1: nat, h1: string, d2: nat, h2: string)
    ensures Extended(Some(Extended(sub, now, d1, h1)), now, d2, h2).expiresAt
         == Extended(Some(Extended(sub, now, d2, h2)), now, d1, h1).expiresAt
  {
  }

  /** Exactly the lifetime rows can lose Pro time to a payment: their open end becomes finite. */
  lemma PaymentNeverShortensExact(sub: Option<Sub>, now: int, days: nat, how: string)
    ensures (forall t :: t >= now && UserPlan(sub, t) == Pro
                         ==> UserPlan(Some(Extended(sub, now, days, how)), t) == Pro)
        <==> !Lifetime(sub)
  {
    var after := Extended(sub, now, days, how);
    if Lifetime(sub) {
      var t := Max(now, after.expiresAt.value);
      assert UserPlan(sub, t) == Pro && UserPlan(Some(after), t) == Free;
    }
  }

  // ---------------------------------------------------------------- conservation of paid time

  predicate Sorted(gs: seq<Grant>) {
    forall i, j :: 0 <= i < j < |gs| ==> gs[i].at <= gs[j].at
  }

  /** How many leading payments were made strictly before second `t`. */
  function MadeBefore(gs: seq<Grant>, t: int): (n: nat)
    ensures n <= |gs|
    ensures forall k :: 0 <= k < n ==> gs[k].at < t
    ensures n < |gs| ==> gs[n].at >= t
  {
    if gs == [] || gs[0].at >= t then 0
    else
      var m := MadeBefore(gs[1..], t);
      assert forall k :: 1 <= k < m + 1 ==> gs[k] == gs[1..][k - 1];
      1 + m
  }

  function StateBefore(sub: Option<Sub>, gs: seq<Grant>, t: int): Option<Sub> {
    AfterGrants(sub, gs[..MadeBefore(gs, t)])
  }

  /** What `get_user_plan` answers during second `t`, once the payments of that second are in. */
  function PlanDuring(sub: Option<Sub>, gs: seq<Grant>, t: int): PlanId {
    UserPlan(StateBefore(sub, gs, t + 1), t)
  }

  /** Number of seconds of [a, b) reported as Pro. */
  function ProSeconds(sub: Option<Sub>, gs: seq<Grant>, a: int, b: int): nat
    decreases b - a
  {
    if b <= a then 0
    else ProSeconds(sub, gs, a, b - 1) + (if PlanDuring(sub, gs, b - 1) == Pro then 1 else 0)
  }

  /** Paid time a row still holds at second `t`. */
  function Left(sub: Option<Sub>, t: int): nat {
    if sub.Some? && sub.value.expiresAt.Some? && sub.value.expiresAt.value > t
    then sub.value.expiresAt.value - t else 0
  }

  /** No lifetime grant, and no downgraded row that still carries a future expiry. */
  predicate Ordinary(sub: Option<Sub>, t: int) {
    sub.Some? ==> if sub.value.plan == Pro then sub.value.expiresAt.Some? else Left(sub, t) == 0
  }

  lemma {:induction false} OrdinaryAfter(sub: Option<Sub>, gs: seq<Grant>, t0: int, t: int)
    requires Ordinary(sub, t0) && t0 <= t
    ensures Ordinary(AfterGrants(sub, gs), t)
  {
  }

  /** Payments that all fall on second `t` add exactly their periods to what is left. */
  lemma {:induction false} GrantsAddUp(sub: Option<Sub>, gs: seq<Grant>, from: nat, t: int)
    requires from <= |gs| && forall k :: from <= k < |gs| ==> gs[k].at == t
    ensures Left(AfterGrants(sub, gs), t) == Left(AfterGrants(sub, gs[..from]), t) + PaidFrom(gs, from)
    decreases |gs|
  {
    if from == |gs| {
      assert gs[..from] == gs;
    } else {
      var n := |gs| - 1;
      var front := gs[..n];
      GrantsAddUp(sub, front, from, t);
      assert front[..from] == gs[..from];
      assert gs == front + [gs[n]];
      PaidFromSnoc(front, gs[n], from);
    }
  }

  lemma {:induction false} PaidSplit(gs: seq<Grant>, m: nat, k: nat)
    requires k <= m <= |gs|
    ensures PaidFrom(gs[..m], k) + PaidFrom(gs, m) == PaidFrom(gs, k)
    decreases m - k
  {
    if k < m {
      PaidSplit(gs, m, k + 1);
    }
  }

  /** The payments of second `t` add their periods to what was left before it. */
  lemma PaymentsOfSecond(sub: Option<Sub>, gs: seq<Grant>, t: int)
    requires Sorted(gs)
    ensures Left(StateBefore(sub, gs, t + 1), t) + PaidFrom(gs[..MadeBefore(gs, t)], 0)
         == Left(StateBefore(sub, gs, t), t) + PaidFrom(gs[..MadeBefore(gs, t + 1)], 0)
  {
    hide Left, AfterGrants, MadeBefore;
    var m, n := MadeBefore(gs, t), MadeBefore(gs, t + 1);
    MadeBeforeMonotone(gs, t);
    var upTo := gs[..n];
    assert upTo[..m] == gs[..m];
    GrantsAddUp(sub, upTo, m, t);
    PaidSplit(upTo, m, 0);
  }

  /** One second passes: it is either consumed as Pro, or there was nothing left.  Ordinary rows
      are exactly the ones for which this bookkeeping is right. */
  lemma Tick(row: Option<Sub>, t: int)
    ensures (if UserPlan(row, t) == Pro then 1 else 0) + Left(row, t + 1) == Left(row, t) <==> Ordinary(row, t)
  {
  }

  /** Consumed plus remaining equals paid, at every second and for every payment history with a
      non-decreasing clock. */
  lemma {:induction false} PaidTimeConserved(sub: Option<Sub>, gs: seq<Grant>, a: int, b: int)
    requires Sorted(gs) && Ordinary(sub, a) && a <= b
    requires forall k :: 0 <= k < |gs| ==> gs[k].at >= a
    ensures ProSeconds(sub, gs, a, b) + Left(StateBefore(sub, gs, b), b)
         == Left(sub, a) + PaidFrom(gs[..MadeBefore(gs, b)], 0)
    decreases b - a
  {
    hide Left, AfterGrants, UserPlan, Ordinary, PaidFrom;
    if a == b {
      NothingMadeBefore(sub, gs, a);
    } else {
      var t := b - 1;
      PaidTimeConserved(sub, gs, a, t);
      PaymentsOfSecond(sub, gs, t);
      OrdinaryAfter(sub, gs[..MadeBefore(gs, b)], a, t);
      Tick(StateBefore(sub, gs, b), t);
    }
  }

  lemma NothingMadeBefore(sub: Option<Sub>, gs: seq<Grant>, a: int)
    requires forall k :: 0 <= k < |gs| ==> gs[k].at >= a
    ensures StateBefore(sub, gs, a) == sub && PaidFrom(gs[..MadeBefore(gs, a)], 0) == 0
  {
    assert MadeBefore(gs, a) == 0;
  }

  lemma MadeBeforeMonotone(gs: seq<Grant>, t: int)
    requires Sorted(gs)
    ensures MadeBefore(gs, t) <= MadeBefore(gs, t + 1)
    ensures forall k :: MadeBefore(gs, t) <= k < MadeBefore(gs, t + 1) ==> gs[k].at == t
  {
    var m, n := MadeBefore(gs, t), MadeBefore(gs, t + 1);
    forall k | m <= k < n
      ensures gs[k].at == t
    {
      assert gs[m].at >= t;
    }
  }

  /** Once everything has run out, the user has had exactly the time paid for. */
  lemma NoPaidDayLostOrDoubled(sub: Option<Sub>, gs: seq<Grant>, a: int, b: int)
    requires Sorted(gs) && Ordinary(sub, a) && a <= b
    requires forall k :: 0 <= k < |gs| ==> a <= gs[k].at < b
    requires UserPlan(AfterGrants(sub, gs), b) == Free
    ensures ProSeconds(sub, gs, a, b) == Left(sub, a) + PaidFrom(gs, 0)
  {
    PaidTimeConserved(sub, gs, a, b);
    assert MadeBefore(gs, b) == |gs|;
    assert gs[..|gs|] == gs;
    OrdinaryAfter(sub, gs, a, b);
  }

  /** PostgreSQL's now() is the start of the transaction.  If the row is extended at `stamp` but
      the extension only becomes visible later, at `seen`, the whole period survives exactly when
      the old subscription was still running at `seen`, or the stamp is not late. */
  lemma LateStampExact(sub: Option<Sub>, stamp: int, seen: int, days: nat, how: string)
    requires stamp <= seen && days > 0
    ensures Left(Some(Extended(sub, stamp, days, how)), seen) == Left(sub, seen) + days * DAY
        <==> stamp == seen || Left(sub, seen) > 0 || (sub.Some? && sub.value.expiresAt == Some(seen))
  {
  }
}
