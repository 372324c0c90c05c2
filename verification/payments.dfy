/** Payments for Pro (core/billing/payments.py): one call at a time.  The races between calls are
    in payment_races.dfy. */
module Payments {
  import opened Wrappers
  import opened Subscriptions
  import Pricing

  datatype Provider = Stars | Crypto

  datatype Status = Pending | Paid | Expired | Failed

  datatype Amount = StarCount(stars: int) | Cents(cents: int)

  datatype Payment = Payment(
    user: string,
    provider: Provider,
    planId: string,
    payload: string,
    invoiceId: Option<string>,
    status: Status,
    amount: Amount,
    currency: string,
    quote: Pricing.Effective,
    createdAt: int,
    expiresAt: int,
    paidAt: Option<int>,
    appliedAt: Option<int>)
  {
    function Days(): nat { quote.periodDays }
  }

  function ProviderName(p: Provider): string {
    if p == Stars then "stars" else "crypto"
  }

  /** The guard of `confirm_payment`: this payment has already extended the subscription. */
  predicate Applied(p: Payment) {
    p.status == Paid && p.appliedAt.Some?
  }

  /** The row `confirm_payment` writes, given the copy `seen` the session works on and the row
      `stored` in the table.  The ORM writes back only the columns that differ from `seen`. */
  function MarkPaid(seen: Payment, stored: Payment, setInvoice: Option<string>, now: int): Payment {
    stored.(status := Paid,
            paidAt := if seen.paidAt.Some? then stored.paidAt else Some(now),
            appliedAt := Some(now),
            invoiceId := if setInvoice.Some? && seen.invoiceId.None? then setInvoice else stored.invoiceId)
  }

  /** The written row is the stored one with the columns that the session has changed on its own copy: what it
      has not changed stays as it has become, even if the copy is outdated. */
  lemma WritesItsChanges(seen: Payment, stored: Payment, setInvoice: Option<string>, now: int)
    ensures var row := MarkPaid(seen, stored, setInvoice, now);
            var paidAt := if seen.paidAt.Some? then seen.paidAt else Some(now);
            var invoice := if seen.invoiceId.None? && setInvoice.Some? then setInvoice else seen.invoiceId;
            && row.paidAt == Column(stored.paidAt, seen.paidAt, paidAt)
            && row.invoiceId == Column(stored.invoiceId, seen.invoiceId, invoice)
            && (seen.status != Paid ==> row.status == Column(stored.status, seen.status, Paid))
            && (seen.appliedAt.None? ==> row.appliedAt == Column(stored.appliedAt, seen.appliedAt, Some(now)))
  {
  }

  // ---------------------------------------------------------------- looking a payment up

  datatype Key = ByPayload(payload: string) | ByInvoice(provider: Provider, invoiceId: string)

  predicate Matches(p: Payment, key: Key) {
    match key
    case ByPayload(s) => p.payload == s
    case ByInvoice(v, id) => p.provider == v && p.invoiceId == Some(id)
  }

  /** Index of the first matching row. */
  function FindPayment(rows: seq<Payment>, key: Key): (r: Option<nat>)
    ensures r.Some? ==> r.value < |rows| && Matches(rows[r.value], key)
    ensures r.None? ==> forall i :: 0 <= i < |rows| ==> !Matches(rows[i], key)
  {
    if rows == [] then None
    else if Matches(rows[0], key) then Some(0)
    else
      var r := FindPayment(rows[1..], key);
      assert r.None? ==> forall i :: 1 <= i < |rows| ==> rows[i] == rows[1..][i - 1];
      if r.None? then None else Some(r.value + 1)
  }

  /** The two unique constraints of the table. */
  ghost predicate UniqueKeys(rows: seq<Payment>) {
    forall i, j :: 0 <= i < j < |rows| ==>
      && rows[i].payload != rows[j].payload
      && !(rows[i].provider == rows[j].provider && rows[i].invoiceId.Some? && rows[i].invoiceId == rows[j].invoiceId)
  }

  /** Another row of this provider already has this invoice id. */
  predicate InvoiceTaken(rows: seq<Payment>, i: nat, row: Payment)
    requires i < |rows|
  {
    row.invoiceId.Some?
    && (exists j :: 0 <= j < |rows| && j != i && rows[j].provider == row.provider && rows[j].invoiceId == row.invoiceId)
  }

  // ---------------------------------------------------------------- live pending payments

  predicate LivePending(p: Payment, user: string, v: Provider, planId: string, now: int) {
    p.user == user && p.provider == v && p.planId == planId && p.status == Pending && p.expiresAt > now
  }

  /** At most one payment per (user, provider, plan) can still be paid in time. */
  ghost predicate OneLivePending(rows: seq<Payment>, now: int) {
    forall i, j :: 0 <= i < j < |rows| && LivePending(rows[j], rows[j].user, rows[j].provider, rows[j].planId, now)
      ==> !LivePending(rows[i], rows[j].user, rows[j].provider, rows[j].planId, now)
  }

  function SweepRow(p: Payment, now: int): Payment {
    if p.status == Pending && p.expiresAt <= now then p.(status := Expired) else p
  }

  function NewPayment(user: string, v: Provider, planId: string, payload: string, asset: string,
                      eff: Pricing.Effective, ttl: int, now: int): Payment {
    Payment(user, v, planId, payload, None, Pending,
            if v == Crypto then Cents(eff.cents) else StarCount(eff.stars),
            if v == Crypto then asset else "XTR",
            eff, now, now + ttl, None, None)
  }

  datatype Outcome = JustApplied | AlreadyApplied | NotFound | BadRequest | Conflict

  class PaymentLedger {
    var payments: seq<Payment>
    var subs: map<string, Sub>

    ghost predicate Valid() reads this {
      UniqueKeys(payments)
    }

    constructor ()
      ensures Valid() && payments == [] && subs == map[]
    {
      payments, subs := [], map[];
    }

    /** Create a pending payment with the price fixed now, or reuse the newest live one.
        `payload` is the fresh random token. */
    method CreatePayment(user: string, v: Provider, planId: string, payload: string, asset: string,
                         eff: Pricing.Effective, ttl: int, now: int) returns (i: nat)
      requires Valid() && forall k :: 0 <= k < |payments| ==> payments[k].payload != payload
      modifies this`payments
      ensures Valid() && i < |payments|
      ensures if exists k :: 0 <= k < |old(payments)| && LivePending(old(payments)[k], user, v, planId, now)
              then payments == old(payments) && LivePending(payments[i], user, v, planId, now)
                   && forall k :: 0 <= k < |payments| && LivePending(payments[k], user, v, planId, now)
                                  ==> payments[k].createdAt <= payments[i].createdAt
              else i == |old(payments)|
                   && payments == old(payments) + [NewPayment(user, v, planId, payload, asset, eff, ttl, now)]
      ensures OneLivePending(old(payments), now) ==> OneLivePending(payments, now)
    {
      var newest: Option<nat> := None;
      var k := 0;
      while k < |payments|
        invariant k <= |payments|
        invariant newest.None? ==> forall j :: 0 <= j < k ==> !LivePending(payments[j], user, v, planId, now)
        invariant newest.Some? ==> newest.value < k && LivePending(payments[newest.value], user, v, planId, now)
        invariant newest.Some? ==> forall j :: 0 <= j < k && LivePending(payments[j], user, v, planId, now)
                                     ==> payments[j].createdAt <= payments[newest.value].createdAt
      {
        if LivePending(payments[k], user, v, planId, now)
           && (newest.None? || payments[k].createdAt > payments[newest.value].createdAt) {
          newest := Some(k);
        }
        k := k + 1;
      }
      if newest.Some? {
        return newest.value;
      }
      i := |payments|;
      payments := payments + [NewPayment(user, v, planId, payload, asset, eff, ttl, now)];
    }

    /** Apply a paid invoice exactly once.  Everything happens in one transaction; each rejected
        call is rolled back and changes nothing. */
    method ConfirmPayment(payload: Option<string>, provider: Option<Provider>, invoice: Option<string>,
                          setInvoice: Option<string>, now: int) returns (r: Outcome)
      requires Valid()
      modifies this
      ensures Valid()
      ensures var key := KeyOf(payload, provider, invoice);
              if key.None? then r == BadRequest && payments == old(payments) && subs == old(subs)
              else r == Confirmed(old(payments), old(subs), key.value, setInvoice, now).0
                   && (payments, subs) == Confirmed(old(payments), old(subs), key.value, setInvoice, now).1
    {
      var key := KeyOf(payload, provider, invoice);
      if key.None? {
        return BadRequest;
      }
      var found := FindPayment(payments, key.value);
      if found.None? {
        return NotFound;
      }
      var i := found.value;
      var p := payments[i];
      if p.status == Paid && p.appliedAt.Some? {
        return AlreadyApplied;
      }
      if setInvoice.Some? && p.invoiceId.None? {
        p := p.(invoiceId := setInvoice);
      }
      p := p.(status := Paid, paidAt := if p.paidAt.Some? then p.paidAt else Some(now), appliedAt := Some(now));
      if InvoiceTaken(payments, i, p) {
        return Conflict;
      }
      payments := payments[i := p];
      subs := subs[p.user := Extended(Lookup(subs, p.user), now, p.Days(), ProviderName(p.provider))];
      r := JustApplied;
    }

    method ExpireStalePending(now: int) returns (count: nat)
      requires Valid()
      modifies this`payments
      ensures Valid()
      ensures |payments| == |old(payments)|
      ensures forall k :: 0 <= k < |payments| ==>
                payments[k] == if old(payments)[k].status == Pending && old(payments)[k].expiresAt <= now
                               then old(payments)[k].(status := Expired) else old(payments)[k]
      ensures count == |set k | 0 <= k < |payments| && payments[k] != old(payments)[k]|
      ensures forall k :: 0 <= k < |payments| && payments[k].status == Pending ==> payments[k].expiresAt > now
      ensures OneLivePending(old(payments), now) ==> OneLivePending(payments, now)
    {
      hide OneLivePending, UniqueKeys, StaleCount;
      count := 0;
      ghost var before := payments;
      StaleCountNone(now);
      var k := 0;
      while k < |payments|
        invariant k <= |payments| == |before|
        invariant forall j :: 0 <= j < k ==> payments[j] == SweepRow(before[j], now)
        invariant forall j :: k <= j < |payments| ==> payments[j] == before[j]
        invariant count == StaleCount(before[..k], now)
      {
        StaleCountSnoc(before, k, now);
        var p := payments[k];
        if p.status == Pending && p.expiresAt <= now {
          payments := payments[k := p.(status := Expired)];
          count := count + 1;
        }
        k := k + 1;
      }
      assert before[..k] == before;
      SweptCount(before, payments, now);
      SweptOneLive(before, payments, now);
    }
  }

  /** How many rows the sweep changes. */
  function StaleCount(rows: seq<Payment>, now: int): nat {
    if rows == [] then 0
    else
      var last := rows[|rows| - 1];
      StaleCount(rows[..|rows| - 1], now) + (if SweepRow(last, now) != last then 1 else 0)
  }

  /** The places of the rows that the sweep changes. */
  function Swept(rows: seq<Payment>, now: int): set<nat> {
    set k | 0 <= k < |rows| && SweepRow(rows[k], now) != rows[k]
  }

  lemma SweptSnoc(front: seq<Payment>, p: Payment, now: int)
    ensures |Swept(front + [p], now)| == |Swept(front, now)| + if SweepRow(p, now) != p then 1 else 0
  {
    hide SweepRow;
    assert Swept(front + [p], now) == Swept(front, now) + if SweepRow(p, now) != p then {|front|} else {};
  }

  lemma {:induction false} StaleCountMeans(rows: seq<Payment>, now: int)
    ensures StaleCount(rows, now) == |Swept(rows, now)|
  {
    hide SweepRow;
    if rows == [] {
      assert Swept(rows, now) == {};
    } else {
      hide Swept;
      var front, p := rows[..|rows| - 1], rows[|rows| - 1];
      assert rows == front + [p];
      StaleCountMeans(front, now);
      SweptSnoc(front, p, now);
    }
  }

  lemma StaleCountNone(now: int)
    ensures StaleCount([], now) == 0
  {
  }

  lemma StaleCountSnoc(rows: seq<Payment>, k: nat, now: int)
    requires k < |rows|
    ensures StaleCount(rows[..k + 1], now) ==
            StaleCount(rows[..k], now) + if SweepRow(rows[k], now) != rows[k] then 1 else 0
  {
    assert rows[..k + 1][..k] == rows[..k];
  }

  lemma SweptOneLive(before: seq<Payment>, after: seq<Payment>, now: int)
    requires |after| == |before| && forall k :: 0 <= k < |after| ==> after[k] == SweepRow(before[k], now)
    ensures UniqueKeys(before) ==> UniqueKeys(after)
    ensures OneLivePending(before, now) ==> OneLivePending(after, now)
  {
  }

  lemma SweptCount(before: seq<Payment>, after: seq<Payment>, now: int)
    requires |after| == |before| && forall k :: 0 <= k < |after| ==> after[k] == SweepRow(before[k], now)
    ensures StaleCount(before, now) == |set k | 0 <= k < |after| && after[k] != before[k]|
  {
    hide SweepRow;
    StaleCountMeans(before, now);
    assert (set k | 0 <= k < |after| && after[k] != before[k]) == Swept(before, now);
  }

  function KeyOf(payload: Option<string>, provider: Option<Provider>, invoice: Option<string>): Option<Key> {
    if payload.Some? then Some(ByPayload(payload.value))
    else if provider.Some? && invoice.Some? then Some(ByInvoice(provider.value, invoice.value))
    else None
  }

  type Tables = (seq<Payment>, map<string, Sub>)

  /** One confirmation by a session that has not read the payment before. */
  function Confirmed(rows: seq<Payment>, subs: map<string, Sub>, key: Key, setInvoice: Option<string>, now: int)
    : (Outcome, Tables)
  {
    var found := FindPayment(rows, key);
    if found.None? then (NotFound, (rows, subs))
    else
      var i := found.value;
      var p := MarkPaid(rows[i], rows[i], setInvoice, now);
      if Applied(rows[i]) then (AlreadyApplied, (rows, subs))
      else if InvoiceTaken(rows, i, p) then (Conflict, (rows, subs))
      else
        (JustApplied, (rows[i := p],
          subs[p.user := Extended(Lookup(subs, p.user), now, p.Days(), ProviderName(p.provider))]))
  }

  /** Repeating a confirmation, at any later time and by any key of the same payment, is a no-op. */
  lemma ConfirmIdempotent(rows: seq<Payment>, subs: map<string, Sub>, key1: Key, inv1: Option<string>, now1: int,
                          key2: Key, inv2: Option<string>, now2: int)
    requires UniqueKeys(rows)
    requires var (out, after) := Confirmed(rows, subs, key1, inv1, now1);
             (out == JustApplied || out == AlreadyApplied)
             && Matches(after.0[FindPayment(rows, key1).value], key2)
    ensures var after := Confirmed(rows, subs, key1, inv1, now1).1;
            Confirmed(after.0, after.1, key2, inv2, now2) == (AlreadyApplied, after)
  {
    var after := Confirmed(rows, subs, key1, inv1, now1).1;
    MatchIsUnique(after.0, FindPayment(rows, key1).value, key2);
  }

  /** The payment a call is about: the payload decides if it is given, else the provider's invoice. */
  lemma KeySelects(payload: Option<string>, provider: Option<Provider>, invoice: Option<string>, p: Payment)
    ensures KeyOf(payload, provider, invoice).None? <==> payload.None? && (provider.None? || invoice.None?)
    ensures var key := KeyOf(payload, provider, invoice);
            key.Some? ==>
              (Matches(p, key.value) <==>
                 if payload.Some? then p.payload == payload.value
                 else Some(p.provider) == provider && p.invoiceId == invoice)
  {
  }

  /** When each outcome is given. */
  lemma OutcomeExact(rows: seq<Payment>, subs: map<string, Sub>, key: Key, inv: Option<string>, now: int, i: nat)
    requires UniqueKeys(rows)
    ensures var out := Confirmed(rows, subs, key, inv, now).0;
            && out in {NotFound, AlreadyApplied, Conflict, JustApplied}
            && (out == NotFound <==> forall k :: 0 <= k < |rows| ==> !Matches(rows[k], key))
            && (i < |rows| && Matches(rows[i], key) ==>
                  && (out == AlreadyApplied <==> rows[i].status == Paid && rows[i].appliedAt.Some?)
                  && (out == Conflict <==>
                        && !(rows[i].status == Paid && rows[i].appliedAt.Some?)
                        && inv.Some? && rows[i].invoiceId.None?
                        && exists j :: 0 <= j < |rows| &&
                                       rows[j].provider == rows[i].provider && rows[j].invoiceId == inv))
  {
    if i < |rows| && Matches(rows[i], key) {
      MatchIsUnique(rows, i, key);
    }
  }

  /** A payment that is applied is marked as paid, and nothing else about it or about any other payment
      changes; its user is Pro for as long as was left plus the period that was paid for, and no other
      user's subscription changes. */
  lemma ConfirmExtends(rows: seq<Payment>, subs: map<string, Sub>, key: Key, inv: Option<string>, now: int, i: nat)
    requires UniqueKeys(rows) && i < |rows| && Matches(rows[i], key)
    requires Confirmed(rows, subs, key, inv, now).0 == JustApplied
    ensures var (paid, after) := Confirmed(rows, subs, key, inv, now).1;
            var p := rows[i];
            && |paid| == |rows| && (forall j :: 0 <= j < |rows| && j != i ==> paid[j] == rows[j])
            && paid[i] == p.(status := Paid, appliedAt := Some(now),
                             paidAt := paid[i].paidAt, invoiceId := paid[i].invoiceId)
            && paid[i].paidAt == Some(if p.paidAt.Some? then p.paidAt.value else now)
            && paid[i].invoiceId == (if p.invoiceId.None? then inv else p.invoiceId)
            && !LivePending(paid[i], p.user, p.provider, p.planId, now)
            && after.Keys == subs.Keys + {p.user}
            && (forall user :: user in subs && user != p.user ==> after[user] == subs[user])
            && after[p.user].paymentMethod == Some(if p.provider == Stars then "stars" else "crypto")
            && var paidUntil := now + Left(Lookup(subs, p.user), now) + p.quote.periodDays * DAY;
            && Left(Lookup(after, p.user), now) == paidUntil - now
            && forall t :: t >= now ==> (UserPlan(Lookup(after, p.user), t) == Pro <==> t < paidUntil)
  {
    MatchIsUnique(rows, i, key);
  }

  /** A created payment is open for its lifetime, asks for the quoted price in its provider's currency, and,
      whenever it is confirmed, buys the period that was quoted, whatever is on offer by then. */
  lemma QuoteIsHonoured(rows: seq<Payment>, subs: map<string, Sub>, user: string, v: Provider, planId: string,
                        payload: string, asset: string, eff: Pricing.Effective, ttl: int, now: int, later: int)
    requires UniqueKeys(rows) && forall k :: 0 <= k < |rows| ==> rows[k].payload != payload
    ensures var p := NewPayment(user, v, planId, payload, asset, eff, ttl, now);
            && (LivePending(p, user, v, planId, later) <==> later < now + ttl) && p.createdAt == now
            && p.amount == (if v == Stars then StarCount(eff.stars) else Cents(eff.cents))
            && p.currency == (if v == Stars then "XTR" else asset)
            && var (out, (paid, after)) := Confirmed(rows + [p], subs, ByPayload(payload), None, later);
            && out == JustApplied && paid[..|rows|] == rows
            && Left(Lookup(after, user), later) == Left(Lookup(subs, user), later) + eff.periodDays * DAY
  {
    var p := NewPayment(user, v, planId, payload, asset, eff, ttl, now);
    var all := rows + [p];
    assert all[|rows|] == p;
    OutcomeExact(all, subs, ByPayload(payload), None, later, |rows|);
    ConfirmExtends(all, subs, ByPayload(payload), None, later, |rows|);
  }

  lemma MatchIsUnique(rows: seq<Payment>, i: nat, key: Key)
    requires UniqueKeys(rows) && i < |rows| && Matches(rows[i], key)
    ensures FindPayment(rows, key) == Some(i)
  {
  }

  // ---------------------------------------------------------------- the one-live-pending rule

  /** With calls one after another and a clock that does not go back, confirming, sweeping and
      waiting keep at most one live pending payment; `CreatePayment` promises the same. */
  lemma OneLivePendingKept(rows: seq<Payment>, subs: map<string, Sub>, key: Key, inv: Option<string>,
                           now: int, later: int)
    requires OneLivePending(rows, now) && now <= later
    ensures OneLivePending(rows, later)
    ensures OneLivePending(Confirmed(rows, subs, key, inv, later).1.0, later)
  {
    forall i, j | 0 <= i < j < |rows| && LivePending(rows[j], rows[j].user, rows[j].provider, rows[j].planId, later)
      ensures !LivePending(rows[i], rows[j].user, rows[j].provider, rows[j].planId, later)
    {
      assert LivePending(rows[j], rows[j].user, rows[j].provider, rows[j].planId, now);
    }
  }

  /** The look-up and the insert are separate steps.  If two requests both found no live payment,
      both insert; there are then two live ones exactly when both were given a positive lifetime
      and ask for the same thing. */
  lemma UnlockedCreatesExact(rows: seq<Payment>, p: Payment, q: Payment, now: int)
    requires OneLivePending(rows, now) && p.status == Pending && q.status == Pending
    requires forall k :: 0 <= k < |rows| ==> !LivePending(rows[k], p.user, p.provider, p.planId, now)
    requires forall k :: 0 <= k < |rows| ==> !LivePending(rows[k], q.user, q.provider, q.planId, now)
    ensures OneLivePending(rows + [p] + [q], now)
        <==> !(p.user == q.user && p.provider == q.provider && p.planId == q.planId
               && p.expiresAt > now && q.expiresAt > now)
  {
    var all := rows + [p] + [q];
    var n := |rows|;
    assert all[n] == p && all[n + 1] == q;
    if OneLivePending(all, now) && q.expiresAt > now {
      assert LivePending(all[n + 1], q.user, q.provider, q.planId, now);
      assert !LivePending(all[n], q.user, q.provider, q.planId, now);
    }
  }
}
