/** The per-account rate governor (worker/health/governor.py), with calls that run one at a time. */
module RateGovernor {
  import opened Wrappers

  const HOUR: nat := 3600

  /** A fixed window: counter name, limit, and time to live in seconds. */
  datatype Window = Window(name: string, limit: nat, ttl: nat)

  function HourAndDay(perHour: nat, perDay: nat): seq<Window> {
    [Window("hour", perHour, HOUR), Window("day", perDay, DAY)]
  }

  const LIMITS: map<string, seq<Window>> := map[
    "comment" := HourAndDay(20, 100),
    "shilling" := HourAndDay(15, 60),
    "priming" := HourAndDay(15, 60),
    "priming_parser" := HourAndDay(10, 40),
    "warming" := HourAndDay(30, 200),
    "login" := [Window("hour", 5, HOUR)],
    "health_check" := HourAndDay(6, 20),
    "bulk_publish" := HourAndDay(10, 30),
    "bulk_reaction" := HourAndDay(30, 150),
    "bulk_view" := HourAndDay(60, 400),
    "bulk_profile" := HourAndDay(4, 10),
    "bulk_channel" := HourAndDay(10, 40),
    "bulk_security" := HourAndDay(4, 10)]

  // ---------------------------------------------------------------- Redis counters

  /** A counter and the instant at which Redis drops it. */
  datatype Counter = Counter(value: nat, deadline: Option<int>)

  predicate Live(c: Option<Counter>, now: int) {
    c.Some? && (c.value.deadline.None? || now < c.value.deadline.value)
  }

  /** GET: an expired counter reads as absent. */
  function Value(c: Option<Counter>, now: int): nat {
    if Live(c, now) then c.value.value else 0
  }

  /** INCR: keeps a live counter's deadline, recreates an expired one without any. */
  function Incr(c: Option<Counter>, now: int): Counter {
    if Live(c, now) then Counter(c.value.value + 1, c.value.deadline) else Counter(1, None)
  }

  /** INCR, then EXPIRE if the counter is new. */
  function Reserve(c: Option<Counter>, ttl: nat, now: int): Counter {
    var after := Incr(c, now);
    if after.value == 1 then Counter(1, Some(now + ttl)) else after
  }

  type Key = (int, string, string)

  function At(store: map<Key, Counter>, key: Key): Option<Counter> {
    if key in store then Some(store[key]) else None
  }

  // ---------------------------------------------------------------- counting grants

  /** How many of the granted times lie in [a, b). */
  function Granted(ts: seq<int>, a: int, b: int): nat {
    if ts == [] then 0
    else
      var t := ts[|ts| - 1];
      Granted(ts[..|ts| - 1], a, b) + (if a <= t < b then 1 else 0)
  }

  /** Grants in the half-open interval of the given length that starts at `a`. */
  function GrantedWithin(ts: seq<int>, a: int, length: nat): nat {
    Granted(ts, a, a + length)
  }

  function Since(ts: seq<int>, a: int): nat {
    if ts == [] then 0
    else Since(ts[..|ts| - 1], a) + (if a <= ts[|ts| - 1] then 1 else 0)
  }

  lemma {:induction false} GrantedIsDifference(ts: seq<int>, a: int, b: int)
    requires a <= b
    ensures Granted(ts, a, b) == Since(ts, a) - Since(ts, b)
  {
    if ts != [] {
      GrantedIsDifference(ts[..|ts| - 1], a, b);
    }
  }

  lemma SinceSnoc(ts: seq<int>, t: int, a: int)
    ensures Since(ts + [t], a) == Since(ts, a) + (if a <= t then 1 else 0)
  {
    assert (ts + [t])[..|ts|] == ts;
  }

  lemma {:induction false} SinceMonotone(ts: seq<int>, a: int, b: int)
    requires a <= b
    ensures Since(ts, b) <= Since(ts, a)
  {
    if ts != [] {
      SinceMonotone(ts[..|ts| - 1], a, b);
    }
  }

  predicate AllBefore(ts: seq<int>, a: int) {
    forall k :: 0 <= k < |ts| ==> ts[k] < a
  }

  lemma {:induction false} SinceNone(ts: seq<int>, a: int)
    requires AllBefore(ts, a)
    ensures Since(ts, a) == 0
  {
    if ts != [] {
      SinceNone(ts[..|ts| - 1], a);
    }
  }

  // ---------------------------------------------------------------- one window

  /** How a window's counter relates to the times at which reservations were granted.  The current
      period starts at its first grant; the stretch of length `ttl` that ends there holds at most
      `limit - 1` grants, because reaching back to the first grant of the period before would
      reach out of it. */
  ghost predicate WindowOk(ts: seq<int>, c: Option<Counter>, w: Window) {
    if ts == [] then c.None?
    else
      && c.Some? && c.value.deadline.Some?
      && PeriodOk(ts, c.value.value, c.value.deadline.value - w.ttl, w)
  }

  ghost predicate PeriodOk(ts: seq<int>, value: nat, start: int, w: Window) {
    && 1 <= value <= w.limit
    && value == Since(ts, start)
    && Since(ts, start + 1) < value
    && AllBefore(ts, start + w.ttl)
    && (forall y :: y > start - w.ttl ==> Since(ts, y) < w.limit + value)
    && (forall x :: Since(ts, x) - Since(ts, x + w.ttl) < 2 * w.limit)
  }

  /** A grant while the period lasts. */
  lemma GrantInPeriod(ts: seq<int>, value: nat, start: int, w: Window, now: int)
    requires PeriodOk(ts, value, start, w) && value < w.limit
    requires AllBefore(ts, now + 1) && now < start + w.ttl
    ensures PeriodOk(ts + [now], value + 1, start, w)
  {
    hide Since;
    var ts' := ts + [now];
    if start > now {
      SinceNone(ts, start);
    }
    SinceSnoc(ts, now, start);
    SinceSnoc(ts, now, start + 1);
    forall y | y > start - w.ttl
      ensures Since(ts', y) < w.limit + value + 1
    {
      SinceSnoc(ts, now, y);
    }
    forall x
      ensures Since(ts', x) - Since(ts', x + w.ttl) < 2 * w.limit
    {
      SinceSnoc(ts, now, x);
      SinceSnoc(ts, now, x + w.ttl);
      if x > start {
        SinceMonotone(ts, start, x);
      }
    }
  }

  /** The first grant of a new period, after the old one is over. */
  lemma GrantAfterPeriod(ts: seq<int>, value: nat, start: int, w: Window, now: int)
    requires PeriodOk(ts, value, start, w) && w.ttl > 0
    requires start + w.ttl <= now
    ensures PeriodOk(ts + [now], 1, now, w)
  {
    hide Since;
    var ts' := ts + [now];
    SinceNone(ts, now);
    SinceNone(ts, now + 1);
    SinceSnoc(ts, now, now);
    SinceSnoc(ts, now, now + 1);
    forall y | y > now - w.ttl
      ensures Since(ts', y) < w.limit + 1
    {
      SinceSnoc(ts, now, y);
      SinceMonotone(ts, start + 1, y);
    }
    forall x
      ensures Since(ts', x) - Since(ts', x + w.ttl) < 2 * w.limit
    {
      SinceSnoc(ts, now, x);
      SinceSnoc(ts, now, x + w.ttl);
      if x > start {
        SinceMonotone(ts, start + 1, x);
      }
    }
  }

  lemma FirstGrant(w: Window, now: int)
    requires w.limit > 0 && w.ttl > 0
    ensures PeriodOk([now], 1, now, w)
  {
    assert [now] == [] + [now];
    forall a
      ensures Since([now], a) == (if a <= now then 1 else 0)
    {
      SinceSnoc([], now, a);
    }
  }

  lemma GrantKeepsWindow(ts: seq<int>, c: Option<Counter>, w: Window, now: int)
    requires WindowOk(ts, c, w) && w.limit > 0 && w.ttl > 0
    requires AllBefore(ts, now + 1)
    requires Value(c, now) < w.limit
    ensures WindowOk(ts + [now], Some(Reserve(c, w.ttl, now)), w)
  {
    hide PeriodOk;
    if ts == [] {
      FirstGrant(w, now);
      assert ts + [now] == [now];
    } else {
      var start := c.value.deadline.value - w.ttl;
      assert c.value.value >= 1 by { PeriodNotEmpty(ts, c.value.value, start, w); }
      if Live(c, now) {
        GrantInPeriod(ts, c.value.value, start, w, now);
      } else {
        GrantAfterPeriod(ts, c.value.value, start, w, now);
      }
    }
  }

  lemma PeriodNotEmpty(ts: seq<int>, value: nat, start: int, w: Window)
    requires PeriodOk(ts, value, start, w)
    ensures value >= 1
  {
  }

  /** The sliding-interval guarantee of a fixed window: any interval as long as the window holds
      fewer than twice the limit. */
  lemma SlidingBound(ts: seq<int>, c: Option<Counter>, w: Window, x: int)
    requires WindowOk(ts, c, w) && w.limit > 0
    ensures GrantedWithin(ts, x, w.ttl) <= 2 * w.limit - 1
  {
    GrantedIsDifference(ts, x, x + w.ttl);
  }

  /** A full counter means that the limit was used up within the last window length. */
  lemma FullMeansLimitGranted(ts: seq<int>, c: Option<Counter>, w: Window, now: int)
    requires WindowOk(ts, c, w)
    requires AllBefore(ts, now + 1)
    requires Value(c, now) >= w.limit > 0
    ensures GrantedWithin(ts, now - w.ttl + 1, w.ttl) >= w.limit
  {
    GrantedIsDifference(ts, now - w.ttl + 1, now + 1);
    SinceNone(ts, now + 1);
    SinceMonotone(ts, now - w.ttl + 1, c.value.deadline.value - w.ttl);
  }

  /** The counter after granting at each of `ts` in turn. */
  function Replay(ts: seq<int>, w: Window): Option<Counter> {
    if ts == [] then None else Some(Reserve(Replay(ts[..|ts| - 1], w), w.ttl, ts[|ts| - 1]))
  }

  /** Grants at these times are exactly what the check would have let through. */
  predicate Permitted(ts: seq<int>, w: Window) {
    ts == [] ||
    var n := |ts| - 1;
    Permitted(ts[..n], w) && Value(Replay(ts[..n], w), ts[n]) < w.limit && (n > 0 ==> ts[n - 1] <= ts[n])
  }

  /** `n` further grants at `now`, while the current period lasts. */
  lemma {:induction false} GrantMore(ts: seq<int>, w: Window, now: int, n: nat) returns (more: seq<int>)
    requires Permitted(ts, w) && ts != [] && ts[|ts| - 1] <= now
    requires Live(Replay(ts, w), now) && Replay(ts, w).value.value > 0 && Value(Replay(ts, w), now) + n <= w.limit
    ensures Permitted(more, w) && more != [] && more[|more| - 1] <= now
    ensures Replay(more, w) == Some(Counter(Value(Replay(ts, w), now) + n, Replay(ts, w).value.deadline))
    ensures forall a :: Since(more, a) == Since(ts, a) + (if a <= now then n else 0)
    decreases n
  {
    if n == 0 {
      more := ts;
    } else {
      var one := ts + [now];
      assert one[..|ts|] == ts && one[|ts|] == now;
      more := GrantMore(one, w, now, n - 1);
      forall a
        ensures Since(more, a) == Since(ts, a) + (if a <= now then n else 0)
      {
        SinceSnoc(ts, now, a);
      }
    }
  }

  /** The bound cannot be improved: for every window there is a permitted history that has
      2 * limit - 1 grants within one window length. */
  lemma SlidingBoundTight(w: Window) returns (ts: seq<int>)
    requires w.limit > 0 && w.ttl > 1
    ensures Permitted(ts, w) && GrantedWithin(ts, w.ttl - 1, w.ttl) == 2 * w.limit - 1
  {
    var first := [0];
    assert first[..0] == [];
    assert Permitted([], w) && Permitted(first, w) && Replay(first, w) == Some(Counter(1, Some(w.ttl)));
    var late := GrantMore(first, w, w.ttl - 1, w.limit - 1);
    var next := late + [w.ttl];
    assert next[..|late|] == late && next[|late|] == w.ttl;
    assert Permitted(next, w) && Replay(next, w) == Some(Counter(1, Some(2 * w.ttl)));
    ts := GrantMore(next, w, w.ttl, w.limit - 1);
    SinceSnoc([], 0, w.ttl - 1);
    assert [] + [0] == first;
    SinceSnoc(late, w.ttl, w.ttl - 1);
    forall a | a > w.ttl
      ensures Since(ts, a) == 0
    {
      SinceSnoc(late, w.ttl, a);
      SinceSnoc([], 0, a);
    }
    GrantedIsDifference(ts, w.ttl - 1, w.ttl - 1 + w.ttl);
  }

  // ---------------------------------------------------------------- the governor

  predicate GoodWindows(ws: seq<Window>) {
    && (forall i :: 0 <= i < |ws| ==> ws[i].limit > 0 && ws[i].ttl > 0)
    && (forall i, j :: 0 <= i < j < |ws| ==> ws[i].name != ws[j].name)
  }

  lemma LimitsAreGood(action: string)
    requires action in LIMITS
    ensures GoodWindows(LIMITS[action])
  {
  }

  function Log(grants: map<(int, string), seq<int>>, account: int, action: string): seq<int> {
    if (account, action) in grants then grants[(account, action)] else []
  }

  function CounterOf(store: map<Key, Counter>, account: int, action: string, w: Window): Option<Counter> {
    At(store, (account, action, w.name))
  }

  ghost predicate WindowsOk(ws: seq<Window>, account: int, action: string, ts: seq<int>, store: map<Key, Counter>) {
    forall i :: 0 <= i < |ws| ==> WindowOk(ts, CounterOf(store, account, action, ws[i]), ws[i])
  }

  /** No window of the action is used up. */
  predicate HasRoom(ws: seq<Window>, store: map<Key, Counter>, account: int, action: string, now: int) {
    forall i :: 0 <= i < |ws| ==> Value(CounterOf(store, account, action, ws[i]), now) < ws[i].limit
  }

  /** `after` is `before` with one more reservation in every window of the action, and nothing else. */
  ghost predicate Reserved(ws: seq<Window>, before: map<Key, Counter>, after: map<Key, Counter>,
                           account: int, action: string, now: int) {
    && (forall i :: 0 <= i < |ws| ==>
          CounterOf(after, account, action, ws[i])
          == Some(Reserve(CounterOf(before, account, action, ws[i]), ws[i].ttl, now)))
    && (forall key :: At(after, key) != At(before, key) ==> key.0 == account && key.1 == action)
  }

  /** No interval as long as a window holds twice its limit. */
  ghost predicate SlidingBounds(ws: seq<Window>, ts: seq<int>) {
    forall i, x :: 0 <= i < |ws| ==> GrantedWithin(ts, x, ws[i].ttl) <= 2 * ws[i].limit - 1
  }

  /** Some window's limit was reached by the grants of its last full length. */
  ghost predicate LimitUsedUp(ws: seq<Window>, ts: seq<int>, now: int) {
    exists i :: 0 <= i < |ws| && GrantedWithin(ts, now - ws[i].ttl + 1, ws[i].ttl) >= ws[i].limit
  }

  lemma GrantKeepsAll(ws: seq<Window>, account: int, action: string, ts: seq<int>,
                      before: map<Key, Counter>, after: map<Key, Counter>, now: int)
    requires GoodWindows(ws) && WindowsOk(ws, account, action, ts, before)
    requires AllBefore(ts, now + 1)
    requires HasRoom(ws, before, account, action, now) && Reserved(ws, before, after, account, action, now)
    ensures WindowsOk(ws, account, action, ts + [now], after)
  {
    hide WindowOk, Reserve, Value, CounterOf;
    forall i | 0 <= i < |ws|
      ensures WindowOk(ts + [now], CounterOf(after, account, action, ws[i]), ws[i])
    {
      GrantKeepsWindow(ts, CounterOf(before, account, action, ws[i]), ws[i], now);
    }
  }

  lemma OtherKept(ws: seq<Window>, account: int, action: string, before: map<Key, Counter>, after: map<Key, Counter>,
                  now: int, vs: seq<Window>, a: int, b: string, ts: seq<int>)
    requires Reserved(ws, before, after, account, action, now)
    requires WindowsOk(vs, a, b, ts, before) && (a, b) != (account, action)
    ensures WindowsOk(vs, a, b, ts, after)
  {
    hide WindowOk, Reserve;
    forall i | 0 <= i < |vs|
      ensures CounterOf(after, a, b, vs[i]) == CounterOf(before, a, b, vs[i])
    {
      var key: Key := (a, b, vs[i].name);
      assert At(after, key) == At(before, key);
    }
  }

  lemma BoundAll(ws: seq<Window>, account: int, action: string, ts: seq<int>, store: map<Key, Counter>)
    requires GoodWindows(ws) && WindowsOk(ws, account, action, ts, store)
    ensures SlidingBounds(ws, ts)
  {
    hide WindowOk;
    forall i, x | 0 <= i < |ws|
      ensures GrantedWithin(ts, x, ws[i].ttl) <= 2 * ws[i].limit - 1
    {
      SlidingBound(ts, CounterOf(store, account, action, ws[i]), ws[i], x);
    }
  }

  class Governor {
    /** False when the process has no Redis. */
    const connected: bool
    var store: map<Key, Counter>
    /** When each account and action was granted, and the latest clock reading. */
    ghost var grants: map<(int, string), seq<int>>
    ghost var clock: int

    ghost predicate Valid() reads this {
      && (forall who :: who in grants ==> AllBefore(grants[who], clock + 1))
      && (forall account, action :: action in LIMITS ==>
            WindowsOk(LIMITS[action], account, action, Log(grants, account, action), store))
    }

    constructor (connected: bool)
      ensures Valid() && store == map[] && grants == map[] && this.connected == connected
    {
      this.connected := connected;
      store, grants, clock := map[], map[], 0;
    }

    /** Grant and reserve a slot in every window, or refuse and change nothing. */
    method CheckAndReserve(account: int, action: string, now: int) returns (ok: bool)
      requires Valid() && clock <= now
      modifies this
      ensures Valid() && clock == now
      ensures ok == (!connected || action !in LIMITS || HasRoom(LIMITS[action], old(store), account, action, now))
      ensures if ok && connected && action in LIMITS
              then Reserved(LIMITS[action], old(store), store, account, action, now)
                   && grants == old(grants)[(account, action) := Log(old(grants), account, action) + [now]]
              else store == old(store) && grants == old(grants)
      // what the callers may rely on: the sliding bound, and a reason for every refusal
      ensures action in LIMITS ==> SlidingBounds(LIMITS[action], Log(grants, account, action))
      ensures !ok ==> action in LIMITS && LimitUsedUp(LIMITS[action], Log(grants, account, action), now)
    {
      hide LIMITS, WindowOk, GoodWindows, GrantedWithin, SlidingBounds;
      ghost var log := Log(grants, account, action);
      if action in LIMITS {
        LimitsAreGood(action);
        BoundAll(LIMITS[action], account, action, log, store);
      }
      clock := now;
      if !connected {
        return true;
      }
      if action !in LIMITS {
        return true;
      }
      var windows := LIMITS[action];
      var k := 0;
      while k < |windows|
        invariant k <= |windows|
        invariant forall i :: 0 <= i < k ==>
          Value(CounterOf(store, account, action, windows[i]), now) < windows[i].limit
        modifies {}
      {
        var key := (account, action, windows[k].name);
        var current := At(store, key);
        if Live(current, now) && current.value.value >= windows[k].limit {
          GoodWindow(windows, k);
          FullMeansLimitGranted(log, current, windows[k], now);
          return false;
        }
        k := k + 1;
      }
      ghost var before := store;
      k := 0;
      while k < |windows|
        modifies this`store
        invariant k <= |windows|
        invariant forall i :: 0 <= i < |windows| ==>
          CounterOf(store, account, action, windows[i])
          == if i < k then Some(Reserve(CounterOf(before, account, action, windows[i]), windows[i].ttl, now))
             else CounterOf(before, account, action, windows[i])
        invariant forall key :: At(store, key) != At(before, key) ==> key.0 == account && key.1 == action
      {
        ghost var prior := store;
        GoodWindow(windows, k);
        var key := (account, action, windows[k].name);
        var value := Incr(At(store, key), now);
        store := store[key := value];
        if value.value == 1 {
          store := store[key := Counter(1, Some(now + windows[k].ttl))];
        }
        assert forall other :: other != key ==> At(store, other) == At(prior, other);
        k := k + 1;
      }
      grants := grants[(account, action) := log + [now]];
      GrantKeepsAll(windows, account, action, log, before, store, now);
      forall a, b | b in LIMITS && (a, b) != (account, action)
        ensures WindowsOk(LIMITS[b], a, b, Log(grants, a, b), store)
      {
        OtherKept(windows, account, action, before, store, now, LIMITS[b], a, b, Log(old(grants), a, b));
      }
      BoundAll(windows, account, action, log + [now], store);
      return true;
    }
  }

  lemma GoodWindow(ws: seq<Window>, k: nat)
    requires GoodWindows(ws) && k < |ws|
    ensures ws[k].limit > 0 && ws[k].ttl > 0 && forall i :: 0 <= i < |ws| && i != k ==> ws[i].name != ws[k].name
  {
  }
}
