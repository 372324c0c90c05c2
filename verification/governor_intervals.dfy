/** The sliding bound for calls of `check_and_reserve` that interleave (worker/health/governor.py, lines
    70-83): how many increments of a window's counter an interval of the window's length can hold. */
module GovernorIntervals {
  import opened Wrappers
  import opened RateGovernor
  import opened GovernorRaces

  /** The step increments the counter of window j. */
  predicate Increments(s: State, step: Step, j: nat) {
    step.Increment? && step.t < |s.calls| && s.calls[step.t] == Reserving(j)
  }

  /** The times at which a run increments the counter of window j. */
  function Times(ws: seq<Window>, s: State, steps: seq<Step>, j: nat): seq<int>
    requires GoodWindows(ws) && Shaped(ws, s) && ValidRun(ws, s, steps)
    decreases |steps|
  {
    if steps == [] then []
    else
      StepShaped(ws, s, steps[0]);
      (if Increments(s, steps[0], j) then [s.now] else []) + Times(ws, Next(ws, s, steps[0]), steps[1..], j)
  }

  // ---------------------------------------------------------------- one counter and its increments

  /** How a counter relates to the times of its increments so far, when its current period began at
      `start` and no counter exceeds `most`.  Periods last at least as long as the window: they end a
      window's length after EXPIRE, which comes after the first INCR. */
  ghost predicate Tracked(ts: seq<int>, c: Option<Counter>, ttl: nat, most: nat, now: int, start: int) {
    && AllBefore(ts, now + 1)
    && (if c.None? then ts == []
        else
          && start <= now && c.value.value == Since(ts, start) <= most
          && (c.value.deadline.Some? ==>
                c.value.deadline.value >= start + ttl && AllBefore(ts, c.value.deadline.value))
          && (forall y :: y > start - ttl ==> Since(ts, y) <= most + Since(ts, start)))
    && forall x :: Since(ts, x) - Since(ts, x + ttl) <= 2 * most
  }

  lemma TimePasses(ts: seq<int>, c: Option<Counter>, ttl: nat, most: nat, now: int, start: int, later: int)
    requires Tracked(ts, c, ttl, most, now, start) && later >= now
    ensures Tracked(ts, c, ttl, most, later, start)
  {
    hide Since;
  }

  /** EXPIRE. */
  lemma GetsDeadline(ts: seq<int>, c: Counter, ttl: nat, most: nat, now: int, start: int)
    requires Tracked(ts, Some(c), ttl, most, now, start) && ttl > 0
    ensures Tracked(ts, Some(c.(deadline := Some(now + ttl))), ttl, most, now, start)
  {
    hide Since;
  }

  /** INCR of a live counter. */
  lemma MoreInPeriod(ts: seq<int>, c: Option<Counter>, ttl: nat, most: nat, now: int, start: int)
    requires Tracked(ts, c, ttl, most, now, start) && Live(c, now) && c.value.value + 1 <= most && ttl > 0
    ensures Tracked(ts + [now], Some(Incr(c, now)), ttl, most, now, start)
  {
    forall y
      ensures Since(ts + [now], y) == Since(ts, y) + (if y <= now then 1 else 0)
    {
      SinceSnoc(ts, now, y);
    }
    forall x
      ensures Since(ts + [now], x) - Since(ts + [now], x + ttl) <= 2 * most
    {
      hide Since;
      if x > start - ttl {
        assert Since(ts, x) <= most + Since(ts, start);
      } else {
        assert x + ttl <= now;
      }
    }
    hide Since;
  }

  /** INCR of a counter that is absent or has run out. */
  lemma NewPeriod(ts: seq<int>, c: Option<Counter>, ttl: nat, most: nat, now: int, start: int)
    requires Tracked(ts, c, ttl, most, now, start) && !Live(c, now) && most >= 1 && ttl > 0
    ensures Tracked(ts + [now], Some(Incr(c, now)), ttl, most, now, now)
  {
    forall y
      ensures Since(ts + [now], y) == Since(ts, y) + (if y <= now then 1 else 0)
    {
      SinceSnoc(ts, now, y);
    }
    NoneSince(ts, c, ttl, most, now, start);
    forall y | y > now - ttl
      ensures Since(ts, y) <= most
    {
      RecentOnly(ts, c, ttl, most, now, start, y);
    }
    forall x
      ensures Since(ts + [now], x) - Since(ts + [now], x + ttl) <= 2 * most
    {
      hide Since;
      if x > now - ttl {
        assert Since(ts, x) <= most;
      }
    }
    hide Since;
  }

  /** All increments lie before now. */
  lemma NoneSince(ts: seq<int>, c: Option<Counter>, ttl: nat, most: nat, now: int, start: int)
    requires Tracked(ts, c, ttl, most, now, start) && !Live(c, now)
    ensures Since(ts, now) == 0
  {
    SinceNone(ts, now);
  }

  /** The last window's length before now holds increments of the last period only. */
  lemma RecentOnly(ts: seq<int>, c: Option<Counter>, ttl: nat, most: nat, now: int, start: int, y: int)
    requires Tracked(ts, c, ttl, most, now, start) && !Live(c, now) && y > now - ttl
    ensures Since(ts, y) <= most
  {
    if c.Some? {
      SinceMonotone(ts, start, y);
    }
  }

  // ---------------------------------------------------------------- runs

  lemma CounterStep(ws: seq<Window>, s: State, step: Step, j: nat, ts: seq<int>, start: int) returns (start': int)
    requires GoodWindows(ws) && Bounded(ws, s) && Enabled(ws, s, step) && |s.calls| > 0 && j < |ws|
    requires Tracked(ts, s.counters[j], ws[j].ttl, ws[j].limit + |s.calls| - 1, s.now, start)
    ensures var s' := Next(ws, s, step);
            |s'.counters| == |ws| &&
            Tracked(ts + if Increments(s, step, j) then [s.now] else [], s'.counters[j], ws[j].ttl,
                    ws[j].limit + |s.calls| - 1, s'.now, start')
  {
    var most := ws[j].limit + |s.calls| - 1;
    var s' := Next(ws, s, step);
    StepBounded(ws, s, step);
    assert BoundedAt(ws[j], s', j);
    hide Tracked, Owing, Bounded;
    start' := start;
    assert ts + [] == ts;
    if step.Tick? {
      TimePasses(ts, s.counters[j], ws[j].ttl, most, s.now, start, step.later);
    } else if step.Increment? && s.calls[step.t].j == j {
      if Live(s.counters[j], s.now) {
        MoreInPeriod(ts, s.counters[j], ws[j].ttl, most, s.now, start);
      } else {
        NewPeriod(ts, s.counters[j], ws[j].ttl, most, s.now, start);
        start' := s.now;
      }
    } else if step.SetTtl? && s.calls[step.t].j == j && Live(s.counters[j], s.now) {
      GetsDeadline(ts, s.counters[j].value, ws[j].ttl, most, s.now, start);
    }
  }

  lemma {:induction false} RunTracked(ws: seq<Window>, s: State, steps: seq<Step>, j: nat, ts: seq<int>, start: int)
    requires GoodWindows(ws) && Bounded(ws, s) && ValidRun(ws, s, steps) && |s.calls| > 0 && j < |ws|
    requires Tracked(ts, s.counters[j], ws[j].ttl, ws[j].limit + |s.calls| - 1, s.now, start)
    ensures forall x :: Since(ts + Times(ws, s, steps, j), x) - Since(ts + Times(ws, s, steps, j), x + ws[j].ttl) <=
                        2 * (ws[j].limit + |s.calls| - 1)
    decreases |steps|
  {
    if steps == [] {
      assert ts + [] == ts;
      hide Since, Bounded;
    } else {
      var start' := CounterStep(ws, s, steps[0], j, ts, start);
      StepBounded(ws, s, steps[0]);
      BoundedShaped(ws, s);
      TimesCons(ws, s, steps, j);
      hide Next, Tracked, Bounded, Enabled, Since, Increments, Times, Shaped;
      var now := if Increments(s, steps[0], j) then [s.now] else [];
      var later := Times(ws, Next(ws, s, steps[0]), steps[1..], j);
      RunTracked(ws, Next(ws, s, steps[0]), steps[1..], j, ts + now, start');
      assert ts + (now + later) == ts + now + later;
    }
  }

  lemma BoundedShaped(ws: seq<Window>, s: State)
    requires Bounded(ws, s)
    ensures Shaped(ws, s)
  {
  }

  lemma TimesCons(ws: seq<Window>, s: State, steps: seq<Step>, j: nat)
    requires GoodWindows(ws) && Shaped(ws, s) && ValidRun(ws, s, steps) && steps != []
    ensures var s' := Next(ws, s, steps[0]);
            && Shaped(ws, s') && |s'.calls| == |s.calls| && ValidRun(ws, s', steps[1..])
            && Times(ws, s, steps, j) ==
               (if Increments(s, steps[0], j) then [s.now] else []) + Times(ws, s', steps[1..], j)
  {
    StepShaped(ws, s, steps[0]);
  }

  /** With k calls in flight, interleaved and cut off anywhere, any interval as long as a window holds at
      most 2 * (limit + k - 1) increments of its counter, and so at most that many grants. */
  lemma InterleavedSlidingBound(ws: seq<Window>, k: nat, now: int, steps: seq<Step>, j: nat, x: int)
    requires GoodWindows(ws) && k > 0 && ValidRun(ws, Start(ws, k, now), steps) && j < |ws|
    ensures GrantedWithin(Times(ws, Start(ws, k, now), steps, j), x, ws[j].ttl) <= 2 * (ws[j].limit + k - 1)
  {
    var s := Start(ws, k, now);
    InitBounded(ws, k, now);
    assert Tracked([], s.counters[j], ws[j].ttl, ws[j].limit + k - 1, now, now);
    RunTracked(ws, s, steps, j, [], now);
    assert [] + Times(ws, s, steps, j) == Times(ws, s, steps, j);
    GrantedIsDifference(Times(ws, s, steps, j), x, x + ws[j].ttl);
  }
}
