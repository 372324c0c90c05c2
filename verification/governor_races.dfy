/** Concurrent calls of `check_and_reserve` (worker/health/governor.py, lines 70-83).

    The API and the workers call the governor at the same time.  Each Redis command is one step;
    the commands of different calls interleave arbitrarily, time may pass between any two of
    them, and a call may be cut off at any point. */
module GovernorRaces {
  import opened Wrappers
  import opened RateGovernor

  /** Where one call is in the two loops.  `Expiring(j)`: INCR on window j returned 1. */
  datatype Call = Idle | Checking(j: nat) | Reserving(j: nat) | Expiring(j: nat)

  /** The counters of one account and action, the clock, and one entry per call in flight. */
  datatype State = State(counters: seq<Option<Counter>>, now: int, calls: seq<Call>)

  datatype Step = Tick(later: int) | Begin(t: nat) | Get(t: nat) | Increment(t: nat) | SetTtl(t: nat) | CutOff(t: nat)

  ghost predicate Shaped(ws: seq<Window>, s: State) {
    && |s.counters| == |ws|
    && forall t :: 0 <= t < |s.calls| ==>
         match s.calls[t]
         case Idle => true
         case Checking(j) => j < |ws|
         case Reserving(j) => j < |ws|
         case Expiring(j) => j < |ws|
  }

  predicate Enabled(ws: seq<Window>, s: State, step: Step) {
    match step
    case Tick(later) => later >= s.now
    case Begin(t) => t < |s.calls| && s.calls[t].Idle?
    case Get(t) => t < |s.calls| && s.calls[t].Checking?
    case Increment(t) => t < |s.calls| && s.calls[t].Reserving?
    case SetTtl(t) => t < |s.calls| && s.calls[t].Expiring?
    case CutOff(t) => t < |s.calls|
  }

  function AfterReserve(ws: seq<Window>, j: nat): Call {
    if j + 1 < |ws| then Reserving(j + 1) else Idle
  }

  function Next(ws: seq<Window>, s: State, step: Step): State
    requires GoodWindows(ws) && Shaped(ws, s) && Enabled(ws, s, step)
  {
    match step
    case Tick(later) => s.(now := later)
    case Begin(t) => s.(calls := s.calls[t := if ws == [] then Idle else Checking(0)])
    case Get(t) =>
      var j := s.calls[t].j;
      s.(calls := s.calls[t :=
        if Live(s.counters[j], s.now) && s.counters[j].value.value >= ws[j].limit then Idle
        else if j + 1 < |ws| then Checking(j + 1)
        else Reserving(0)])
    case Increment(t) =>
      var j := s.calls[t].j;
      var c := Incr(s.counters[j], s.now);
      s.(counters := s.counters[j := Some(c)],
         calls := s.calls[t := if c.value == 1 then Expiring(j) else AfterReserve(ws, j)])
    case SetTtl(t) =>
      var j := s.calls[t].j;
      s.(counters := if Live(s.counters[j], s.now)
                     then s.counters[j := Some(s.counters[j].value.(deadline := Some(s.now + ws[j].ttl)))]
                     else s.counters,
         calls := s.calls[t := AfterReserve(ws, j)])
    case CutOff(t) => s.(calls := s.calls[t := Idle])
  }

  /** The call has passed the check of window `j` and has not incremented it yet. */
  predicate Owes(c: Call, j: nat) {
    match c
    case Idle => false
    case Checking(i) => i > j
    case Reserving(i) => i <= j
    case Expiring(i) => i < j
  }

  function Owing(calls: seq<Call>, j: nat): nat {
    if calls == [] then 0
    else Owing(calls[..|calls| - 1], j) + (if Owes(calls[|calls| - 1], j) then 1 else 0)
  }

  lemma {:induction false} OwingUpdate(calls: seq<Call>, t: nat, c: Call, j: nat)
    requires t < |calls|
    ensures Owing(calls[t := c], j) - (if Owes(c, j) then 1 else 0)
         == Owing(calls, j) - (if Owes(calls[t], j) then 1 else 0)
    ensures Owing(calls, j) <= |calls|
  {
    hide Owes;
    var n := |calls| - 1;
    OwingAtMost(calls, j);
    if t == n {
      assert calls[t := c][..n] == calls[..n];
    } else {
      assert calls[t := c][..n] == calls[..n][t := c];
      OwingUpdate(calls[..n], t, c, j);
    }
  }

  lemma {:induction false} OwingAtMost(calls: seq<Call>, j: nat)
    ensures Owing(calls, j) <= |calls|
  {
    if calls != [] {
      OwingAtMost(calls[..|calls| - 1], j);
    }
  }

  /** Each counter, plus the increments still owed to it, stays below limit + calls in flight. */
  ghost predicate Bounded(ws: seq<Window>, s: State) {
    Shaped(ws, s) && forall j :: 0 <= j < |ws| ==> BoundedAt(ws[j], s, j)
  }

  ghost predicate BoundedAt(w: Window, s: State, j: nat)
    requires j < |s.counters|
  {
    Value(s.counters[j], s.now) + Owing(s.calls, j) <= w.limit + |s.calls| - 1
  }

  lemma StepBounded(ws: seq<Window>, s: State, step: Step)
    requires GoodWindows(ws) && Bounded(ws, s) && Enabled(ws, s, step) && |s.calls| > 0
    ensures Bounded(ws, Next(ws, s, step))
  {
    hide Owes, Owing, Incr, Value, Live, BoundedAt;
    var s' := Next(ws, s, step);
    assert Shaped(ws, s') by { StepShaped(ws, s, step); }
    forall j | 0 <= j < |ws|
      ensures BoundedAt(ws[j], s', j)
    {
      StepBoundedAt(ws, s, step, j);
    }
  }

  lemma StepShaped(ws: seq<Window>, s: State, step: Step)
    requires GoodWindows(ws) && Shaped(ws, s) && Enabled(ws, s, step)
    ensures Shaped(ws, Next(ws, s, step)) && |Next(ws, s, step).calls| == |s.calls|
  {
  }

  lemma StepBoundedAt(ws: seq<Window>, s: State, step: Step, j: nat)
    requires GoodWindows(ws) && Shaped(ws, s) && Enabled(ws, s, step) && |s.calls| > 0 && j < |ws|
    requires BoundedAt(ws[j], s, j)
    ensures Next(ws, s, step).calls == s.calls || !step.Tick?
    ensures j < |Next(ws, s, step).counters| && BoundedAt(ws[j], Next(ws, s, step), j)
  {
    hide Owing;
    if !step.Tick? {
      var s' := Next(ws, s, step);
      OwingUpdate(s.calls, step.t, s'.calls[step.t], j);
      assert s'.calls == s.calls[step.t := s'.calls[step.t]];
      OwingAtMost(s'.calls, j);
    }
  }

  predicate ValidRun(ws: seq<Window>, s: State, steps: seq<Step>)
    requires GoodWindows(ws) && Shaped(ws, s)
    decreases |steps|
  {
    steps != [] ==>
      && Enabled(ws, s, steps[0])
      && (StepShaped(ws, s, steps[0]); ValidRun(ws, Next(ws, s, steps[0]), steps[1..]))
  }

  function Run(ws: seq<Window>, s: State, steps: seq<Step>): State
    requires GoodWindows(ws) && Shaped(ws, s) && ValidRun(ws, s, steps)
    decreases |steps|
  {
    if steps == [] then s
    else
      StepShaped(ws, s, steps[0]);
      Run(ws, Next(ws, s, steps[0]), steps[1..])
  }

  /** The overshoot bound.  With at most k calls in flight, no counter of any window ever shows
      more than limit + k - 1, in any interleaving. */
  lemma {:induction false} OvershootBound(ws: seq<Window>, s: State, steps: seq<Step>)
    requires GoodWindows(ws) && Bounded(ws, s) && ValidRun(ws, s, steps) && |s.calls| > 0
    ensures var s' := Run(ws, s, steps);
            |s'.counters| == |ws| && |s'.calls| == |s.calls|
            && forall j :: 0 <= j < |ws| ==> Value(s'.counters[j], s'.now) <= ws[j].limit + |s.calls| - 1
    decreases |steps|
  {
    hide Value, Enabled, Owing;
    if steps != [] {
      StepBounded(ws, s, steps[0]);
      StepShaped(ws, s, steps[0]);
      OvershootBound(ws, Next(ws, s, steps[0]), steps[1..]);
    } else {
      assert forall j :: 0 <= j < |ws| ==> BoundedAt(ws[j], s, j);
    }
  }

  /** Fresh counters and idle calls are within the bound. */
  lemma InitBounded(ws: seq<Window>, k: nat, now: int)
    requires GoodWindows(ws) && k > 0
    ensures Bounded(ws, State(seq(|ws|, _ => None), now, seq(k, _ => Idle)))
  {
    var s := State(seq(|ws|, _ => None), now, seq(k, _ => Idle));
    forall j | 0 <= j < |ws|
      ensures BoundedAt(ws[j], s, j)
    {
      IdleOwesNothing(s.calls, j);
    }
  }

  lemma {:induction false} IdleOwesNothing(calls: seq<Call>, j: nat)
    requires forall t :: 0 <= t < |calls| ==> calls[t].Idle?
    ensures Owing(calls, j) == 0
  {
    if calls != [] {
      IdleOwesNothing(calls[..|calls| - 1], j);
    }
  }

  // ---------------------------------------------------------------- a call cut off between INCR and EXPIRE

  /** A used-up counter without a deadline that nobody is about to give one. */
  ghost predicate Stuck(ws: seq<Window>, s: State, j: nat)
    requires |s.counters| == |ws| && j < |ws|
  {
    && s.counters[j].Some? && s.counters[j].value.deadline.None? && s.counters[j].value.value >= ws[j].limit
    && forall t :: 0 <= t < |s.calls| ==> s.calls[t] != Expiring(j)
  }

  /** INCR and EXPIRE are two commands.  If a call is cut off between them and the limit is then
      used up, the window stays full for good: no later step of any run frees it. */
  lemma {:induction false} StuckForever(ws: seq<Window>, s: State, steps: seq<Step>, j: nat)
    requires GoodWindows(ws) && Shaped(ws, s) && ValidRun(ws, s, steps) && j < |ws| && Stuck(ws, s, j)
    ensures var s' := Run(ws, s, steps);
            |s'.counters| == |ws| && Stuck(ws, s', j) && Value(s'.counters[j], s'.now) >= ws[j].limit
    decreases |steps|
  {
    if steps != [] {
      StepShaped(ws, s, steps[0]);
      StepStuck(ws, s, steps[0], j);
      StuckForever(ws, Next(ws, s, steps[0]), steps[1..], j);
    }
  }

  lemma StepStuck(ws: seq<Window>, s: State, step: Step, j: nat)
    requires GoodWindows(ws) && Shaped(ws, s) && Enabled(ws, s, step) && j < |ws| && Stuck(ws, s, j)
    ensures |Next(ws, s, step).counters| == |ws| && Stuck(ws, Next(ws, s, step), j)
  {
  }

  // ---------------------------------------------------------------- when counters keep their deadlines

  predicate Dateless(c: Option<Counter>) {
    c.Some? && c.value.deadline.None?
  }

  /** A call that is about to give a counter its deadline is the only one, and the counter has none; and
      every counter counts something. */
  ghost predicate Alone(s: State) {
    && (forall t :: 0 <= t < |s.calls| && s.calls[t].Expiring? ==>
          s.calls[t].j < |s.counters| && Dateless(s.counters[s.calls[t].j]))
    && (forall t, u :: 0 <= t < |s.calls| && 0 <= u < |s.calls| && t != u && s.calls[t].Expiring? ==>
          s.calls[u] != s.calls[t])
    && (forall j :: 0 <= j < |s.counters| && s.counters[j].Some? ==> s.counters[j].value.value >= 1)
  }

  predicate AboutToDate(s: State, j: nat) {
    exists t :: 0 <= t < |s.calls| && s.calls[t] == Expiring(j)
  }

  /** Every counter without a deadline has a call that is about to give it one. */
  ghost predicate Covered(s: State) {
    forall j :: 0 <= j < |s.counters| && Dateless(s.counters[j]) ==> AboutToDate(s, j)
  }

  /** The step cuts a call off between INCR and EXPIRE. */
  predicate CutsInside(s: State, step: Step) {
    step.CutOff? && step.t < |s.calls| && s.calls[step.t].Expiring?
  }

  lemma StepAlone(ws: seq<Window>, s: State, step: Step)
    requires GoodWindows(ws) && Shaped(ws, s) && Alone(s) && Enabled(ws, s, step)
    ensures Alone(Next(ws, s, step))
  {
    var s' := Next(ws, s, step);
    forall t | 0 <= t < |s'.calls| && s'.calls[t].Expiring?
      ensures s'.calls[t].j < |s'.counters| && Dateless(s'.counters[s'.calls[t].j])
    {
      if !step.Tick? && t != step.t {
        assert s'.calls[t] == s.calls[t] && s.calls[step.t] != s.calls[t];
      }
    }
  }

  lemma StepCovers(ws: seq<Window>, s: State, step: Step, j: nat)
    requires GoodWindows(ws) && Shaped(ws, s) && Alone(s) && Enabled(ws, s, step)
    requires !CutsInside(s, step) && j < |ws| && (Dateless(s.counters[j]) ==> AboutToDate(s, j))
    ensures var s' := Next(ws, s, step);
            |s'.counters| == |ws| && (Dateless(s'.counters[j]) ==> AboutToDate(s', j))
  {
    var s' := Next(ws, s, step);
    if Dateless(s'.counters[j]) {
      if Dateless(s.counters[j]) {
        var t :| 0 <= t < |s.calls| && s.calls[t] == Expiring(j);
        assert s'.calls[t] == Expiring(j);
      } else {
        assert s'.calls[step.t] == Expiring(j);
      }
    }
  }

  /** A step keeps every deadline in sight exactly when it does not cut a call off between INCR and
      EXPIRE. */
  lemma StepCoveredExact(ws: seq<Window>, s: State, step: Step)
    requires GoodWindows(ws) && Shaped(ws, s) && Alone(s) && Covered(s) && Enabled(ws, s, step)
    ensures Covered(Next(ws, s, step)) <==> !CutsInside(s, step)
  {
    var s' := Next(ws, s, step);
    if CutsInside(s, step) {
      var j := s.calls[step.t].j;
      assert Dateless(s'.counters[j]);
      assert !AboutToDate(s', j);
    } else {
      hide Next, Dateless, AboutToDate, Alone, Enabled;
      StepShaped(ws, s, step);
      forall j | 0 <= j < |s'.counters| && Dateless(s'.counters[j])
        ensures AboutToDate(s', j)
      {
        StepCovers(ws, s, step, j);
      }
    }
  }

  predicate NeverCutsInside(ws: seq<Window>, s: State, steps: seq<Step>)
    requires GoodWindows(ws) && Shaped(ws, s) && ValidRun(ws, s, steps)
    decreases |steps|
  {
    steps != [] ==>
      && !CutsInside(s, steps[0])
      && (StepShaped(ws, s, steps[0]); NeverCutsInside(ws, Next(ws, s, steps[0]), steps[1..]))
  }

  /** A counter without a deadline that nobody is about to give one. */
  predicate Orphan(s: State, j: nat) {
    j < |s.counters| && Dateless(s.counters[j]) && s.counters[j].value.value >= 1 && !AboutToDate(s, j)
  }

  lemma StepOrphan(ws: seq<Window>, s: State, step: Step, j: nat)
    requires GoodWindows(ws) && Shaped(ws, s) && Enabled(ws, s, step) && Orphan(s, j)
    ensures Orphan(Next(ws, s, step), j)
  {
  }

  lemma {:induction false} OrphanForever(ws: seq<Window>, s: State, steps: seq<Step>, j: nat)
    requires GoodWindows(ws) && Shaped(ws, s) && ValidRun(ws, s, steps) && Orphan(s, j)
    ensures Orphan(Run(ws, s, steps), j)
    decreases |steps|
  {
    hide Next, Enabled, Orphan;
    if steps != [] {
      StepShaped(ws, s, steps[0]);
      StepOrphan(ws, s, steps[0], j);
      OrphanForever(ws, Next(ws, s, steps[0]), steps[1..], j);
    }
  }

  lemma {:induction false} CoveredExact(ws: seq<Window>, s: State, steps: seq<Step>)
    requires GoodWindows(ws) && Shaped(ws, s) && Alone(s) && Covered(s) && ValidRun(ws, s, steps)
    ensures Covered(Run(ws, s, steps)) <==> NeverCutsInside(ws, s, steps)
    decreases |steps|
  {
    hide Next, Enabled, Alone, CutsInside;
    if steps != [] {
      StepShaped(ws, s, steps[0]);
      StepAlone(ws, s, steps[0]);
      StepCoveredExact(ws, s, steps[0]);
      var s' := Next(ws, s, steps[0]);
      if Covered(s') {
        CoveredExact(ws, s', steps[1..]);
      } else {
        var j :| 0 <= j < |s'.counters| && Dateless(s'.counters[j]) && !AboutToDate(s', j);
        AtLeastOne(s', j);
        OrphanForever(ws, s', steps[1..], j);
        assert Orphan(Run(ws, s', steps[1..]), j);
      }
    }
  }

  lemma AtLeastOne(s: State, j: nat)
    requires Alone(s) && j < |s.counters| && Dateless(s.counters[j])
    ensures s.counters[j].value.value >= 1
  {
  }

  /** No counters yet, and k calls that have not begun. */
  function Start(ws: seq<Window>, k: nat, now: int): State {
    State(seq(|ws|, _ => None), now, seq(k, _ => Idle))
  }

  /** From fresh counters, every counter without a deadline is about to get one if and only if no call
      was ever cut off between INCR and EXPIRE; and then no window is stuck. */
  lemma DeadlinesExact(ws: seq<Window>, k: nat, now: int, steps: seq<Step>)
    requires GoodWindows(ws) && ValidRun(ws, Start(ws, k, now), steps)
    ensures var s := Run(ws, Start(ws, k, now), steps);
            && |s.counters| == |ws|
            && (Covered(s) <==> NeverCutsInside(ws, Start(ws, k, now), steps))
            && (NeverCutsInside(ws, Start(ws, k, now), steps) ==> forall j :: 0 <= j < |ws| ==> !Stuck(ws, s, j))
  {
    hide Run, NeverCutsInside, ValidRun;
    CoveredExact(ws, Start(ws, k, now), steps);
    RunShaped(ws, Start(ws, k, now), steps);
  }

  lemma {:induction false} RunShaped(ws: seq<Window>, s: State, steps: seq<Step>)
    requires GoodWindows(ws) && Shaped(ws, s) && ValidRun(ws, s, steps)
    ensures Shaped(ws, Run(ws, s, steps)) && |Run(ws, s, steps).calls| == |s.calls|
    decreases |steps|
  {
    hide Next, Enabled;
    if steps != [] {
      StepShaped(ws, s, steps[0]);
      RunShaped(ws, Next(ws, s, steps[0]), steps[1..]);
    }
  }

  /** The overshoot bound from fresh counters. */
  lemma FreshOvershootBound(ws: seq<Window>, k: nat, now: int, steps: seq<Step>)
    requires GoodWindows(ws) && k > 0 && ValidRun(ws, Start(ws, k, now), steps)
    ensures var s := Run(ws, Start(ws, k, now), steps);
            |s.counters| == |ws| && forall j :: 0 <= j < |ws| ==> Value(s.counters[j], s.now) <= ws[j].limit + k - 1
  {
    hide Run, ValidRun, Value, Bounded;
    InitBounded(ws, k, now);
    OvershootBound(ws, Start(ws, k, now), steps);
  }

  // ---------------------------------------------------------------- building runs

  /** The steps form a run from one state to another. */
  ghost predicate Leads(ws: seq<Window>, s: State, steps: seq<Step>, s': State)
    requires GoodWindows(ws)
  {
    Shaped(ws, s) && ValidRun(ws, s, steps) && Run(ws, s, steps) == s'
  }

  lemma LeadsNowhere(ws: seq<Window>, s: State)
    requires GoodWindows(ws) && Shaped(ws, s)
    ensures Leads(ws, s, [], s)
  {
  }

  lemma LeadsOne(ws: seq<Window>, s: State, step: Step)
    requires GoodWindows(ws) && Shaped(ws, s) && Enabled(ws, s, step)
    ensures Leads(ws, s, [step], Next(ws, s, step)) && Shaped(ws, Next(ws, s, step))
  {
    hide Next, Enabled;
    StepShaped(ws, s, step);
    assert [step][1..] == [];
    LeadsNowhere(ws, Next(ws, s, step));
  }

  lemma {:induction false} LeadsFar(ws: seq<Window>, s: State, a: seq<Step>, m: State, b: seq<Step>, s': State)
    requires GoodWindows(ws) && Leads(ws, s, a, m) && Leads(ws, m, b, s')
    ensures Leads(ws, s, a + b, s')
    decreases |a|
  {
    hide Next, Enabled, Shaped;
    if a == [] {
      assert a + b == b;
    } else {
      StepShaped(ws, s, a[0]);
      LeadsFar(ws, Next(ws, s, a[0]), a[1..], m, b, s');
      assert (a + b)[1..] == a[1..] + b;
    }
  }

  /** The call once it has reserved the windows before i. */
  function CallAt(ws: seq<Window>, i: nat): Call {
    if i < |ws| then Reserving(i) else Idle
  }

  function ReservedTo(ws: seq<Window>, cs: seq<Option<Counter>>, i: nat, e: nat, now: int): seq<Option<Counter>>
    requires |cs| == |ws|
  {
    seq(|cs|, m requires 0 <= m < |cs| => if i <= m < e then Some(Reserve(cs[m], ws[m].ttl, now)) else cs[m])
  }

  lemma CheckFrom(ws: seq<Window>, s: State, t: nat, i: nat) returns (steps: seq<Step>)
    requires GoodWindows(ws) && Shaped(ws, s) && t < |s.calls| && i < |ws| && s.calls[t] == Checking(i)
    requires forall m :: i <= m < |ws| ==> Value(s.counters[m], s.now) < ws[m].limit
    ensures Leads(ws, s, steps, s.(calls := s.calls[t := Reserving(0)]))
    decreases |ws| - i
  {
    hide Leads;
    LeadsOne(ws, s, Get(t));
    var s1 := Next(ws, s, Get(t));
    if i + 1 == |ws| {
      steps := [Get(t)];
    } else {
      var rest := CheckFrom(ws, s1, t, i + 1);
      assert s1.calls[t := Reserving(0)] == s.calls[t := Reserving(0)];
      LeadsFar(ws, s, [Get(t)], s1, rest, s.(calls := s.calls[t := Reserving(0)]));
      steps := [Get(t)] + rest;
    }
  }

  lemma ReserveOne(ws: seq<Window>, s: State, t: nat, i: nat) returns (steps: seq<Step>)
    requires GoodWindows(ws) && Shaped(ws, s) && t < |s.calls| && i < |ws| && s.calls[t] == Reserving(i)
    ensures Leads(ws, s, steps, s.(counters := s.counters[i := Some(Reserve(s.counters[i], ws[i].ttl, s.now))],
                                   calls := s.calls[t := CallAt(ws, i + 1)]))
  {
    hide Leads;
    LeadsOne(ws, s, Increment(t));
    var s1 := Next(ws, s, Increment(t));
    if s1.calls[t].Expiring? {
      LeadsOne(ws, s1, SetTtl(t));
      var s2 := Next(ws, s1, SetTtl(t));
      LeadsFar(ws, s, [Increment(t)], s1, [SetTtl(t)], s2);
      assert s2.calls == s.calls[t := CallAt(ws, i + 1)];
      assert s2.counters == s.counters[i := Some(Reserve(s.counters[i], ws[i].ttl, s.now))];
      steps := [Increment(t)] + [SetTtl(t)];
    } else {
      steps := [Increment(t)];
    }
  }

  lemma ReserveFrom(ws: seq<Window>, s: State, t: nat, i: nat, e: nat) returns (steps: seq<Step>)
    requires GoodWindows(ws) && Shaped(ws, s) && t < |s.calls| && i <= e <= |ws| && s.calls[t] == CallAt(ws, i)
    ensures Leads(ws, s, steps, s.(counters := ReservedTo(ws, s.counters, i, e, s.now),
                                   calls := s.calls[t := CallAt(ws, e)]))
    decreases e - i
  {
    hide Leads, Reserve;
    if i == e {
      steps := [];
      LeadsNowhere(ws, s);
      assert ReservedTo(ws, s.counters, i, e, s.now) == s.counters;
      assert s.calls[t := CallAt(ws, e)] == s.calls;
    } else {
      var one := ReserveOne(ws, s, t, i);
      var s1 := s.(counters := s.counters[i := Some(Reserve(s.counters[i], ws[i].ttl, s.now))],
                   calls := s.calls[t := CallAt(ws, i + 1)]);
      var rest := ReserveFrom(ws, s1, t, i + 1, e);
      assert ReservedTo(ws, s1.counters, i + 1, e, s.now) == ReservedTo(ws, s.counters, i, e, s.now);
      assert s1.calls[t := CallAt(ws, e)] == s.calls[t := CallAt(ws, e)];
      LeadsFar(ws, s, one, s1, rest, s.(counters := ReservedTo(ws, s.counters, i, e, s.now),
                                       calls := s.calls[t := CallAt(ws, e)]));
      steps := one + rest;
    }
  }

  lemma BeginAndCheck(ws: seq<Window>, s: State, t: nat) returns (steps: seq<Step>)
    requires GoodWindows(ws) && Shaped(ws, s) && ws != [] && t < |s.calls| && s.calls[t].Idle?
    requires forall m :: 0 <= m < |ws| ==> Value(s.counters[m], s.now) < ws[m].limit
    ensures Leads(ws, s, steps, s.(calls := s.calls[t := Reserving(0)]))
  {
    hide Leads;
    LeadsOne(ws, s, Begin(t));
    var s1 := Next(ws, s, Begin(t));
    var check := CheckFrom(ws, s1, t, 0);
    assert s1.calls[t := Reserving(0)] == s.calls[t := Reserving(0)];
    LeadsFar(ws, s, [Begin(t)], s1, check, s.(calls := s.calls[t := Reserving(0)]));
    steps := [Begin(t)] + check;
  }

  /** One whole call. */
  lemma WholeCall(ws: seq<Window>, s: State, t: nat) returns (steps: seq<Step>)
    requires GoodWindows(ws) && Shaped(ws, s) && ws != [] && t < |s.calls| && s.calls[t].Idle?
    requires forall m :: 0 <= m < |ws| ==> Value(s.counters[m], s.now) < ws[m].limit
    ensures Leads(ws, s, steps, s.(counters := ReservedTo(ws, s.counters, 0, |ws|, s.now)))
  {
    hide Leads, Reserve;
    var check := BeginAndCheck(ws, s, t);
    var s1 := s.(calls := s.calls[t := Reserving(0)]);
    var reserve := ReserveFrom(ws, s1, t, 0, |ws|);
    assert s1.calls[t := Idle] == s.calls;
    LeadsFar(ws, s, check, s1, reserve, s.(counters := ReservedTo(ws, s.counters, 0, |ws|, s.now)));
    steps := check + reserve;
  }

  // ---------------------------------------------------------------- a window can get stuck

  function LongestTtl(ws: seq<Window>): (n: nat)
    ensures forall m :: 0 <= m < |ws| ==> ws[m].ttl <= n
  {
    if ws == [] then 0
    else
      var n := LongestTtl(ws[..|ws| - 1]);
      if ws[|ws| - 1].ttl <= n then n else ws[|ws| - 1].ttl
  }

  /** Nobody is calling, counter j has a value and no deadline, and the other counters have run out. */
  ghost predicate Undated(ws: seq<Window>, s: State, j: nat, value: nat) {
    && |s.counters| == |ws| && j < |ws| && |s.calls| > 0
    && (forall t :: 0 <= t < |s.calls| ==> s.calls[t].Idle?)
    && s.counters[j] == Some(Counter(value, None))
    && forall m :: 0 <= m < |ws| && m != j ==> Value(s.counters[m], s.now) == 0 && !Live(s.counters[m], s.now)
  }

  /** Counters that were given their deadline now have run out when the longest window has passed. */
  lemma WaitOut(ws: seq<Window>, s: State, j: nat, value: nat) returns (s': State)
    requires GoodWindows(ws) && Shaped(ws, s) && j < |ws| && |s.calls| > 0
    requires forall t :: 0 <= t < |s.calls| ==> s.calls[t].Idle?
    requires s.counters[j] == Some(Counter(value, None))
    requires forall m :: 0 <= m < |ws| && m != j ==>
      s.counters[m].None? ||
      (s.counters[m].value.deadline.Some? && s.counters[m].value.deadline.value <= s.now + ws[m].ttl)
    ensures s' == s.(now := s.now + LongestTtl(ws))
    ensures Leads(ws, s, [Tick(s'.now)], s') && Undated(ws, s', j, value)
  {
    s' := s.(now := s.now + LongestTtl(ws));
    LeadsOne(ws, s, Tick(s'.now));
  }

  /** One more call raises the counter; its value is then not one, so it is given no deadline. */
  lemma RaiseUndated(ws: seq<Window>, s: State, j: nat, value: nat) returns (steps: seq<Step>, s': State)
    requires GoodWindows(ws) && Undated(ws, s, j, value) && 0 < value < ws[j].limit
    ensures Leads(ws, s, steps, s') && Undated(ws, s', j, value + 1)
  {
    var call := WholeCall(ws, s, 0);
    var s1 := s.(counters := ReservedTo(ws, s.counters, 0, |ws|, s.now));
    forall m | 0 <= m < |ws| && m != j
      ensures s1.counters[m] == Some(Counter(1, Some(s.now + ws[m].ttl)))
    {
    }
    s' := WaitOut(ws, s1, j, value + 1);
    hide Leads;
    LeadsFar(ws, s, call, s1, [Tick(s'.now)], s');
    steps := call + [Tick(s'.now)];
  }

  lemma FillUp(ws: seq<Window>, s: State, j: nat, value: nat) returns (steps: seq<Step>, s': State)
    requires GoodWindows(ws) && Undated(ws, s, j, value) && 0 < value <= ws[j].limit
    ensures Leads(ws, s, steps, s') && Undated(ws, s', j, ws[j].limit)
    decreases ws[j].limit - value
  {
    hide Leads, Undated;
    UndatedShaped(ws, s, j, value);
    if value == ws[j].limit {
      LeadsNowhere(ws, s);
      steps, s' := [], s;
    } else {
      var one, s1 := RaiseUndated(ws, s, j, value);
      var rest;
      rest, s' := FillUp(ws, s1, j, value + 1);
      LeadsFar(ws, s, one, s1, rest, s');
      steps := one + rest;
    }
  }

  lemma UndatedShaped(ws: seq<Window>, s: State, j: nat, value: nat)
    requires Undated(ws, s, j, value)
    ensures Shaped(ws, s) && j < |ws|
  {
  }

  /** The first call is cut off right after its INCR on window j. */
  lemma CutOffAt(ws: seq<Window>, k: nat, now: int, j: nat) returns (steps: seq<Step>, s': State)
    requires GoodWindows(ws) && j < |ws| && k > 0
    ensures Leads(ws, Start(ws, k, now), steps, s') && Undated(ws, s', j, 1)
  {
    var s := Start(ws, k, now);
    var check := BeginAndCheck(ws, s, 0);
    var s1 := s.(calls := s.calls[0 := Reserving(0)]);
    var before := ReserveFrom(ws, s1, 0, 0, j);
    var s2 := s1.(counters := ReservedTo(ws, s1.counters, 0, j, now), calls := s1.calls[0 := CallAt(ws, j)]);
    LeadsOne(ws, s2, Increment(0));
    var s3 := Next(ws, s2, Increment(0));
    LeadsOne(ws, s3, CutOff(0));
    var s4 := Next(ws, s3, CutOff(0));
    assert s4.calls == s.calls;
    s' := WaitOut(ws, s4, j, 1);
    hide Leads;
    LeadsFar(ws, s, check, s1, before, s2);
    LeadsFar(ws, s, check + before, s2, [Increment(0)], s3);
    LeadsFar(ws, s, check + before + [Increment(0)], s3, [CutOff(0)], s4);
    LeadsFar(ws, s, check + before + [Increment(0)] + [CutOff(0)], s4, [Tick(s'.now)], s');
    steps := check + before + [Increment(0)] + [CutOff(0)] + [Tick(s'.now)];
  }

  /** For every action and every one of its windows, a run from fresh counters with a single call cut off
      leaves the window stuck. */
  lemma CutOffCanStick(ws: seq<Window>, k: nat, now: int, j: nat) returns (steps: seq<Step>)
    requires GoodWindows(ws) && j < |ws| && k > 0
    ensures ValidRun(ws, Start(ws, k, now), steps)
    ensures var s := Run(ws, Start(ws, k, now), steps); |s.counters| == |ws| && Stuck(ws, s, j)
  {
    var cut, s1 := CutOffAt(ws, k, now, j);
    var fill, s2 := FillUp(ws, s1, j, 1);
    LeadsFar(ws, Start(ws, k, now), cut, s1, fill, s2);
    steps := cut + fill;
  }

  // ---------------------------------------------------------------- the overshoot bound is reached

  /** Every counter at n, with deadlines counted from now. */
  function Filled(ws: seq<Window>, n: nat, now: int): seq<Option<Counter>> {
    seq(|ws|, m requires 0 <= m < |ws| => if n == 0 then None else Some(Counter(n, Some(now + ws[m].ttl))))
  }

  lemma FilledMore(ws: seq<Window>, n: nat, now: int)
    requires GoodWindows(ws)
    ensures ReservedTo(ws, Filled(ws, n, now), 0, |ws|, now) == Filled(ws, n + 1, now)
    ensures forall m :: 0 <= m < |ws| ==> Value(Filled(ws, n, now)[m], now) == n
  {
  }

  lemma FillTo(ws: seq<Window>, k: nat, now: int, n: nat) returns (steps: seq<Step>)
    requires GoodWindows(ws) && ws != [] && k > 0 && forall m :: 0 <= m < |ws| ==> n <= ws[m].limit
    ensures Leads(ws, Start(ws, k, now), steps, Start(ws, k, now).(counters := Filled(ws, n, now)))
    decreases n
  {
    hide Leads, Value, Reserve;
    var s := Start(ws, k, now);
    if n == 0 {
      LeadsNowhere(ws, s);
      assert Filled(ws, 0, now) == s.counters;
      steps := [];
    } else {
      var front := FillTo(ws, k, now, n - 1);
      var s1 := s.(counters := Filled(ws, n - 1, now));
      FilledMore(ws, n - 1, now);
      var call := WholeCall(ws, s1, 0);
      LeadsFar(ws, s, front, s1, call, s.(counters := Filled(ws, n, now)));
      steps := front + call;
    }
  }

  /** The first c calls have passed their checks. */
  function Checked(k: nat, c: nat): seq<Call> {
    seq(k, t => if t < c then Reserving(0) else Idle)
  }

  lemma AllCheck(ws: seq<Window>, s: State, k: nat, c: nat) returns (steps: seq<Step>)
    requires GoodWindows(ws) && ws != [] && |s.counters| == |ws| && c <= k && s.calls == Checked(k, 0)
    requires forall m :: 0 <= m < |ws| ==> Value(s.counters[m], s.now) < ws[m].limit
    ensures Leads(ws, s, steps, s.(calls := Checked(k, c)))
    decreases c
  {
    hide Leads, Value;
    if c == 0 {
      LeadsNowhere(ws, s);
      steps := [];
    } else {
      var front := AllCheck(ws, s, k, c - 1);
      var s1 := s.(calls := Checked(k, c - 1));
      var one := BeginAndCheck(ws, s1, c - 1);
      assert s1.calls[c - 1 := Reserving(0)] == Checked(k, c);
      LeadsFar(ws, s, front, s1, one, s.(calls := Checked(k, c)));
      steps := front + one;
    }
  }

  lemma AllReserve(ws: seq<Window>, s: State, k: nat, c: nat, n: nat) returns (steps: seq<Step>)
    requires GoodWindows(ws) && ws != [] && c <= k && s.calls == Checked(k, c) && s.counters == Filled(ws, n, s.now)
    ensures Leads(ws, s, steps, s.(calls := Checked(k, 0), counters := Filled(ws, n + c, s.now)))
    decreases c
  {
    hide Leads, Reserve;
    if c == 0 {
      LeadsNowhere(ws, s);
      steps := [];
    } else {
      var one := ReserveFrom(ws, s, c - 1, 0, |ws|);
      FilledMore(ws, n, s.now);
      assert s.calls[c - 1 := Idle] == Checked(k, c - 1);
      var s1 := s.(calls := Checked(k, c - 1), counters := Filled(ws, n + 1, s.now));
      var rest := AllReserve(ws, s1, k, c - 1, n + 1);
      LeadsFar(ws, s, one, s1, rest, s.(calls := Checked(k, 0), counters := Filled(ws, n + c, s.now)));
      steps := one + rest;
    }
  }

  /** The overshoot bound is reached, in the window with the smallest limit, by k calls that all pass
      their checks before any of them increments. */
  lemma OvershootTight(ws: seq<Window>, k: nat, now: int, j: nat) returns (steps: seq<Step>)
    requires GoodWindows(ws) && j < |ws| && k > 0
    requires forall m :: 0 <= m < |ws| ==> ws[j].limit <= ws[m].limit
    ensures ValidRun(ws, Start(ws, k, now), steps)
    ensures var s := Run(ws, Start(ws, k, now), steps);
            |s.counters| == |ws| && Value(s.counters[j], s.now) == ws[j].limit + k - 1
  {
    hide Run, ValidRun, Reserve;
    var n := ws[j].limit - 1;
    var s := Start(ws, k, now);
    var fill := FillTo(ws, k, now, n);
    var s1 := s.(counters := Filled(ws, n, now));
    FilledMore(ws, n, now);
    assert s1.calls == Checked(k, 0);
    var check := AllCheck(ws, s1, k, k);
    var s2 := s1.(calls := Checked(k, k));
    var reserve := AllReserve(ws, s2, k, k, n);
    var s3 := s2.(calls := Checked(k, 0), counters := Filled(ws, n + k, now));
    FilledMore(ws, n + k, now);
    LeadsFar(ws, s, fill, s1, check, s2);
    LeadsFar(ws, s, fill + check, s2, reserve, s3);
    steps := fill + check + reserve;
  }
}
