/** What the goals of the planner (core/autopilot/planner.py) ask for, said of the fleet itself: which
    accounts an average, a supply or a threshold is about, and what an action carries. */
module PlannerGoals {
  import opened Wrappers
  import opened AccountMachine
  import opened Planner

  // ---------------------------------------------------------------- counting over the fleet

  /** The places of the fleet whose accounts have one of the statuses. */
  function Places(fleet: Fleet, statuses: set<Status>): set<nat> {
    set i | 0 <= i < |fleet| && fleet[i].status in statuses
  }

  /** The sum of the risks of those accounts. */
  function TotalRisk(fleet: Fleet, statuses: set<Status>): real {
    if fleet == [] then 0.0
    else
      var a := fleet[|fleet| - 1];
      TotalRisk(fleet[..|fleet| - 1], statuses) + if a.status in statuses then a.banRisk else 0.0
  }

  lemma PlacesSnoc(front: Fleet, a: Snapshot, statuses: set<Status>)
    ensures |Places(front + [a], statuses)| == |Places(front, statuses)| + if a.status in statuses then 1 else 0
  {
    assert Places(front + [a], statuses) ==
        Places(front, statuses) + if a.status in statuses then {|front|} else {};
  }

  lemma NoPlaces(statuses: set<Status>)
    ensures Places([], statuses) == {}
  {
  }

  lemma {:induction false} ActiveCounts(fleet: Fleet)
    ensures |Active(fleet)| == |Places(fleet, {Pool, Assigned, Warming})|
    ensures RiskSum(Active(fleet)) == TotalRisk(fleet, {Pool, Assigned, Warming})
  {
    hide Places, RiskSum, IsActive;
    if fleet == [] {
      NoPlaces({Pool, Assigned, Warming});
      NoActive(0.0);
    } else {
      var front, a := fleet[..|fleet| - 1], fleet[|fleet| - 1];
      assert fleet == front + [a];
      ActiveCounts(front);
      PlacesSnoc(front, a, {Pool, Assigned, Warming});
      ActiveSnoc(front, a);
      ActiveSnoc(Active(front), a);
      ActiveMeans(a);
      assert Active(front) + [] == Active(front);
    }
  }

  lemma ActiveMeans(a: Snapshot)
    ensures IsActive(a) <==> a.status in {Pool, Assigned, Warming}
  {
  }

  lemma {:induction false} ByStatusCounts(fleet: Fleet, status: Status)
    ensures |ByStatus(fleet, status)| == |Places(fleet, {status})|
  {
    hide Places;
    if fleet == [] {
      NoPlaces({status});
    } else {
      var front, a := fleet[..|fleet| - 1], fleet[|fleet| - 1];
      assert fleet == front + [a];
      ByStatusCounts(front, status);
      PlacesSnoc(front, a, {status});
    }
  }

  lemma PlacesTwo(fleet: Fleet, s: Status, t: Status)
    requires s != t
    ensures |Places(fleet, {s, t})| == |Places(fleet, {s})| + |Places(fleet, {t})|
  {
    assert Places(fleet, {s, t}) == Places(fleet, {s}) + Places(fleet, {t});
    assert Places(fleet, {s}) !! Places(fleet, {t});
  }

  // ---------------------------------------------------------------- the average, and when a risk goal fires

  /** The average risk is that of the accounts in the pool, assigned or warming; without any it is zero. */
  lemma AverageMeans(fleet: Fleet)
    ensures var n := |Places(fleet, {Pool, Assigned, Warming})|;
            && AverageRisk(fleet) * n as real == TotalRisk(fleet, {Pool, Assigned, Warming})
            && (n == 0 ==> AverageRisk(fleet) == 0.0)
  {
    hide Active, RiskSum, Places, TotalRisk;
    ActiveCounts(fleet);
    if Active(fleet) == [] {
      NoActive(0.0);
    } else {
      var n := |Active(fleet)| as real;
      assert RiskSum(Active(fleet)) / n * n == RiskSum(Active(fleet));
    }
  }

  lemma {:induction false} ActiveSkips(front: Fleet, a: Snapshot, rest: Fleet)
    requires a.status !in {Pool, Assigned, Warming}
    ensures Active(front + [a] + rest) == Active(front + rest)
  {
    if rest == [] {
      assert front + [a] + rest == front + [a] && front + rest == front;
      ActiveSnoc(front, a);
    } else {
      var more, last := rest[..|rest| - 1], rest[|rest| - 1];
      assert front + [a] + rest == (front + [a] + more) + [last] && front + rest == (front + more) + [last];
      ActiveSkips(front, a, more);
      ActiveSnoc(front + [a] + more, last);
      ActiveSnoc(front + more, last);
    }
  }

  /** An account of any other status never changes the average, wherever it stands in the fleet. */
  lemma OthersDoNotCount(front: Fleet, a: Snapshot, rest: Fleet)
    requires a.status !in {Pool, Assigned, Warming}
    ensures AverageRisk(front + [a] + rest) == AverageRisk(front + rest)
  {
    hide Active, RiskSum;
    ActiveSkips(front, a, rest);
  }

  /** A risk goal fires exactly when the risks of those accounts exceed its threshold on average; a goal
      without a threshold has 0.3. */
  lemma FiresExact(goal: Goal, fleet: Fleet)
    ensures var n := |Places(fleet, {Pool, Assigned, Warming})|;
            var threshold := if goal.maxRisk.None? then 0.3 else goal.maxRisk.value;
            Fires(goal, fleet) <==>
              goal.goalType == KeepLowRisk &&
              if n == 0 then threshold < 0.0
              else TotalRisk(fleet, {Pool, Assigned, Warming}) > threshold * n as real
  {
    hide AverageRisk, Places, TotalRisk;
    var n := |Places(fleet, {Pool, Assigned, Warming})|;
    var threshold := MaxRisk(goal);
    AverageMeans(fleet);
    if n > 0 {
      ProductOrder(AverageRisk(fleet), threshold, n as real);
    }
  }

  lemma ProductOrder(x: real, y: real, n: real)
    requires n > 0.0
    ensures x > y <==> x * n > y * n
  {
    if x > y {
      assert (x - y) * n > 0.0;
    } else {
      assert (y - x) * n >= 0.0;
    }
  }

  /** Sums of risks that all lie on one side of a threshold. */
  lemma {:induction false} SumsBeyond(fleet: Fleet, statuses: set<Status>, m: real)
    ensures (forall i :: i in Places(fleet, statuses) ==> fleet[i].banRisk > m) && Places(fleet, statuses) != {} ==>
              TotalRisk(fleet, statuses) > Times(m, |Places(fleet, statuses)|)
    ensures (forall i :: i in Places(fleet, statuses) ==> fleet[i].banRisk <= m) ==>
              TotalRisk(fleet, statuses) <= Times(m, |Places(fleet, statuses)|)
  {
    hide Times;
    if fleet == [] {
      NoActive(m);
      NoPlaces(statuses);
    } else {
      var front, a := fleet[..|fleet| - 1], fleet[|fleet| - 1];
      assert fleet == front + [a];
      SumsBeyond(front, statuses, m);
      PlacesSnoc(front, a, statuses);
      TimesStep(m, |Places(front, statuses)|);
      assert forall i :: i in Places(front, statuses) ==> i in Places(fleet, statuses) && fleet[i] == front[i];
      assert a.status in statuses ==> |front| in Places(fleet, statuses) && fleet[|front|] == a;
      if Places(front, statuses) == {} {
        NoActive(m);
        NothingSummed(front, statuses);
      }
    }
  }

  lemma {:induction false} NothingSummed(fleet: Fleet, statuses: set<Status>)
    requires Places(fleet, statuses) == {}
    ensures TotalRisk(fleet, statuses) == 0.0
  {
    if fleet != [] {
      var front, a := fleet[..|fleet| - 1], fleet[|fleet| - 1];
      assert fleet == front + [a];
      PlacesSnoc(front, a, statuses);
      NothingSummed(front, statuses);
    }
  }

  /** So a risk goal fires when all the accounts in service are above the threshold, and there are some; it
      does not when there are some and none of them is. */
  lemma FiresWhenAllRisky(goal: Goal, fleet: Fleet)
    requires goal.goalType == KeepLowRisk && Places(fleet, {Pool, Assigned, Warming}) != {}
    ensures var serving := Places(fleet, {Pool, Assigned, Warming});
            && ((forall i :: i in serving ==> fleet[i].banRisk > MaxRisk(goal)) ==> Fires(goal, fleet))
            && ((forall i :: i in serving ==> fleet[i].banRisk <= MaxRisk(goal)) ==> !Fires(goal, fleet))
  {
    hide Places, TotalRisk, Fires;
    FiresExact(goal, fleet);
    SumsBeyond(fleet, {Pool, Assigned, Warming}, MaxRisk(goal));
  }

  // ---------------------------------------------------------------- how much a supply goal starts

  /** What a goal counts as supplied. */
  function Supplied(goal: Goal, fleet: Fleet): nat {
    match goal.goalType
    case MaintainPoolSize => |Places(fleet, {Pool, Warming})|
    case _ => |Places(fleet, {Warming})|
  }

  lemma SupplyMeans(goal: Goal, fleet: Fleet)
    requires goal.goalType in {MaintainPoolSize, WarmupPipeline}
    ensures SupplyFor(goal, fleet) == Supplied(goal, fleet)
  {
    hide Places, ByStatus;
    ByStatusCounts(fleet, Pool);
    ByStatusCounts(fleet, Warming);
    PlacesTwo(fleet, Pool, Warming);
  }

  /** A supply goal starts accounts until its target is reached, `created` accounts run out, or it has
      started ten, whichever comes first; any other goal that is not a risk goal does nothing. */
  lemma StartsExact(goal: Goal, fleet: Fleet)
    ensures var n := |GoalPlan(goal, fleet)|;
            var target := if goal.target.None? then 0 else goal.target.value;
            && (goal.goalType == MaintainPoolSize ==>
                  Reaches(n, |Places(fleet, {Pool, Warming})|, target, |Places(fleet, {Created})|))
            && (goal.goalType == WarmupPipeline ==>
                  Reaches(n, |Places(fleet, {Warming})|, target, |Places(fleet, {Created})|))
            && (goal.goalType.OtherGoal? ==> n == 0)
  {
    hide Places, ByStatus, Candidates, Sorted, Fires, Starts;
    if goal.goalType in {MaintainPoolSize, WarmupPipeline} {
      SupplyMeans(goal, fleet);
      ByStatusCounts(fleet, Created);
      CandidatesCount(fleet);
      NotARiskGoal(goal, fleet);
      StartingGoals(goal, fleet);
    }
  }

  /** From `supplied` towards `target` with at most `available`, ten at a time. */
  predicate Reaches(started: nat, supplied: nat, target: int, available: nat) {
    && started <= available && started <= 10
    && (started > 0 ==> supplied + started <= target)
    && (supplied + started >= target || started == available || started == 10)
  }

  lemma NotARiskGoal(goal: Goal, fleet: Fleet)
    requires goal.goalType != KeepLowRisk
    ensures !Fires(goal, fleet)
  {
  }

  lemma CandidatesCount(fleet: Fleet)
    ensures |Candidates(fleet)| == |ByStatus(fleet, Created)|
  {
    hide Sorted, ByStatus;
    var s := ByStatus(fleet, Created);
    SortedMeans(s, ById);
    assert |Sorted(s, ById)| == |multiset(Sorted(s, ById))|;
  }

  // ---------------------------------------------------------------- what an action carries

  /** The action is one that the goal has for the account: who it is about, why, and on what figures. */
  predicate Carries(x: Action, goal: Goal, fleet: Fleet, a: Snapshot) {
    && x.goalId == goal.goalId && x.accountId == Some(a.accountId)
    && match x.actionType
       case StartWarming =>
         && a.status == Created && x.details.Supply?
         && Some(x.details.target) == goal.target && x.details.current == Supplied(goal, fleet)
       case RetireRisky =>
         && a.banRisk >= 0.8 && x.details.Risk?
         && x.details.banRisk == a.banRisk && x.details.averageRisk == AverageRisk(fleet)
       case Throttle =>
         && 0.6 <= a.banRisk < 0.8 && a.warmingProfile != Some("minimal") && x.details.Pace?
         && x.details.banRisk == a.banRisk && x.details.fromProfile == a.warmingProfile
  }

  lemma RetireCarries(goal: Goal, fleet: Fleet, k: nat)
    requires k < |Riskiest(fleet)|
    ensures Riskiest(fleet)[k] in fleet
    ensures Carries(Retires(goal, fleet, Riskiest(fleet))[k], goal, fleet, Riskiest(fleet)[k])
  {
    hide Riskiest, AverageRisk, Retires, Supplied;
    RiskiestCarry(fleet, Riskiest(fleet)[k]);
  }

  lemma ThrottleCarries(goal: Goal, fleet: Fleet, k: nat)
    requires k < |Slowed(fleet)|
    ensures Slowed(fleet)[k] in fleet
    ensures Carries(Throttles(goal, Slowed(fleet))[k], goal, fleet, Slowed(fleet)[k])
  {
    hide Slowed, Riskiest, AverageRisk, Throttles, Supplied;
    ThrottledMeans(fleet, Slowed(fleet)[k], Slowed(fleet)[k]);
  }

  lemma StartCarries(goal: Goal, fleet: Fleet, k: nat)
    requires k < |Prefix(Candidates(fleet), Take(goal, fleet))|
    ensures k < |Candidates(fleet)| && Candidates(fleet)[k] in fleet
    ensures Carries(Starts(goal, fleet, Prefix(Candidates(fleet), Take(goal, fleet)))[k], goal, fleet,
                    Candidates(fleet)[k])
  {
    hide Candidates, SupplyFor, Starts, Supplied;
    CandidatesMean(fleet, Candidates(fleet)[k]);
    SupplyMeans(goal, fleet);
  }

  lemma GoalCarries(goal: Goal, fleet: Fleet, k: nat) returns (a: Snapshot)
    requires k < |GoalPlan(goal, fleet)|
    ensures a in fleet && Carries(GoalPlan(goal, fleet)[k], goal, fleet, a)
  {
    hide *;
    StartingGoals(goal, fleet);
    if Fires(goal, fleet) {
      var retires := Retires(goal, fleet, Riskiest(fleet));
      if k < |retires| {
        RetireCarries(goal, fleet, k);
        a := Riskiest(fleet)[k];
      } else {
        ThrottleCarries(goal, fleet, k - |retires|);
        a := Slowed(fleet)[k - |retires|];
      }
    } else {
      StartCarries(goal, fleet, k);
      a := Candidates(fleet)[k];
    }
  }

  lemma RiskiestCarry(fleet: Fleet, a: Snapshot)
    ensures a in Riskiest(fleet) ==> a in fleet && a.banRisk >= 0.8
  {
    hide Sorted, Critical;
    RankedMember(fleet, a);
  }

  lemma {:induction false} RawFrom(goals: seq<Goal>, fleet: Fleet, x: Action) returns (g: nat)
    requires x in RawPlan(goals, fleet)
    ensures g < |goals| && x in GoalPlan(goals[g], fleet)
  {
    hide GoalPlan;
    var n := |goals| - 1;
    if x in GoalPlan(goals[n], fleet) {
      g := n;
    } else {
      g := RawFrom(goals[..n], fleet, x);
    }
  }

  /** Every action of the plan is one that some goal has for an account of the fleet, with the figures of
      that account and that goal. */
  lemma PlanCarries(goals: seq<Goal>, fleet: Fleet, actions: seq<Action>, k: nat) returns (g: nat, a: Snapshot)
    requires IsMerge(RawPlan(goals, fleet), actions) && k < |actions|
    ensures g < |goals| && a in fleet && Carries(actions[k], goals[g], fleet, a)
  {
    hide RawPlan, GoalPlan, FirstSeen, Winner, For, RetireAt, Carries;
    var raw := RawPlan(goals, fleet);
    var i := WinnerMeans(raw, FirstSeen(raw)[k]);
    WinnerInRange(raw, i, FirstSeen(raw)[k]);
    g := RawFrom(goals, fleet, raw[i]);
    var j :| 0 <= j < |GoalPlan(goals[g], fleet)| && GoalPlan(goals[g], fleet)[j] == raw[i];
    a := GoalCarries(goals[g], fleet, j);
  }

  lemma WinnerInRange(raw: seq<Action>, i: nat, id: int)
    requires For(raw, i, id)
    ensures i < |raw|
  {
  }
}
