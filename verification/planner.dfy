/** The autopilot planner (core/autopilot/planner.py): from goals and a snapshot of the fleet to a list
    of actions.  Risks are exact reals. */
module Planner {
  import opened Wrappers
  import opened AccountMachine

  datatype Snapshot = Snapshot(accountId: int, status: Status, banRisk: real, warmingProfile: Option<string>)

  datatype GoalType = MaintainPoolSize | KeepLowRisk | WarmupPipeline | OtherGoal(name: string)

  datatype Goal = Goal(goalId: int, goalType: GoalType, target: Option<int>, maxRisk: Option<real>)

  datatype ActionType = StartWarming | RetireRisky | Throttle

  datatype Details =
    | Supply(target: int, current: int)
    | Risk(banRisk: real, averageRisk: real)
    | Pace(banRisk: real, fromProfile: Option<string>)

  datatype Action = Action(goalId: int, actionType: ActionType, accountId: Option<int>, details: Details)

  type Fleet = seq<Snapshot>

  const CRITICAL_RISK: real := 0.8
  const HIGH_RISK: real := 0.6
  const MAX_ACTIONS_PER_GOAL: nat := 10

  // ---------------------------------------------------------------- the fleet

  function ByStatus(fleet: Fleet, status: Status): Fleet {
    if fleet == [] then []
    else ByStatus(fleet[..|fleet| - 1], status) +
         if fleet[|fleet| - 1].status == status then [fleet[|fleet| - 1]] else []
  }

  predicate IsActive(a: Snapshot) {
    a.status in {Pool, Assigned, Warming}
  }

  function Active(fleet: Fleet): Fleet {
    if fleet == [] then []
    else Active(fleet[..|fleet| - 1]) + if IsActive(fleet[|fleet| - 1]) then [fleet[|fleet| - 1]] else []
  }

  function RiskSum(s: Fleet): real {
    if s == [] then 0.0 else RiskSum(s[..|s| - 1]) + s[|s| - 1].banRisk
  }

  /** `average_risk`. */
  function AverageRisk(fleet: Fleet): real {
    var active := Active(fleet);
    if active == [] then 0.0 else RiskSum(active) / |active| as real
  }

  // ---------------------------------------------------------------- sorting

  /** The two sort keys in use: ascending id, descending risk. */
  datatype Key = ById | ByRisk

  function KeyOf(key: Key, a: Snapshot): real {
    match key
    case ById => a.accountId as real
    case ByRisk => -a.banRisk
  }

  function Insert(s: Fleet, a: Snapshot, key: Key): Fleet {
    if s == [] then [a]
    else
      var n := |s| - 1;
      if KeyOf(key, s[n]) <= KeyOf(key, a) then s + [a] else Insert(s[..n], a, key) + [s[n]]
  }

  /** The stable sort that the library's `sorted` provides. */
  function Sorted(s: Fleet, key: Key): Fleet {
    if s == [] then [] else Insert(Sorted(s[..|s| - 1], key), s[|s| - 1], key)
  }

  predicate Ordered(s: Fleet, key: Key) {
    forall i, j :: 0 <= i < j < |s| ==> KeyOf(key, s[i]) <= KeyOf(key, s[j])
  }

  lemma {:induction false} InsertPermutes(s: Fleet, a: Snapshot, key: Key)
    ensures multiset(Insert(s, a, key)) == multiset(s) + multiset{a}
  {
    hide KeyOf;
    if s != [] {
      var n := |s| - 1;
      assert s == s[..n] + [s[n]];
      if !(KeyOf(key, s[n]) <= KeyOf(key, a)) {
        InsertPermutes(s[..n], a, key);
      }
    }
  }

  lemma {:induction false} InsertOrders(s: Fleet, a: Snapshot, key: Key)
    requires Ordered(s, key)
    ensures Ordered(Insert(s, a, key), key)
  {
    hide KeyOf, Ordered;
    if s == [] {
      OneOrdered(a, key);
    } else {
      var n := |s| - 1;
      FrontOrdered(s, key);
      if KeyOf(key, s[n]) <= KeyOf(key, a) {
        AppendOrdered(s, a, key);
      } else {
        InsertOrders(s[..n], a, key);
        InsertPermutes(s[..n], a, key);
        LastIsLargest(Insert(s[..n], a, key), s[..n], a, s[n], key);
      }
    }
  }

  lemma OneOrdered(a: Snapshot, key: Key)
    ensures Ordered([a], key)
  {
  }

  lemma FrontOrdered(s: Fleet, key: Key)
    requires Ordered(s, key) && s != []
    ensures Ordered(s[..|s| - 1], key)
    ensures forall i :: 0 <= i < |s| - 1 ==> KeyOf(key, s[i]) <= KeyOf(key, s[|s| - 1])
  {
    hide KeyOf;
  }

  lemma AppendOrdered(s: Fleet, a: Snapshot, key: Key)
    requires Ordered(s, key) && s != [] && KeyOf(key, s[|s| - 1]) <= KeyOf(key, a)
    ensures Ordered(s + [a], key)
  {
    hide KeyOf;
  }

  lemma LastIsLargest(t: Fleet, front: Fleet, a: Snapshot, last: Snapshot, key: Key)
    requires Ordered(t, key) && multiset(t) == multiset(front) + multiset{a}
    requires KeyOf(key, a) <= KeyOf(key, last)
    requires forall i :: 0 <= i < |front| ==> KeyOf(key, front[i]) <= KeyOf(key, last)
    ensures Ordered(t + [last], key)
  {
    forall i | 0 <= i < |t|
      ensures KeyOf(key, t[i]) <= KeyOf(key, last)
    {
      assert t[i] in multiset(t);
    }
  }

  /** Sorting permutes and orders. */
  lemma {:induction false} SortedMeans(s: Fleet, key: Key)
    ensures multiset(Sorted(s, key)) == multiset(s)
    ensures Ordered(Sorted(s, key), key)
  {
    hide KeyOf, Insert;
    if s != [] {
      assert s == s[..|s| - 1] + [s[|s| - 1]];
      SortedMeans(s[..|s| - 1], key);
      InsertPermutes(Sorted(s[..|s| - 1], key), s[|s| - 1], key);
      InsertOrders(Sorted(s[..|s| - 1], key), s[|s| - 1], key);
    }
  }

  /** The elements with a given key, in order. */
  function Ties(s: Fleet, key: Key, v: real): Fleet {
    if s == [] then []
    else Ties(s[..|s| - 1], key, v) + if KeyOf(key, s[|s| - 1]) == v then [s[|s| - 1]] else []
  }

  lemma TiesSnoc(s: Fleet, a: Snapshot, key: Key, v: real)
    ensures Ties(s + [a], key, v) == Ties(s, key, v) + if KeyOf(key, a) == v then [a] else []
  {
    assert (s + [a])[..|s|] == s;
  }

  lemma {:induction false} NoTiesAbove(s: Fleet, key: Key, v: real)
    requires forall i :: 0 <= i < |s| ==> KeyOf(key, s[i]) != v
    ensures Ties(s, key, v) == []
  {
    if s != [] {
      NoTiesAbove(s[..|s| - 1], key, v);
    }
  }

  lemma {:induction false} InsertStable(s: Fleet, a: Snapshot, key: Key, v: real)
    ensures Ties(Insert(s, a, key), key, v) == Ties(s, key, v) + if KeyOf(key, a) == v then [a] else []
  {
    hide KeyOf;
    if s == [] {
      TiesSnoc([], a, key, v);
      assert [] + [a] == [a];
    } else {
      var n := |s| - 1;
      if KeyOf(key, s[n]) <= KeyOf(key, a) {
        TiesSnoc(s, a, key, v);
      } else {
        InsertStable(s[..n], a, key, v);
        TiesSnoc(Insert(s[..n], a, key), s[n], key, v);
      }
    }
  }

  /** Sorting keeps the order of elements with equal keys. */
  lemma {:induction false} SortedStable(s: Fleet, key: Key, v: real)
    ensures Ties(Sorted(s, key), key, v) == Ties(s, key, v)
  {
    hide KeyOf, Insert;
    if s != [] {
      SortedStable(s[..|s| - 1], key, v);
      InsertStable(Sorted(s[..|s| - 1], key), s[|s| - 1], key, v);
    }
  }

  // ---------------------------------------------------------------- the three goals

  function Min(a: int, b: int): int {
    if a < b then a else b
  }

  function Prefix(s: Fleet, n: nat): Fleet {
    s[..Min(n, |s|)]
  }

  /** `created` accounts, lowest id first. */
  function Candidates(fleet: Fleet): Fleet {
    Sorted(ByStatus(fleet, Created), ById)
  }

  /** How many accounts a pool-size or pipeline goal sees as already supplied. */
  function SupplyFor(goal: Goal, fleet: Fleet): int {
    match goal.goalType
    case MaintainPoolSize => |ByStatus(fleet, Pool)| + |ByStatus(fleet, Warming)|
    case WarmupPipeline => |ByStatus(fleet, Warming)|
    case _ => 0
  }

  function TargetOf(goal: Goal): int {
    if goal.target.Some? then goal.target.value else 0
  }

  function Start(goal: Goal, fleet: Fleet, a: Snapshot): Action {
    Action(goal.goalId, StartWarming, Some(a.accountId), Supply(TargetOf(goal), SupplyFor(goal, fleet)))
  }

  function Starts(goal: Goal, fleet: Fleet, s: Fleet): (r: seq<Action>)
    ensures |r| == |s| && forall k :: 0 <= k < |s| ==> r[k] == Start(goal, fleet, s[k])
  {
    if s == [] then [] else Starts(goal, fleet, s[..|s| - 1]) + [Start(goal, fleet, s[|s| - 1])]
  }

  /** `_plan_maintain_pool_size`. */
  function PlanMaintainPoolSize(goal: Goal, fleet: Fleet): seq<Action>
    requires goal.goalType == MaintainPoolSize
  {
    var target := TargetOf(goal);
    if target <= 0 then []
    else
      var supplyInProgress := |ByStatus(fleet, Pool)| + |ByStatus(fleet, Warming)|;
      var deficit := target - supplyInProgress;
      if deficit <= 0 then []
      else
        var candidates := Candidates(fleet);
        var take := Min(Min(deficit, |candidates|), MAX_ACTIONS_PER_GOAL);
        Starts(goal, fleet, candidates[..take])
  }

  /** `_plan_warmup_pipeline`. */
  function PlanWarmupPipeline(goal: Goal, fleet: Fleet): seq<Action>
    requires goal.goalType == WarmupPipeline
  {
    var target := TargetOf(goal);
    if target <= 0 then []
    else
      var deficit := target - |ByStatus(fleet, Warming)|;
      if deficit <= 0 then []
      else
        var candidates := Candidates(fleet);
        var take := Min(Min(deficit, |candidates|), MAX_ACTIONS_PER_GOAL);
        Starts(goal, fleet, candidates[..take])
  }

  /** Accounts of critical risk, whatever their status. */
  function Critical(fleet: Fleet): Fleet {
    if fleet == [] then []
    else
      var a := fleet[|fleet| - 1];
      Critical(fleet[..|fleet| - 1]) + if a.banRisk >= CRITICAL_RISK then [a] else []
  }

  /** Accounts of high but not critical risk that are not at minimal pace yet. */
  function High(fleet: Fleet): Fleet {
    if fleet == [] then []
    else
      var a := fleet[|fleet| - 1];
      High(fleet[..|fleet| - 1]) +
      if HIGH_RISK <= a.banRisk < CRITICAL_RISK && a.warmingProfile != Some("minimal") then [a] else []
  }

  function MaxRisk(goal: Goal): real {
    if goal.maxRisk.Some? then goal.maxRisk.value else 0.3
  }

  predicate Fires(goal: Goal, fleet: Fleet) {
    goal.goalType == KeepLowRisk && AverageRisk(fleet) > MaxRisk(goal)
  }

  /** The accounts a risk goal retires when it fires. */
  function Riskiest(fleet: Fleet): Fleet {
    Prefix(Sorted(Critical(fleet), ByRisk), MAX_ACTIONS_PER_GOAL)
  }

  /** The accounts it slows down: whatever room the retirements leave. */
  function Slowed(fleet: Fleet): Fleet {
    Prefix(Sorted(High(fleet), ByRisk), MAX_ACTIONS_PER_GOAL - |Riskiest(fleet)|)
  }

  function RetireOf(goal: Goal, fleet: Fleet, a: Snapshot): Action {
    Action(goal.goalId, RetireRisky, Some(a.accountId), Risk(a.banRisk, AverageRisk(fleet)))
  }

  function ThrottleOf(goal: Goal, a: Snapshot): Action {
    Action(goal.goalId, Throttle, Some(a.accountId), Pace(a.banRisk, a.warmingProfile))
  }

  function Retires(goal: Goal, fleet: Fleet, s: Fleet): (r: seq<Action>)
    ensures |r| == |s| && forall k :: 0 <= k < |s| ==> r[k] == RetireOf(goal, fleet, s[k])
  {
    if s == [] then [] else Retires(goal, fleet, s[..|s| - 1]) + [RetireOf(goal, fleet, s[|s| - 1])]
  }

  function Throttles(goal: Goal, s: Fleet): (r: seq<Action>)
    ensures |r| == |s| && forall k :: 0 <= k < |s| ==> r[k] == ThrottleOf(goal, s[k])
  {
    if s == [] then [] else Throttles(goal, s[..|s| - 1]) + [ThrottleOf(goal, s[|s| - 1])]
  }

  /** `_plan_keep_low_risk`: it retires the riskiest and slows the next, when the average is too high. */
  method PlanKeepLowRisk(goal: Goal, fleet: Fleet) returns (actions: seq<Action>)
    ensures AverageRisk(fleet) <= MaxRisk(goal) ==> actions == []
    ensures AverageRisk(fleet) > MaxRisk(goal) ==>
              actions == Retires(goal, fleet, Riskiest(fleet)) + Throttles(goal, Slowed(fleet))
  {
    hide AverageRisk, MaxRisk, Critical, High, Sorted;
    if AverageRisk(fleet) <= MaxRisk(goal) {
      return [];
    }
    actions := [];
    var critical := Sorted(Critical(fleet), ByRisk);
    for k := 0 to Min(MAX_ACTIONS_PER_GOAL, |critical|)
      invariant actions == Retires(goal, fleet, critical[..k])
    {
      assert critical[..k + 1][..k] == critical[..k];
      actions := actions + [RetireOf(goal, fleet, critical[k])];
    }
    var remaining := MAX_ACTIONS_PER_GOAL - |actions|;
    assert actions == Retires(goal, fleet, Riskiest(fleet));
    if remaining <= 0 {
      assert Slowed(fleet) == [];
      return actions + [];
    }
    var high := Sorted(High(fleet), ByRisk);
    ghost var retired := actions;
    for k := 0 to Min(remaining, |high|)
      invariant actions == retired + Throttles(goal, high[..k])
    {
      assert high[..k + 1][..k] == high[..k];
      actions := actions + [ThrottleOf(goal, high[k])];
    }
  }

  /** What one goal asks for. */
  function GoalPlan(goal: Goal, fleet: Fleet): seq<Action> {
    match goal.goalType
    case MaintainPoolSize => PlanMaintainPoolSize(goal, fleet)
    case WarmupPipeline => PlanWarmupPipeline(goal, fleet)
    case KeepLowRisk =>
      if Fires(goal, fleet) then Retires(goal, fleet, Riskiest(fleet)) + Throttles(goal, Slowed(fleet)) else []
    case OtherGoal(_) => []
  }

  // ---------------------------------------------------------------- the merge

  /** The actions of all goals, in order. */
  function RawPlan(goals: seq<Goal>, fleet: Fleet): seq<Action> {
    if goals == [] then []
    else RawPlan(goals[..|goals| - 1], fleet) + GoalPlan(goals[|goals| - 1], fleet)
  }

  /** The accounts in order of first appearance. */
  function FirstSeen(raw: seq<Action>): seq<int> {
    if raw == [] then []
    else
      var front := FirstSeen(raw[..|raw| - 1]);
      var a := raw[|raw| - 1].accountId;
      if a.None? || a.value in front then front else front + [a.value]
  }

  /** The action an account is left with. */
  function Winner(raw: seq<Action>, id: int): Option<Action> {
    if raw == [] then None
    else
      var front := Winner(raw[..|raw| - 1], id);
      var a := raw[|raw| - 1];
      if a.accountId != Some(id) then front
      else if front.None? || a.actionType == RetireRisky then Some(a)
      else front
  }

  /** Each account in order of first appearance, with the action it is left with. */
  predicate IsMerge(raw: seq<Action>, actions: seq<Action>) {
    && |actions| == |FirstSeen(raw)|
    && forall k :: 0 <= k < |actions| ==> Winner(raw, FirstSeen(raw)[k]) == Some(actions[k])
  }

  /** `plan`. */
  method Plan(goals: seq<Goal>, fleet: Fleet) returns (actions: seq<Action>)
    ensures IsMerge(RawPlan(goals, fleet), actions)
  {
    hide Fires, Riskiest, Slowed, Retires, Throttles, Starts, PlanMaintainPoolSize, PlanWarmupPipeline;
    var raw: seq<Action> := [];
    for k := 0 to |goals|
      invariant raw == RawPlan(goals[..k], fleet)
    {
      assert goals[..k + 1][..k] == goals[..k];
      var planned: seq<Action> := [];
      match goals[k].goalType {
        case MaintainPoolSize => planned := PlanMaintainPoolSize(goals[k], fleet);
        case WarmupPipeline => planned := PlanWarmupPipeline(goals[k], fleet);
        case KeepLowRisk =>
          planned := PlanKeepLowRisk(goals[k], fleet);
          FiresMeans(goals[k], fleet);
        case OtherGoal(_) =>
      }
      raw := raw + planned;
    }
    assert goals[..|goals|] == goals;

    actions := Merge(raw);
  }

  /** The second half of `plan`; a dictionary keeps its keys in order of insertion. */
  method Merge(raw: seq<Action>) returns (actions: seq<Action>)
    ensures IsMerge(raw, actions)
  {
    var order: seq<int> := [];
    var seen: map<int, Action> := map[];
    for k := 0 to |raw|
      invariant order == FirstSeen(raw[..k])
      invariant forall j :: 0 <= j < |order| ==> order[j] in seen
      invariant forall id :: id in seen ==> id in order
      invariant forall id :: Winner(raw[..k], id) == if id in seen then Some(seen[id]) else None
    {
      assert raw[..k + 1][..k] == raw[..k];
      var action := raw[k];
      if action.accountId.Some? {
        var id := action.accountId.value;
        if id !in seen {
          seen := seen[id := action];
          order := order + [id];
        } else if action.actionType == RetireRisky {
          seen := seen[id := action];
        }
      }
    }
    assert raw[..|raw|] == raw;
    actions := seq(|order|, k requires 0 <= k < |order| && order[k] in seen => seen[order[k]]);
  }

  lemma FiresMeans(goal: Goal, fleet: Fleet)
    ensures Fires(goal, fleet) <==> goal.goalType == KeepLowRisk && AverageRisk(fleet) > MaxRisk(goal)
  {
  }

  // ---------------------------------------------------------------- what the merge means

  /** Action i is one for the account. */
  predicate For(raw: seq<Action>, i: int, id: int) {
    0 <= i < |raw| && raw[i].accountId == Some(id)
  }

  predicate RetireAt(raw: seq<Action>, i: int, id: int) {
    For(raw, i, id) && raw[i].actionType == RetireRisky
  }

  /** The merge's choice for an account: its last retirement if it has one, else its first action. */
  lemma {:induction false} WinnerMeans(raw: seq<Action>, id: int) returns (i: nat)
    ensures Winner(raw, id).None? ==> forall j :: !For(raw, j, id)
    ensures Winner(raw, id).Some? ==>
              && For(raw, i, id) && raw[i] == Winner(raw, id).value
              && if raw[i].actionType == RetireRisky then forall j :: i < j ==> !RetireAt(raw, j, id)
                 else forall j :: (0 <= j < i ==> !For(raw, j, id)) && !RetireAt(raw, j, id)
  {
    if raw == [] {
      i := 0;
    } else {
      var n := |raw| - 1;
      i := WinnerMeans(raw[..n], id);
      FrontActions(raw, id);
      if raw[n].accountId == Some(id) && (Winner(raw[..n], id).None? || raw[n].actionType == RetireRisky) {
        i := n;
      }
    }
  }

  lemma FrontActions(raw: seq<Action>, id: int)
    requires raw != []
    ensures forall i :: i < |raw| - 1 ==> (For(raw, i, id) <==> For(raw[..|raw| - 1], i, id))
    ensures forall i :: i < |raw| - 1 ==> (RetireAt(raw, i, id) <==> RetireAt(raw[..|raw| - 1], i, id))
    ensures forall i :: i >= |raw| ==> !For(raw, i, id) && !RetireAt(raw, i, id)
    ensures forall i :: For(raw[..|raw| - 1], i, id) ==> For(raw, i, id)
    ensures forall i :: RetireAt(raw[..|raw| - 1], i, id) ==> RetireAt(raw, i, id)
  {
  }

  /** The position of the first action for an account; the length when there is none. */
  function FirstAt(raw: seq<Action>, id: int): (i: nat)
    ensures i <= |raw| && (i < |raw| ==> For(raw, i, id))
    ensures forall j :: j < i ==> !For(raw, j, id)
  {
    if raw == [] then 0
    else
      var n := |raw| - 1;
      var i := FirstAt(raw[..n], id);
      FrontActions(raw, id);
      if i < n then i else if raw[n].accountId == Some(id) then n else n + 1
  }

  /** The accounts of the plan are those with an action, */
  lemma {:induction false} FirstSeenMembers(raw: seq<Action>, id: int)
    ensures id in FirstSeen(raw) <==> FirstAt(raw, id) < |raw|
  {
    if raw != [] {
      FirstSeenMembers(raw[..|raw| - 1], id);
    }
  }

  /** in the order of their first actions, and so without repetition. */
  lemma {:induction false} FirstSeenOrder(raw: seq<Action>, k: nat, l: nat)
    requires k < l < |FirstSeen(raw)|
    ensures FirstAt(raw, FirstSeen(raw)[k]) < FirstAt(raw, FirstSeen(raw)[l])
  {
    hide For;
    var front := raw[..|raw| - 1];
    assert FirstSeen(raw)[k] == FirstSeen(front)[k] && FirstSeen(front)[k] in FirstSeen(front);
    FirstSeenMembers(front, FirstSeen(front)[k]);
    if l < |FirstSeen(front)| {
      FirstSeenOrder(front, k, l);
      assert FirstSeen(front)[l] in FirstSeen(front);
      FirstSeenMembers(front, FirstSeen(front)[l]);
    } else {
      FirstSeenMembers(front, FirstSeen(raw)[l]);
    }
  }

  // ---------------------------------------------------------------- what each goal wants of an account

  function Ids(s: Fleet): set<int> {
    set k | 0 <= k < |s| :: s[k].accountId
  }

  /** The length of the prefix of the candidates that a goal starts warming. */
  function Take(goal: Goal, fleet: Fleet): nat {
    var deficit := TargetOf(goal) - SupplyFor(goal, fleet);
    if !(goal.goalType in {MaintainPoolSize, WarmupPipeline}) || deficit <= 0 then 0
    else Min(deficit, MAX_ACTIONS_PER_GOAL)
  }

  /** The one action type a goal settles on for an account. */
  function Want(goal: Goal, fleet: Fleet, id: int): Option<ActionType> {
    if Fires(goal, fleet) then
      if id in Ids(Riskiest(fleet)) then Some(RetireRisky)
      else if id in Ids(Slowed(fleet)) then Some(Throttle)
      else None
    else if id in Ids(Prefix(Candidates(fleet), Take(goal, fleet))) then Some(StartWarming)
    else None
  }

  lemma StartingGoals(goal: Goal, fleet: Fleet)
    ensures !Fires(goal, fleet) ==>
              GoalPlan(goal, fleet) == Starts(goal, fleet, Prefix(Candidates(fleet), Take(goal, fleet)))
    ensures Fires(goal, fleet) ==>
              GoalPlan(goal, fleet) == Retires(goal, fleet, Riskiest(fleet)) + Throttles(goal, Slowed(fleet))
    ensures |GoalPlan(goal, fleet)| <= MAX_ACTIONS_PER_GOAL
  {
    hide AverageRisk, MaxRisk, Candidates, ByStatus, Sorted, Critical, High;
  }

  function TypeOf(a: Option<Action>): Option<ActionType> {
    if a.Some? then Some(a.value.actionType) else None
  }

  /** How the wishes of earlier and later goals combine. */
  function Combined(x: Option<ActionType>, y: Option<ActionType>): Option<ActionType> {
    if x.None? || y == Some(RetireRisky) then y else x
  }

  lemma {:induction false} WinnerConcat(a: seq<Action>, b: seq<Action>, id: int)
    ensures TypeOf(Winner(a + b, id)) ==
            if Winner(b, id).None? then TypeOf(Winner(a, id))
            else Combined(TypeOf(Winner(a, id)), TypeOf(Winner(b, id)))
  {
    if b == [] {
      assert a + b == a;
    } else {
      var n := |b| - 1;
      WinnerConcat(a, b[..n], id);
      assert (a + b)[..|a + b| - 1] == a + b[..n];
    }
  }

  /** All the actions have one type, and cover exactly these accounts. */
  predicate AllOf(actions: seq<Action>, s: Fleet, t: ActionType) {
    |actions| == |s| &&
    forall k :: 0 <= k < |s| ==> actions[k].accountId == Some(s[k].accountId) && actions[k].actionType == t
  }

  lemma {:induction false} WinnerOfUniform(actions: seq<Action>, s: Fleet, t: ActionType, id: int)
    requires AllOf(actions, s, t)
    ensures TypeOf(Winner(actions, id)) == if id in Ids(s) then Some(t) else None
  {
    if actions != [] {
      var n := |s| - 1;
      WinnerOfUniform(actions[..n], s[..n], t, id);
      IdsSnoc(s);
    }
  }

  lemma IdsSnoc(s: Fleet)
    requires s != []
    ensures Ids(s) == Ids(s[..|s| - 1]) + {s[|s| - 1].accountId}
  {
    var front := s[..|s| - 1];
    forall id
      ensures id in Ids(s) <==> id in Ids(front) + {s[|s| - 1].accountId}
    {
      if k :| 0 <= k < |s| && s[k].accountId == id {
        if k < |s| - 1 {
          assert front[k].accountId == id;
        }
      }
      if k :| 0 <= k < |front| && front[k].accountId == id {
        assert s[k].accountId == id;
      }
    }
  }

  lemma WinnerOfGoal(goal: Goal, fleet: Fleet, id: int)
    ensures TypeOf(Winner(GoalPlan(goal, fleet), id)) == Want(goal, fleet, id)
  {
    hide Fires, Candidates, Riskiest, Slowed, Ids, Winner, GoalPlan, Take, Prefix;
    StartingGoals(goal, fleet);
    if Fires(goal, fleet) {
      var r, t := Retires(goal, fleet, Riskiest(fleet)), Throttles(goal, Slowed(fleet));
      WinnerOfUniform(r, Riskiest(fleet), RetireRisky, id);
      WinnerOfUniform(t, Slowed(fleet), Throttle, id);
      WinnerConcat(r, t, id);
    } else {
      var c := Prefix(Candidates(fleet), Take(goal, fleet));
      WinnerOfUniform(Starts(goal, fleet, c), c, StartWarming, id);
    }
  }

  /** The outcome of the plan for an account, from the wishes of the goals. */
  function Outcome(goals: seq<Goal>, fleet: Fleet, id: int): Option<ActionType> {
    TypeOf(Winner(RawPlan(goals, fleet), id))
  }

  lemma OutcomeSnoc(goals: seq<Goal>, fleet: Fleet, id: int)
    requires goals != []
    ensures var x, y := Outcome(goals[..|goals| - 1], fleet, id), Want(goals[|goals| - 1], fleet, id);
            Outcome(goals, fleet, id) == if y.None? then x else Combined(x, y)
  {
    hide Want, GoalPlan, Winner;
    WinnerOfGoal(goals[|goals| - 1], fleet, id);
    WinnerConcat(RawPlan(goals[..|goals| - 1], fleet), GoalPlan(goals[|goals| - 1], fleet), id);
  }

  predicate Wants(goals: seq<Goal>, fleet: Fleet, g: int, id: int, t: ActionType) {
    0 <= g < |goals| && Want(goals[g], fleet, id) == Some(t)
  }

  lemma FrontWants(goals: seq<Goal>, front: seq<Goal>, last: Goal, fleet: Fleet, id: int, t: ActionType)
    requires goals == front + [last]
    ensures forall g :: Wants(front, fleet, g, id, t) ==> Wants(goals, fleet, g, id, t)
    ensures forall g :: Wants(goals, fleet, g, id, t) ==>
              (g == |front| && Want(last, fleet, id) == Some(t)) || (g < |front| && Wants(front, fleet, g, id, t))
    ensures Want(last, fleet, id) == Some(t) ==> Wants(goals, fleet, |front|, id, t)
  {
    hide Want;
  }

  /** An account is retired by the plan exactly when some goal retires it: a retirement always
      survives the merge. */
  lemma {:induction false} RetireSurvives(goals: seq<Goal>, fleet: Fleet, id: int)
    ensures Outcome(goals, fleet, id) == Some(RetireRisky) <==> exists g :: Wants(goals, fleet, g, id, RetireRisky)
  {
    hide Want, Outcome;
    if goals == [] {
      EmptyOutcome(fleet, id);
    } else {
      var front, last := goals[..|goals| - 1], goals[|goals| - 1];
      assert goals == front + [last];
      RetireSurvives(front, fleet, id);
      OutcomeSnoc(goals, fleet, id);
      FrontWants(goals, front, last, fleet, id, RetireRisky);
    }
  }

  lemma EmptyOutcome(fleet: Fleet, id: int)
    ensures Outcome([], fleet, id) == None
  {
  }

  /** Goal g starts warming the account, and no goal before it throttles it. */
  predicate StartsUnthrottled(goals: seq<Goal>, fleet: Fleet, g: int, id: int) {
    Wants(goals, fleet, g, id, StartWarming) && forall h :: 0 <= h < g ==> !Wants(goals, fleet, h, id, Throttle)
  }

  /** The plan's action for an account is one that some goal wants, and it has one if any goal does. */
  lemma {:induction false} OutcomeIsWanted(goals: seq<Goal>, fleet: Fleet, id: int, t: ActionType)
    ensures Outcome(goals, fleet, id) == Some(t) ==> exists g :: Wants(goals, fleet, g, id, t)
    ensures (exists g :: Wants(goals, fleet, g, id, t)) ==> Outcome(goals, fleet, id).Some?
  {
    hide Want, Outcome;
    if goals == [] {
      EmptyOutcome(fleet, id);
    } else {
      var front, last := goals[..|goals| - 1], goals[|goals| - 1];
      assert goals == front + [last];
      OutcomeIsWanted(front, fleet, id, t);
      OutcomeSnoc(goals, fleet, id);
      FrontWants(goals, front, last, fleet, id, t);
    }
  }

  lemma UnthrottledSnoc(goals: seq<Goal>, front: seq<Goal>, last: Goal, fleet: Fleet, id: int)
    requires goals == front + [last]
    ensures (exists g :: StartsUnthrottled(goals, fleet, g, id)) <==>
              (exists g :: StartsUnthrottled(front, fleet, g, id)) ||
              (Want(last, fleet, id) == Some(StartWarming) && !exists h :: Wants(front, fleet, h, id, Throttle))
  {
    hide Want;
    FrontWants(goals, front, last, fleet, id, StartWarming);
    FrontWants(goals, front, last, fleet, id, Throttle);
    if g :| StartsUnthrottled(goals, fleet, g, id) {
      if g < |front| {
        assert StartsUnthrottled(front, fleet, g, id);
      }
    }
    if g :| StartsUnthrottled(front, fleet, g, id) {
      assert StartsUnthrottled(goals, fleet, g, id);
    }
    if Want(last, fleet, id) == Some(StartWarming) && !exists h :: Wants(front, fleet, h, id, Throttle) {
      assert StartsUnthrottled(goals, fleet, |front|, id);
    }
  }

  /** An account is started exactly when some goal starts it that no throttling goal precedes, and no
      goal at all retires it. */
  lemma {:induction false} StartWarmingExact(goals: seq<Goal>, fleet: Fleet, id: int)
    ensures Outcome(goals, fleet, id) == Some(StartWarming) <==>
              (exists g :: StartsUnthrottled(goals, fleet, g, id)) &&
              !exists g :: Wants(goals, fleet, g, id, RetireRisky)
  {
    hide Want, Outcome, StartsUnthrottled;
    if goals == [] {
      EmptyOutcome(fleet, id);
      NothingStarts(fleet, id);
    } else {
      var front, last := goals[..|goals| - 1], goals[|goals| - 1];
      assert goals == front + [last];
      StartWarmingExact(front, fleet, id);
      RetireSurvives(front, fleet, id);
      OutcomeIsWanted(front, fleet, id, StartWarming);
      OutcomeIsWanted(front, fleet, id, Throttle);
      StartIsWanted(front, fleet, id);
      OutcomeSnoc(goals, fleet, id);
      RetireSurvives(goals, fleet, id);
      UnthrottledSnoc(goals, front, last, fleet, id);
      AnyType(Outcome(front, fleet, id));
    }
  }

  lemma AnyType(x: Option<ActionType>)
    ensures x in {None, Some(StartWarming), Some(RetireRisky), Some(Throttle)}
  {
    match x
    case None =>
    case Some(t) =>
      match t {
        case StartWarming =>
        case RetireRisky =>
        case Throttle =>
      }
  }

  lemma NothingStarts(fleet: Fleet, id: int)
    ensures !exists g :: StartsUnthrottled([], fleet, g, id)
  {
  }

  lemma StartIsWanted(goals: seq<Goal>, fleet: Fleet, id: int)
    ensures (exists g :: StartsUnthrottled(goals, fleet, g, id)) ==>
              exists g :: Wants(goals, fleet, g, id, StartWarming)
  {
  }

  /** The longest prefix of candidates that any of the goals takes. */
  function MaxTake(goals: seq<Goal>, fleet: Fleet): nat {
    if goals == [] then 0
    else
      var front := MaxTake(goals[..|goals| - 1], fleet);
      var last := goals[|goals| - 1];
      if Fires(last, fleet) || Take(last, fleet) <= front then front else Take(last, fleet)
  }

  lemma PrefixIds(s: Fleet, n: nat, m: nat)
    requires n <= m
    ensures Ids(Prefix(s, n)) <= Ids(Prefix(s, m))
  {
    forall id | id in Ids(Prefix(s, n))
      ensures id in Ids(Prefix(s, m))
    {
      var k :| 0 <= k < |Prefix(s, n)| && Prefix(s, n)[k].accountId == id;
      assert Prefix(s, m)[k].accountId == id;
    }
  }

  /** The accounts that some goal starts are the lowest-id prefix of the `created` ones, as long as
      the largest take over all the goals. */
  lemma {:induction false} StartedArePrefix(goals: seq<Goal>, fleet: Fleet, id: int)
    ensures (exists g :: Wants(goals, fleet, g, id, StartWarming)) <==>
            id in Ids(Prefix(Candidates(fleet), MaxTake(goals, fleet)))
  {
    hide Candidates, Ids, Fires, Take, Riskiest, Slowed, Prefix, Wants;
    if goals == [] {
      NoPrefix(Candidates(fleet));
      NothingWanted(fleet, id);
    } else {
      var front, last := goals[..|goals| - 1], goals[|goals| - 1];
      assert goals == front + [last];
      StartedArePrefix(front, fleet, id);
      FrontWants(goals, front, last, fleet, id, StartWarming);
      if Take(last, fleet) <= MaxTake(front, fleet) {
        PrefixIds(Candidates(fleet), Take(last, fleet), MaxTake(front, fleet));
      } else {
        PrefixIds(Candidates(fleet), MaxTake(front, fleet), Take(last, fleet));
      }
    }
  }

  lemma NoPrefix(s: Fleet)
    ensures Ids(Prefix(s, 0)) == {}
  {
  }

  lemma NothingWanted(fleet: Fleet, id: int)
    ensures !exists g :: Wants([], fleet, g, id, StartWarming)
  {
  }

  lemma {:induction false} ByStatusMembers(fleet: Fleet, status: Status, a: Snapshot)
    ensures a in ByStatus(fleet, status) <==> a in fleet && a.status == status
  {
    if fleet != [] {
      assert fleet == fleet[..|fleet| - 1] + [fleet[|fleet| - 1]];
      ByStatusMembers(fleet[..|fleet| - 1], status, a);
    }
  }

  /** The candidates are the `created` accounts, lowest id first. */
  lemma CandidatesMean(fleet: Fleet, a: Snapshot)
    ensures a in Candidates(fleet) <==> a in fleet && a.status == Created
    ensures forall i, j :: 0 <= i < j < |Candidates(fleet)| ==>
              Candidates(fleet)[i].accountId <= Candidates(fleet)[j].accountId
  {
    hide Sorted, ByStatus;
    var created := ByStatus(fleet, Created);
    SortedMeans(created, ById);
    ByStatusMembers(fleet, Created, a);
    assert a in created <==> a in multiset(created);
    assert a in Candidates(fleet) <==> a in multiset(Candidates(fleet));
    forall i, j | 0 <= i < j < |Candidates(fleet)|
      ensures Candidates(fleet)[i].accountId <= Candidates(fleet)[j].accountId
    {
      assert KeyOf(ById, Candidates(fleet)[i]) <= KeyOf(ById, Candidates(fleet)[j]);
    }
  }

  // ---------------------------------------------------------------- a counterexample

  const RISKY_FLEET: Fleet := [Snapshot(1, Pool, 0.9, None), Snapshot(2, Created, 0.7, None)]
  const RISK_THEN_PIPELINE: seq<Goal> :=
    [Goal(1, KeepLowRisk, None, None), Goal(2, WarmupPipeline, Some(1), None)]

  /** A candidate that no goal retires can still miss its start: here the risk goal throttles `created`
      account 2, and the throttle, coming first, displaces the start that the pipeline goal wants. */
  lemma ThrottleDisplacesStart()
    ensures 2 in Ids(Prefix(Candidates(RISKY_FLEET), MaxTake(RISK_THEN_PIPELINE, RISKY_FLEET)))
    ensures !exists g :: Wants(RISK_THEN_PIPELINE, RISKY_FLEET, g, 2, RetireRisky)
    ensures Outcome(RISK_THEN_PIPELINE, RISKY_FLEET, 2) == Some(Throttle)
  {
    hide Wants, Outcome, MaxTake, Want;
    var goals := RISK_THEN_PIPELINE;
    RiskGoalThrottles();
    PipelineGoalStarts();
    assert goals == [goals[0]] + [goals[1]] && [goals[0]] == [] + [goals[0]];
    EmptyOutcome(RISKY_FLEET, 2);
    OutcomeSnoc([goals[0]], RISKY_FLEET, 2);
    OutcomeSnoc(goals, RISKY_FLEET, 2);
    assert goals[..1] == [goals[0]] && [goals[0]][..0] == [];
    RetireSurvives(goals, RISKY_FLEET, 2);
    FrontWants(goals, [goals[0]], goals[1], RISKY_FLEET, 2, StartWarming);
    StartedArePrefix(goals, RISKY_FLEET, 2);
  }

  lemma RiskGoalFires()
    ensures Fires(RISK_THEN_PIPELINE[0], RISKY_FLEET)
  {
    var fleet := RISKY_FLEET;
    var one := fleet[0];
    assert fleet[..1] == [one] && [one][..0] == [];
    assert Active(fleet) == [one] && RiskSum([one]) == 0.9;
  }

  lemma OneSorted(a: Snapshot, key: Key)
    ensures Sorted([a], key) == [a]
  {
    assert [a][..0] == [];
    assert Sorted([], key) == [];
  }

  lemma RiskGoalRetiresOne()
    ensures Riskiest(RISKY_FLEET) == [RISKY_FLEET[0]]
  {
    hide Sorted;
    var fleet := RISKY_FLEET;
    var one := fleet[0];
    assert fleet[..1] == [one] && [one][..0] == [];
    assert Critical([one]) == [one] && Critical(fleet) == [one];
    OneSorted(one, ByRisk);
  }

  lemma RiskGoalSlowsTwo()
    ensures Slowed(RISKY_FLEET) == [RISKY_FLEET[1]]
  {
    hide Sorted, Riskiest;
    RiskGoalRetiresOne();
    var fleet := RISKY_FLEET;
    var one, two := fleet[0], fleet[1];
    assert fleet[..1] == [one] && [one][..0] == [];
    assert High([one]) == [] && High(fleet) == [two];
    OneSorted(two, ByRisk);
  }

  lemma RiskGoalThrottles()
    ensures Want(RISK_THEN_PIPELINE[0], RISKY_FLEET, 2) == Some(Throttle)
  {
    hide Fires, Riskiest, Slowed;
    RiskGoalFires();
    RiskGoalRetiresOne();
    RiskGoalSlowsTwo();
    assert Slowed(RISKY_FLEET)[0].accountId == 2;
  }

  lemma ByStatusSnoc(s: Fleet, a: Snapshot, status: Status)
    ensures ByStatus([], status) == []
    ensures ByStatus(s + [a], status) == ByStatus(s, status) + if a.status == status then [a] else []
  {
    assert (s + [a])[..|s|] == s;
  }

  lemma PipelineGoalStarts()
    ensures Want(RISK_THEN_PIPELINE[1], RISKY_FLEET, 2) == Some(StartWarming)
  {
    var fleet := RISKY_FLEET;
    var one, two := fleet[0], fleet[1];
    hide ByStatus, Sorted;
    assert fleet == [one] + [two] && [one] == [] + [one];
    ByStatusSnoc([], one, Created);
    ByStatusSnoc([one], two, Created);
    ByStatusSnoc([], one, Warming);
    ByStatusSnoc([one], two, Warming);
    assert ByStatus(fleet, Created) == [two] && ByStatus(fleet, Warming) == [];
    OneSorted(two, ById);
    assert Candidates(fleet) == [two];
    assert Take(RISK_THEN_PIPELINE[1], fleet) == 1;
    assert Prefix(Candidates(fleet), 1)[0].accountId == 2;
  }

  // ---------------------------------------------------------------- retiring lowers the risk

  predicate DistinctIds(fleet: Fleet) {
    forall i, j :: 0 <= i < j < |fleet| ==> fleet[i].accountId != fleet[j].accountId
  }

  function Without(fleet: Fleet, ids: set<int>): Fleet {
    if fleet == [] then []
    else
      var a := fleet[|fleet| - 1];
      Without(fleet[..|fleet| - 1], ids) + if a.accountId in ids then [] else [a]
  }

  /** Every account in the set is at least as risky as m, every other at most. */
  predicate Divides(fleet: Fleet, ids: set<int>, m: real) {
    forall i :: 0 <= i < |fleet| ==>
      if fleet[i].accountId in ids then fleet[i].banRisk >= m else fleet[i].banRisk <= m
  }

  lemma ActiveSnoc(s: Fleet, a: Snapshot)
    ensures Active(s + [a]) == Active(s) + if IsActive(a) then [a] else []
    ensures RiskSum(s + [a]) == RiskSum(s) + a.banRisk
  {
    assert (s + [a])[..|s|] == s;
  }

  function Times(m: real, n: int): real {
    m * n as real
  }

  lemma TimesStep(m: real, n: int)
    ensures Times(m, n + 1) == Times(m, n) + m
  {
    assert (n + 1) as real == n as real + 1.0;
  }

  lemma {:induction false} SumsDivide(fleet: Fleet, ids: set<int>, m: real)
    requires Divides(fleet, ids, m)
    ensures var all, kept := Active(fleet), Active(Without(fleet, ids));
            && |kept| <= |all|
            && RiskSum(all) - RiskSum(kept) >= Times(m, |all| - |kept|)
            && RiskSum(kept) <= Times(m, |kept|)
  {
    hide IsActive, Times, RiskSum, Active;
    if fleet == [] {
      NoActive(m);
    } else {
      var front, a := fleet[..|fleet| - 1], fleet[|fleet| - 1];
      assert fleet == front + [a];
      SumsDivide(front, ids, m);
      ActiveSnoc(front, a);
      var all, kept := Active(front), Active(Without(front, ids));
      ActiveSnoc(Without(front, ids), a);
      ActiveSnoc(all, a);
      ActiveSnoc(kept, a);
      assert all + [] == all && kept + [] == kept && Without(front, ids) + [] == Without(front, ids);
      TimesStep(m, |all| - |kept|);
      TimesStep(m, |kept|);
    }
  }

  lemma NoActive(m: real)
    ensures Active([]) == [] && RiskSum([]) == 0.0 && Times(m, 0) == 0.0
  {
  }

  lemma QuotientAtMost(a: real, y: real, m: real)
    requires y > 0.0 && a <= m * y
    ensures a / y <= m
  {
    var q := a / y;
    assert q * y == a;
    if q > m {
      assert (q - m) * y > 0.0;
    }
  }

  lemma QuotientAtLeast(a: real, y: real, m: real)
    requires y > 0.0 && a >= m * y
    ensures a / y >= m
  {
    var q := a / y;
    assert q * y == a;
    if q < m {
      assert (m - q) * y > 0.0;
    }
  }

  /** If the removed part averages at least m and the kept part at most m, the kept part averages no
      more than the whole. */
  lemma MeansDivide(total: real, x: real, kept: real, y: real, m: real)
    requires 0.0 < y <= x
    requires total - kept >= m * (x - y) && kept <= m * y
    ensures kept / y <= total / x
  {
    QuotientAtMost(kept, y, m);
    var mean := kept / y;
    assert mean * y == kept;
    assert mean * (x - y) <= m * (x - y);
    QuotientAtLeast(total, x, mean);
  }

  lemma {:induction false} CriticalMembers(fleet: Fleet, a: Snapshot)
    ensures a in Critical(fleet) <==> a in fleet && a.banRisk >= CRITICAL_RISK
  {
    if fleet != [] {
      assert fleet == fleet[..|fleet| - 1] + [fleet[|fleet| - 1]];
      CriticalMembers(fleet[..|fleet| - 1], a);
    }
  }

  lemma RankedMember(fleet: Fleet, a: Snapshot)
    ensures a in Sorted(Critical(fleet), ByRisk) <==> a in fleet && a.banRisk >= CRITICAL_RISK
  {
    hide Sorted, Critical;
    var ranked := Sorted(Critical(fleet), ByRisk);
    SortedMeans(Critical(fleet), ByRisk);
    CriticalMembers(fleet, a);
    assert a in ranked <==> a in multiset(ranked);
    assert a in Critical(fleet) <==> a in multiset(Critical(fleet));
  }

  lemma IdAt(s: Fleet, id: int) returns (p: nat)
    requires id in Ids(s)
    ensures p < |s| && s[p].accountId == id
  {
    p :| 0 <= p < |s| && s[p].accountId == id;
  }

  lemma IdIn(s: Fleet, p: nat)
    requires p < |s|
    ensures s[p].accountId in Ids(s)
  {
  }

  /** The retired accounts are a top segment by risk: none that stays is riskier than one that goes. */
  lemma RetiredAreRiskiest(fleet: Fleet, i: nat, j: nat)
    requires DistinctIds(fleet) && i < |fleet| && j < |fleet|
    requires fleet[i].accountId in Ids(Riskiest(fleet)) && fleet[j].accountId !in Ids(Riskiest(fleet))
    ensures fleet[i].banRisk >= fleet[j].banRisk
    ensures fleet[i].banRisk >= CRITICAL_RISK
  {
    hide Sorted, Critical, DistinctIds, Ids;
    var ranked := Sorted(Critical(fleet), ByRisk);
    var top := Riskiest(fleet);
    SortedMeans(Critical(fleet), ByRisk);
    var p := IdAt(top, fleet[i].accountId);
    RankedMember(fleet, ranked[p]);
    SameAccount(fleet, ranked[p], i);
    assert ranked[p] == fleet[i];
    if fleet[j].banRisk >= CRITICAL_RISK {
      RankedMember(fleet, fleet[j]);
      var q :| 0 <= q < |ranked| && ranked[q] == fleet[j];
      if q < |top| {
        IdIn(top, q);
      }
      assert KeyOf(ByRisk, ranked[p]) <= KeyOf(ByRisk, ranked[q]);
    }
  }

  lemma SameIndex(fleet: Fleet, i: nat, k: nat)
    requires DistinctIds(fleet) && i < |fleet| && k < |fleet| && fleet[i].accountId == fleet[k].accountId
    ensures i == k
  {
  }

  lemma SameAccount(fleet: Fleet, a: Snapshot, i: nat)
    requires DistinctIds(fleet) && a in fleet && i < |fleet| && a.accountId == fleet[i].accountId
    ensures a == fleet[i]
  {
    hide DistinctIds;
    var k :| 0 <= k < |fleet| && fleet[k] == a;
    SameIndex(fleet, i, k);
  }

  lemma {:induction false} HighMembers(fleet: Fleet, a: Snapshot)
    ensures a in High(fleet) <==>
              a in fleet && HIGH_RISK <= a.banRisk < CRITICAL_RISK && a.warmingProfile != Some("minimal")
  {
    if fleet != [] {
      assert fleet == fleet[..|fleet| - 1] + [fleet[|fleet| - 1]];
      HighMembers(fleet[..|fleet| - 1], a);
    }
  }

  /** Of a list ranked by risk, what a prefix leaves out is no riskier than what it takes, and a prefix
      leaves something out only when it is full. */
  lemma TopMeans(s: Fleet, n: nat, a: Snapshot, b: Snapshot)
    ensures var top := Prefix(Sorted(s, ByRisk), n);
            && (a in top ==> a in s)
            && (b in s && b !in top ==> |top| == n && (a in top ==> a.banRisk >= b.banRisk))
  {
    hide Sorted;
    var ranked := Sorted(s, ByRisk);
    var top := Prefix(ranked, n);
    SortedMeans(s, ByRisk);
    assert a in s <==> a in multiset(s);
    assert b in s <==> b in multiset(s);
    assert forall i :: 0 <= i < |top| ==> top[i] == ranked[i];
    if b in s && b !in top {
      assert b in multiset(ranked);
      var q :| 0 <= q < |ranked| && ranked[q] == b;
      if a in top {
        var p :| 0 <= p < |top| && top[p] == a;
        assert KeyOf(ByRisk, ranked[p]) <= KeyOf(ByRisk, ranked[q]);
      }
    }
    if a in top {
      var p :| 0 <= p < |top| && top[p] == a;
      assert ranked[p] == a && a in multiset(ranked);
    }
  }

  /** A throttled account is one of high but not critical risk that is not at minimal pace; such an
      account is passed over only when the ten actions are used up by accounts no less risky. */
  lemma ThrottledMeans(fleet: Fleet, a: Snapshot, b: Snapshot)
    ensures a in Slowed(fleet) ==>
              a in fleet && HIGH_RISK <= a.banRisk < CRITICAL_RISK && a.warmingProfile != Some("minimal")
    ensures b in fleet && HIGH_RISK <= b.banRisk < CRITICAL_RISK && b.warmingProfile != Some("minimal") &&
            b !in Slowed(fleet) ==>
              && |Riskiest(fleet)| + |Slowed(fleet)| == MAX_ACTIONS_PER_GOAL
              && (a in Slowed(fleet) ==> a.banRisk >= b.banRisk)
  {
    hide Sorted, High, Riskiest, Prefix;
    RiskiestFits(fleet);
    HighMembers(fleet, a);
    HighMembers(fleet, b);
    TopMeans(High(fleet), MAX_ACTIONS_PER_GOAL - |Riskiest(fleet)|, a, b);
  }

  lemma RiskiestFits(fleet: Fleet)
    ensures |Riskiest(fleet)| <= MAX_ACTIONS_PER_GOAL
  {
    hide Sorted, Critical;
  }

  /** The lowest retired risk divides the retired from the rest. */
  lemma RetiredDivide(fleet: Fleet)
    requires DistinctIds(fleet) && Riskiest(fleet) != []
    ensures var m := Riskiest(fleet)[|Riskiest(fleet)| - 1].banRisk;
            m >= CRITICAL_RISK && Divides(fleet, Ids(Riskiest(fleet)), m)
  {
    hide Sorted, Critical, DistinctIds;
    var ranked := Sorted(Critical(fleet), ByRisk);
    var top := Riskiest(fleet);
    var last := top[|top| - 1];
    SortedMeans(Critical(fleet), ByRisk);
    RankedMember(fleet, ranked[|top| - 1]);
    var l :| 0 <= l < |fleet| && fleet[l] == last;
    forall i | 0 <= i < |fleet|
      ensures if fleet[i].accountId in Ids(top) then fleet[i].banRisk >= last.banRisk
              else fleet[i].banRisk <= last.banRisk
    {
      if fleet[i].accountId in Ids(top) {
        var p :| 0 <= p < |top| && top[p].accountId == fleet[i].accountId;
        RankedMember(fleet, ranked[p]);
        SameAccount(fleet, ranked[p], i);
        assert p < |top| - 1 ==> KeyOf(ByRisk, ranked[p]) <= KeyOf(ByRisk, ranked[|top| - 1]);
      } else {
        RetiredAreRiskiest(fleet, l, i);
      }
    }
  }

  lemma {:induction false} WithoutNone(fleet: Fleet)
    ensures Without(fleet, {}) == fleet
  {
    if fleet != [] {
      WithoutNone(fleet[..|fleet| - 1]);
    }
  }

  /** Taking out the accounts that a risk goal retires never raises the average risk of the accounts
      that stay active. */
  lemma RetiringNeverRaisesRisk(fleet: Fleet)
    requires DistinctIds(fleet)
    ensures AverageRisk(Without(fleet, Ids(Riskiest(fleet)))) <= AverageRisk(fleet)
  {
    hide Riskiest, DistinctIds, Active, RiskSum, Without, Divides, Times;
    var ids := Ids(Riskiest(fleet));
    if Riskiest(fleet) == [] {
      assert ids == {};
      WithoutNone(fleet);
    } else {
      var m := Riskiest(fleet)[|Riskiest(fleet)| - 1].banRisk;
      RetiredDivide(fleet);
      SumsDivide(fleet, ids, m);
      Average(Active(fleet), Active(Without(fleet, ids)), m);
    }
  }

  lemma Average(all: Fleet, kept: Fleet, m: real)
    requires |kept| <= |all| && m >= 0.0
    requires RiskSum(all) - RiskSum(kept) >= Times(m, |all| - |kept|) && RiskSum(kept) <= Times(m, |kept|)
    ensures (if kept == [] then 0.0 else RiskSum(kept) / |kept| as real) <=
            if all == [] then 0.0 else RiskSum(all) / |all| as real
  {
    hide RiskSum;
    var x, y := |all| as real, |kept| as real;
    assert (|all| - |kept|) as real == x - y;
    if kept != [] {
      MeansDivide(RiskSum(all), x, RiskSum(kept), y, m);
    } else if all != [] {
      NoActive(m);
      QuotientAtLeast(RiskSum(all), x, m);
    }
  }

  // ---------------------------------------------------------------- the plan as returned

  lemma {:induction false} WinnerIsFor(raw: seq<Action>, id: int)
    ensures Winner(raw, id).Some? ==> Winner(raw, id).value.accountId == Some(id)
    ensures Winner(raw, id).Some? <==> id in FirstSeen(raw)
  {
    if raw != [] {
      WinnerIsFor(raw[..|raw| - 1], id);
    }
  }

  /** The returned actions are about different accounts, and an account has one exactly when its
      outcome is some action type, which is then the action's. */
  lemma PlanIsOutcome(goals: seq<Goal>, fleet: Fleet, actions: seq<Action>, id: int)
    requires IsMerge(RawPlan(goals, fleet), actions)
    ensures forall t :: Outcome(goals, fleet, id) == Some(t) <==>
              exists k :: 0 <= k < |actions| && actions[k].accountId == Some(id) && actions[k].actionType == t
    ensures forall k, l :: 0 <= k < l < |actions| ==> actions[k].accountId != actions[l].accountId
  {
    hide Winner, FirstSeen, RawPlan;
    var raw := RawPlan(goals, fleet);
    var order := FirstSeen(raw);
    forall k | 0 <= k < |actions|
      ensures actions[k].accountId == Some(order[k])
    {
      WinnerIsFor(raw, order[k]);
    }
    WinnerIsFor(raw, id);
    if id in order {
      var k :| 0 <= k < |order| && order[k] == id;
      assert Winner(raw, order[k]) == Some(actions[k]);
    }
    forall k, l | 0 <= k < l < |actions|
      ensures actions[k].accountId != actions[l].accountId
    {
      FirstSeenOrder(raw, k, l);
    }
  }
}
