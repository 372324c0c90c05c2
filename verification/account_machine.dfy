/** The account state machine (core/state_machine/account.py) together with the repository's update
    method (core/repositories/account.py). */
module AccountMachine {
  import opened Wrappers

  datatype Status = Created | Warming | Pool | Assigned | Cooldown | Retired | Banned

  datatype Event =
    | AccountCreated | WarmingStart | WarmingCompleted | ContainerAttach | ContainerDetach
    | HealthIncident | CooldownExpired | Retire | Restore | BanDetected | AcknowledgeBan

  datatype Initiator = User | Auto | Health

  datatype Effect =
    | SetWarmingStarted | SetActivated | AttachContainer | DetachContainer | EnterCooldown | ExitCooldown

  datatype Guard = NoGuard | PreviousIs(status: Status) | PreviousAssignedWithContainer

  /** `from.None?` marks the row that has no previous status. */
  datatype Rule = Rule(event: Event, from: Option<set<Status>>, to: Status, initiator: Initiator,
                       effects: seq<Effect>, guard: Guard)

  const RETIRE_FROM: set<Status> := {Created, Warming, Pool, Assigned, Cooldown}
  const BAN_FROM: set<Status> := {Created, Warming, Pool, Assigned, Cooldown, Retired}

  const TRANSITIONS: seq<Rule> := [
    Rule(AccountCreated, None, Created, User, [], NoGuard),
    Rule(WarmingStart, Some({Created}), Warming, Auto, [SetWarmingStarted], NoGuard),
    Rule(WarmingCompleted, Some({Warming}), Pool, Auto, [SetActivated], NoGuard),
    Rule(ContainerAttach, Some({Pool, Warming, Cooldown, Created}), Assigned, User, [AttachContainer], NoGuard),
    Rule(ContainerDetach, Some({Assigned}), Pool, User, [DetachContainer], NoGuard),
    Rule(HealthIncident, Some({Pool}), Cooldown, Health, [EnterCooldown], NoGuard),
    Rule(HealthIncident, Some({Assigned}), Cooldown, Health, [EnterCooldown], NoGuard),
    Rule(CooldownExpired, Some({Cooldown}), Pool, Auto, [ExitCooldown], PreviousIs(Pool)),
    Rule(CooldownExpired, Some({Cooldown}), Assigned, Auto, [ExitCooldown], PreviousAssignedWithContainer),
    Rule(Retire, Some(RETIRE_FROM), Retired, User, [DetachContainer], NoGuard),
    Rule(BanDetected, Some(BAN_FROM), Banned, Health, [DetachContainer], NoGuard),
    Rule(AcknowledgeBan, Some({Banned}), Retired, User, [], NoGuard),
    Rule(Restore, Some({Retired}), Pool, User, [], NoGuard)]

  // ---------------------------------------------------------------- accounts and event data

  /** A value in the event's free-form data, and the null of the columns it is stored in.  A moment
      is a datetime object; `Iso(t)` is the text that spells moment `t`, and `Text` is any other. */
  datatype Value = Null | Text(text: string) | Iso(t: int) | Number(n: int) | Moment(t: int)

  type Meta = map<string, Value>

  /** The columns the state machine owns, and all other columns by name. */
  datatype Account = Account(
    status: Status,
    previous: Option<Status>,
    containerType: Value,
    containerId: Value,
    cooldownUntil: Value,
    warmingStartedAt: Option<int>,
    activatedAt: Option<int>,
    details: map<string, Value>)

  function Get(meta: Meta, key: string): Value {
    if key in meta then meta[key] else Null
  }

  // ---------------------------------------------------------------- resolving the rule

  datatype Error =
    | UnknownEvent | UnknownInitiator | UnknownAccount | NotAllowed | Blocked | Ambiguous
    | WrongInitiator | MissingMeta | PublishFailed

  datatype Resolution = Chosen(rule: Rule) | Refused(error: Error)

  predicate FromOk(r: Rule, event: Event, a: Account) {
    r.event == event &&
    if r.from.None? then a.status == Created && a.previous.None? else a.status in r.from.value
  }

  predicate GuardOk(g: Guard, a: Account) {
    match g
    case NoGuard => true
    case PreviousIs(s) => a.previous == Some(s)
    case PreviousAssignedWithContainer => a.previous == Some(Assigned) && a.containerId != Null
  }

  predicate RowEnabled(i: nat, event: Event, a: Account)
    requires i < |TRANSITIONS|
  {
    FromOk(TRANSITIONS[i], event, a) && GuardOk(TRANSITIONS[i].guard, a)
  }

  /** The enabled row, by case on event and status rather than by searching the table. */
  function Row(event: Event, a: Account): Option<nat> {
    match event
    case AccountCreated => If(a.status == Created && a.previous.None?, 0)
    case WarmingStart => If(a.status == Created, 1)
    case WarmingCompleted => If(a.status == Warming, 2)
    case ContainerAttach => If(a.status in {Pool, Warming, Cooldown, Created}, 3)
    case ContainerDetach => If(a.status == Assigned, 4)
    case HealthIncident => if a.status == Pool then Some(5) else If(a.status == Assigned, 6)
    case CooldownExpired =>
      if a.status == Cooldown && a.previous == Some(Pool) then Some(7)
      else If(a.status == Cooldown && a.previous == Some(Assigned) && a.containerId != Null, 8)
    case Retire => If(a.status != Retired && a.status != Banned, 9)
    case BanDetected => If(a.status != Banned, 10)
    case AcknowledgeBan => If(a.status == Banned, 11)
    case Restore => If(a.status == Retired, 12)
  }

  function If(ok: bool, row: nat): Option<nat> {
    if ok then Some(row) else None
  }

  /** The rows that name an event: one, or two adjacent ones. */
  function FirstRow(event: Event): nat {
    match event
    case AccountCreated => 0
    case WarmingStart => 1
    case WarmingCompleted => 2
    case ContainerAttach => 3
    case ContainerDetach => 4
    case HealthIncident => 5
    case CooldownExpired => 7
    case Retire => 9
    case BanDetected => 10
    case AcknowledgeBan => 11
    case Restore => 12
  }

  function LastRow(event: Event): nat {
    if event == HealthIncident || event == CooldownExpired then FirstRow(event) + 1 else FirstRow(event)
  }

  lemma RowsOfEvent(event: Event, i: nat)
    requires i < |TRANSITIONS|
    ensures LastRow(event) < |TRANSITIONS|
    ensures TRANSITIONS[i].event == event <==> i == FirstRow(event) || i == LastRow(event)
  {
  }

  /** The table and the case analysis agree, row by row: whatever the account looks like, at most
      one row is enabled, so the resolver's ambiguity check can never fire. */
  lemma TableMeansRow(event: Event, a: Account, i: nat)
    requires i < |TRANSITIONS|
    ensures RowEnabled(i, event, a) <==> Row(event, a) == Some(i)
  {
    RowsOfEvent(event, i);
  }

  /** A row's status condition holds without its guard only for an expiring cooldown. */
  lemma TableMeansFrom(event: Event, a: Account, i: nat)
    requires i < |TRANSITIONS|
    ensures FromOk(TRANSITIONS[i], event, a) ==>
              Row(event, a).Some? || (event == CooldownExpired && a.status == Cooldown)
  {
    RowsOfEvent(event, i);
  }

  /** Specification of the resolver. */
  function Resolved(event: Event, a: Account, initiator: Initiator): (r: Resolution)
    ensures r.Refused? ==> r.error in {NotAllowed, Blocked, WrongInitiator}
  {
    if Row(event, a).Some? then
      RowInTable(event, a);
      var rule := TRANSITIONS[Row(event, a).value];
      if initiator == rule.initiator then Chosen(rule) else Refused(WrongInitiator)
    else if event == CooldownExpired && a.status == Cooldown then Refused(Blocked)
    else Refused(NotAllowed)
  }

  lemma RowInTable(event: Event, a: Account)
    ensures Row(event, a).Some? ==> Row(event, a).value < |TRANSITIONS|
  {
  }

  predicate Increasing(s: seq<nat>) {
    forall i, j :: 0 <= i < j < |s| ==> s[i] < s[j]
  }

  lemma IncreasingSnoc(s: seq<nat>, k: nat)
    requires Increasing(s) && forall i :: i in s ==> i < k
    ensures Increasing(s + [k])
  {
    assert forall j :: 0 <= j < |s| ==> s[j] in s;
  }

  predicate InTable(rows: seq<nat>) {
    forall j :: 0 <= j < |rows| ==> rows[j] < |TRANSITIONS|
  }

  /** The rows whose guard holds. */
  function Guarded(rows: seq<nat>, a: Account): seq<nat>
    requires InTable(rows)
  {
    if rows == [] then []
    else
      var n := |rows| - 1;
      var front := Guarded(rows[..n], a);
      if GuardOk(TRANSITIONS[rows[n]].guard, a) then front + [rows[n]] else front
  }

  lemma {:induction false} GuardedMeans(rows: seq<nat>, a: Account, i: nat)
    requires InTable(rows)
    ensures i in Guarded(rows, a) <==> i < |TRANSITIONS| && i in rows && GuardOk(TRANSITIONS[i].guard, a)
  {
    hide TRANSITIONS, GuardOk;
    if rows != [] {
      var n := |rows| - 1;
      assert rows == rows[..n] + [rows[n]];
      GuardedMeans(rows[..n], a, i);
    }
  }

  lemma {:induction false} GuardedIncreasing(rows: seq<nat>, a: Account)
    requires InTable(rows) && Increasing(rows)
    ensures Increasing(Guarded(rows, a))
  {
    hide TRANSITIONS, GuardOk;
    if rows != [] {
      var n := |rows| - 1;
      GuardedIncreasing(rows[..n], a);
      forall i | i in Guarded(rows[..n], a)
        ensures i < rows[n]
      {
        GuardedMeans(rows[..n], a, i);
      }
      IncreasingSnoc(Guarded(rows[..n], a), rows[n]);
    }
  }

  /** `_resolve`: collect the rows of the event by status, filter them by guard, and insist on
      exactly one.  The branch for two or more is unreachable. */
  method Resolve(event: Event, a: Account, initiator: Initiator) returns (r: Resolution)
    ensures r == Resolved(event, a, initiator)
  {
    hide TRANSITIONS, FromOk, GuardOk, Row, Guarded;
    var fromOk: seq<nat> := [];
    var k := 0;
    while k < |TRANSITIONS|
      invariant k <= |TRANSITIONS|
      invariant forall i :: i in fromOk <==> 0 <= i < k && FromOk(TRANSITIONS[i], event, a)
      invariant Increasing(fromOk) && InTable(fromOk)
    {
      IncreasingSnoc(fromOk, k);
      if FromOk(TRANSITIONS[k], event, a) {
        fromOk := fromOk + [k];
      }
      k := k + 1;
    }
    RowInTable(event, a);
    if Row(event, a).Some? {
      TableMeansRow(event, a, Row(event, a).value);
    }
    CooldownHasRow(event, a);
    if fromOk == [] {
      return Refused(NotAllowed);
    }
    assert fromOk[0] in fromOk;
    TableMeansFrom(event, a, fromOk[0]);
    var guardOk := Guarded(fromOk, a);
    GuardedIncreasing(fromOk, a);
    if Row(event, a).Some? {
      GuardedMeans(fromOk, a, Row(event, a).value);
    }
    if guardOk == [] {
      return Refused(Blocked);
    }
    assert guardOk[0] in guardOk;
    GuardedMeans(fromOk, a, guardOk[0]);
    TableMeansRow(event, a, guardOk[0]);
    if |guardOk| > 1 {
      assert guardOk[1] in guardOk;
      GuardedMeans(fromOk, a, guardOk[1]);
      TableMeansRow(event, a, guardOk[1]);
      assert false;
    }
    var rule := TRANSITIONS[guardOk[0]];
    if initiator != rule.initiator {
      return Refused(WrongInitiator);
    }
    return Chosen(rule);
  }

  lemma CooldownHasRow(event: Event, a: Account)
    ensures 7 < |TRANSITIONS| && (event == CooldownExpired && a.status == Cooldown ==> FromOk(TRANSITIONS[7], event, a))
  {
  }

  // ---------------------------------------------------------------- applying a rule

  function Effected1(a: Account, e: Effect, meta: Meta, from: Option<Status>, now: int): Account {
    match e
    case SetWarmingStarted => a.(warmingStartedAt := Some(now))
    case SetActivated => a.(activatedAt := Some(now))
    case AttachContainer =>
      a.(containerType := Get(meta, "container_type"), containerId := Get(meta, "container_id"))
    case DetachContainer => a.(containerType := Null, containerId := Null)
    case EnterCooldown => a.(previous := from, cooldownUntil := Get(meta, "cooldown_until"))
    case ExitCooldown => a.(cooldownUntil := Null, previous := None)
  }

  function Effected(a: Account, effects: seq<Effect>, meta: Meta, from: Option<Status>, now: int): Account {
    if effects == [] then a
    else
      var n := |effects| - 1;
      Effected1(Effected(a, effects[..n], meta, from, now), effects[n], meta, from, now)
  }

  /** `_apply_effects`. */
  method ApplyEffects(a: Account, rule: Rule, meta: Meta, from: Option<Status>, now: int) returns (r: Account)
    ensures r == Effected(a, rule.effects, meta, from, now)
  {
    hide Effected1;
    r := a;
    var k := 0;
    while k < |rule.effects|
      invariant k <= |rule.effects|
      invariant r == Effected(a, rule.effects[..k], meta, from, now)
    {
      assert rule.effects[..k + 1][..k] == rule.effects[..k];
      r := Effected1(r, rule.effects[k], meta, from, now);
      k := k + 1;
    }
    assert rule.effects[..k] == rule.effects;
  }

  /** `_require_meta`: the effects that read the event's data find it there. */
  predicate MetaOk(rule: Rule, meta: Meta) {
    && (AttachContainer in rule.effects ==> Get(meta, "container_type") != Null && Get(meta, "container_id") != Null)
    && (EnterCooldown in rule.effects ==> Get(meta, "cooldown_until") != Null)
  }

  function FromStatus(rule: Rule, a: Account): Option<Status> {
    if rule.from.None? then None else Some(a.status)
  }

  // ---------------------------------------------------------------- the history record

  function Json(v: Value): Value {
    if v.Moment? then Iso(v.t) else v
  }

  /** Reading a stored deadline back. */
  function Decoded(v: Value): Value {
    if v.Iso? then Moment(v.t) else v
  }

  /** `_json_safe`: datetimes become their ISO text, and empty data is stored as a null. */
  function JsonMeta(meta: Meta): Option<Meta> {
    if meta == map[] then None else Some(map k | k in meta :: Json(meta[k]))
  }

  function Stored(meta: Option<Meta>, key: string): Value {
    if meta.Some? then Get(meta.value, key) else Null
  }

  lemma StoredIsJson(meta: Meta, key: string)
    ensures Stored(JsonMeta(meta), key) == Json(Get(meta, key))
  {
    if meta == map[] {
      assert key !in meta;
    }
  }

  datatype Record = Record(accountId: int, from: Option<Status>, to: Status, reason: Event,
                           initiator: Initiator, meta: Option<Meta>)

  datatype Outcome = Commit(account: Account, record: Record) | Reject(error: Error)

  /** Specification of one event on a stored account, up to the commit. */
  function Transited(id: int, a: Account, event: Event, initiator: Initiator, meta: Meta, now: int): Outcome {
    var r := Resolved(event, a, initiator);
    if r.Refused? then Reject(r.error)
    else if !MetaOk(r.rule, meta) then Reject(MissingMeta)
    else
      var from := FromStatus(r.rule, a);
      Commit(Effected(a, r.rule.effects, meta, from, now).(status := r.rule.to),
             Record(id, from, r.rule.to, event, initiator, JsonMeta(meta)))
  }

  // ---------------------------------------------------------------- what the table means

  /** Who may send an event. */
  function Sender(event: Event): Initiator {
    match event
    case AccountCreated | ContainerAttach | ContainerDetach | Retire | AcknowledgeBan | Restore => User
    case WarmingStart | WarmingCompleted | CooldownExpired => Auto
    case HealthIncident | BanDetected => Health
  }

  predicate DataPresent(event: Event, meta: Meta) {
    match event
    case ContainerAttach => Get(meta, "container_type") != Null && Get(meta, "container_id") != Null
    case HealthIncident => Get(meta, "cooldown_until") != Null
    case _ => true
  }

  /** The account after an accepted event, by case on the event alone. */
  function After(a: Account, event: Event, meta: Meta, now: int): Account {
    match event
    case AccountCreated => a
    case WarmingStart => a.(status := Warming, warmingStartedAt := Some(now))
    case WarmingCompleted => a.(status := Pool, activatedAt := Some(now))
    case ContainerAttach =>
      a.(status := Assigned, containerType := Get(meta, "container_type"), containerId := Get(meta, "container_id"))
    case ContainerDetach => a.(status := Pool, containerType := Null, containerId := Null)
    case HealthIncident =>
      a.(status := Cooldown, previous := Some(a.status), cooldownUntil := Get(meta, "cooldown_until"))
    case CooldownExpired =>
      a.(status := if a.previous == Some(Pool) then Pool else Assigned, previous := None, cooldownUntil := Null)
    case Retire => a.(status := Retired, containerType := Null, containerId := Null)
    case BanDetected => a.(status := Banned, containerType := Null, containerId := Null)
    case AcknowledgeBan => a.(status := Retired)
    case Restore => a.(status := Pool)
  }

  function EffectsOf(event: Event): seq<Effect> {
    match event
    case WarmingStart => [SetWarmingStarted]
    case WarmingCompleted => [SetActivated]
    case ContainerAttach => [AttachContainer]
    case ContainerDetach | Retire | BanDetected => [DetachContainer]
    case HealthIncident => [EnterCooldown]
    case CooldownExpired => [ExitCooldown]
    case AccountCreated | AcknowledgeBan | Restore => []
  }

  lemma RuleOfRow(event: Event, a: Account, meta: Meta, now: int)
    requires Row(event, a).Some?
    ensures Row(event, a).value < |TRANSITIONS|
    ensures var rule := TRANSITIONS[Row(event, a).value];
            && rule.initiator == Sender(event) && rule.effects == EffectsOf(event)
            && (rule.from.None? <==> event == AccountCreated) && rule.to == After(a, event, meta, now).status
  {
    hide Get;
  }

  /** The table-driven machine is the case analysis: an event commits exactly when a row is enabled,
      its sender is right and its data is present, and then does what `After` says. */
  lemma TableMeansAfter(id: int, a: Account, event: Event, initiator: Initiator, meta: Meta, now: int)
    ensures Transited(id, a, event, initiator, meta, now).Commit? <==>
              Row(event, a).Some? && initiator == Sender(event) && DataPresent(event, meta)
    ensures var o := Transited(id, a, event, initiator, meta, now);
            o.Commit? ==>
              && o.account == After(a, event, meta, now)
              && o.record == Record(id, if event == AccountCreated then None else Some(a.status),
                                    o.account.status, event, initiator, JsonMeta(meta))
  {
    hide JsonMeta, Get, TRANSITIONS, Row, Effected;
    if Row(event, a).Some? {
      RuleOfRow(event, a, meta, now);
      var rule := TRANSITIONS[Row(event, a).value];
      OneEffect(rule.effects, a, meta, FromStatus(rule, a), now);
    }
  }

  lemma OneEffect(effects: seq<Effect>, a: Account, meta: Meta, from: Option<Status>, now: int)
    requires |effects| <= 1
    ensures Effected(a, effects, meta, from, now) ==
            if effects == [] then a else Effected1(a, effects[0], meta, from, now)
  {
  }
}
