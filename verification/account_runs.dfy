/** Whole runs of the account machine: invariants of every reachable account, the history log and its
    replay, the published events, and the repository's guard on fingerprint fields
    (core/state_machine/account.py, core/repositories/account.py), for operations that run one after
    another on the committed rows.  Sessions that overlap are in account_races.dfy. */
module AccountRuns {
  import opened Wrappers
  import opened AccountMachine

  // ---------------------------------------------------------------- one account

  predicate HasContainer(a: Account) {
    a.containerType != Null && a.containerId != Null
  }

  predicate NoContainer(a: Account) {
    a.containerType == Null && a.containerId == Null
  }

  /** The check constraints of the table on the columns of the state machine: the two container columns
      are null together, and a previous status is one that a cooldown can return to. */
  predicate TableOk(a: Account) {
    && (a.containerType == Null <==> a.containerId == Null)
    && a.previous in {None, Some(Pool), Some(Assigned)}
  }

  /** What holds of every stored account. */
  predicate AccountInv(a: Account) {
    && (if a.status == Assigned || (a.status == Cooldown && a.previous == Some(Assigned)) then HasContainer(a)
        else NoContainer(a))
    && (a.status == Cooldown ==> a.cooldownUntil != Null && a.previous in {Some(Pool), Some(Assigned)})
    && (a.status == Created ==> a.previous.None?)
    && TableOk(a)
  }

  /** Accounts start `created`, or in the pool when imported with a session that is logged in. */
  predicate Fresh(a: Account) {
    a.status in {Created, Pool} && a.previous.None? && NoContainer(a) && a.cooldownUntil == Null
  }

  const FINGERPRINT: set<string> :=
    {"device_model", "system_version", "app_version", "lang_code", "system_lang_code"}

  datatype Edit = Edited(account: Account) | FingerprintLocked

  /** Specification of the repository's `update` on a row that exists.  The columns of the state machine
      are not among those an update can name. */
  function EditOf(a: Account, values: map<string, Value>): Edit {
    if FINGERPRINT * values.Keys != {} && a.status != Created then FingerprintLocked
    else Edited(a.(details := a.details + values))
  }

  predicate Leads(a: Account, from: int) {
    a.containerType == Text("commenting") && a.containerId == Number(from)
  }

  /** The commenting service's detachment from one of several campaigns: an account led by campaign
      `from` is re-pointed to another one, without any event. */
  function Repointed(a: Account, from: int, to: int): Account {
    if Leads(a, from) then a.(containerId := Number(to)) else a
  }

  lemma AfterKeepsInv(a: Account, event: Event, meta: Meta, now: int)
    requires AccountInv(a) && Row(event, a).Some? && DataPresent(event, meta)
    ensures AccountInv(After(a, event, meta, now))
  {
    hide Get;
  }

  /** In a state that satisfies the invariant the resolver is never blocked by a guard, and a cooldown
      always has exactly one way out by expiry. */
  lemma NeverBlocked(a: Account, event: Event, initiator: Initiator)
    requires AccountInv(a)
    ensures Resolved(event, a, initiator) != Refused(Blocked)
    ensures Resolved(event, a, initiator) != Refused(Ambiguous)
    ensures a.status == Cooldown ==>
              exists i :: 0 <= i < |TRANSITIONS| && RowEnabled(i, CooldownExpired, a) &&
                forall j :: 0 <= j < |TRANSITIONS| && RowEnabled(j, CooldownExpired, a) ==> j == i
  {
    RowInTable(CooldownExpired, a);
    if a.status == Cooldown {
      var i := Row(CooldownExpired, a).value;
      TableMeansRow(CooldownExpired, a, i);
      forall j | 0 <= j < |TRANSITIONS| && RowEnabled(j, CooldownExpired, a)
        ensures j == i
      {
        TableMeansRow(CooldownExpired, a, j);
      }
    }
  }

  // ---------------------------------------------------------------- the system

  /** A message on the status channel. */
  datatype Message = Message(accountId: int, from: Option<Status>, to: Status, reason: Event,
                             initiator: Initiator, cooldownUntil: Value)

  function MessageOf(r: Record): Message {
    Message(r.accountId, r.from, r.to, r.reason, r.initiator, Stored(r.meta, "cooldown_until"))
  }

  /** What becomes of the event that follows a commit: no publisher is configured, it is published, or
      publishing raises. */
  datatype Delivery = NoPublisher | Sent | Lost

  /** `origin` remembers each account as it was added, `sent` which record each message is about. */
  datatype System = System(accounts: map<int, Account>, history: seq<Record>, published: seq<Message>,
                           origin: map<int, Account>, sent: seq<nat>)

  datatype Reply = Done(account: Account) | Failed(error: Error)

  /** Specification of `transition`. */
  function Fired(s: System, id: int, event: Event, initiator: Initiator, meta: Meta, now: int,
                 delivery: Delivery): (System, Reply)
  {
    if id !in s.accounts then (s, Failed(UnknownAccount))
    else
      var o := Transited(id, s.accounts[id], event, initiator, meta, now);
      if o.Reject? then (s, Failed(o.error))
      else
        var t := s.(accounts := s.accounts[id := o.account], history := s.history + [o.record]);
        match delivery
        case NoPublisher => (t, Done(o.account))
        case Lost => (t, Failed(PublishFailed))
        case Sent =>
          (t.(published := s.published + [MessageOf(o.record)], sent := s.sent + [|s.history|]), Done(o.account))
  }

  function Updated(s: System, id: int, values: map<string, Value>): System {
    if id !in s.accounts then s
    else
      var e := EditOf(s.accounts[id], values);
      if e.FingerprintLocked? then s else s.(accounts := s.accounts[id := e.account])
  }

  function Redirected(s: System, id: int, from: int, to: int): System {
    if id !in s.accounts then s else s.(accounts := s.accounts[id := Repointed(s.accounts[id], from, to)])
  }

  function Added(s: System, id: int, a: Account): System {
    if id in s.accounts || !Fresh(a) then s
    else s.(accounts := s.accounts[id := a], origin := s.origin[id := a])
  }

  datatype Op =
    | Add(id: int, account: Account)
    | Fire(id: int, event: Event, initiator: Initiator, meta: Meta, now: int, delivery: Delivery)
    | Update(id: int, values: map<string, Value>)
    | Repoint(id: int, from: int, to: int)

  function Step(s: System, op: Op): System {
    match op
    case Add(id, a) => Added(s, id, a)
    case Fire(id, event, initiator, meta, now, delivery) => Fired(s, id, event, initiator, meta, now, delivery).0
    case Update(id, values) => Updated(s, id, values)
    case Repoint(id, from, to) => Redirected(s, id, from, to)
  }

  function Run(s: System, ops: seq<Op>): System {
    if ops == [] then s else Step(Run(s, ops[..|ops| - 1]), ops[|ops| - 1])
  }

  const EMPTY := System(map[], [], [], map[], [])

  /** Every event that is not accepted leaves the whole system as it was; only a lost publication is
      reported as an error after the commit. */
  lemma RejectedChangesNothing(s: System, id: int, event: Event, initiator: Initiator, meta: Meta, now: int,
                               delivery: Delivery)
    ensures var r := Fired(s, id, event, initiator, meta, now, delivery);
            (r.1.Failed? && r.1.error != PublishFailed) <==> r.0.history == s.history
    ensures var r := Fired(s, id, event, initiator, meta, now, delivery);
            r.0.history == s.history ==> r.0 == s
  {
    hide Transited;
    if id in s.accounts {
      RejectIsNotPublishing(id, s.accounts[id], event, initiator, meta, now);
    }
  }

  lemma RejectIsNotPublishing(id: int, a: Account, event: Event, initiator: Initiator, meta: Meta, now: int)
    ensures Transited(id, a, event, initiator, meta, now) != Reject(PublishFailed)
  {
    hide TRANSITIONS, Row, JsonMeta, Effected, MetaOk;
  }

  /** An event is accepted exactly when the account exists, a row is enabled, the sender is right and the
      data is present; the account is then what `After` says and no other account changes, and one record is
      appended.  Each refusal has its own error. */
  lemma AcceptanceExact(s: System, id: int, event: Event, initiator: Initiator, meta: Meta, now: int,
                        delivery: Delivery)
    ensures var (t, reply) := Fired(s, id, event, initiator, meta, now, delivery);
            if id !in s.accounts then reply == Failed(UnknownAccount)
            else
              var a := s.accounts[id];
              if Row(event, a).None? then
                reply == Failed(if event == CooldownExpired && a.status == Cooldown then Blocked else NotAllowed)
              else if initiator != Sender(event) then reply == Failed(WrongInitiator)
              else if !DataPresent(event, meta) then reply == Failed(MissingMeta)
              else
                && reply == (if delivery == Lost then Failed(PublishFailed) else Done(t.accounts[id]))
                && t.accounts == s.accounts[id := After(a, event, meta, now)]
                && t.history == s.history + [Record(id, if event == AccountCreated then None else Some(a.status),
                                                    t.accounts[id].status, event, initiator, JsonMeta(meta))]
  {
    hide TRANSITIONS, Row, JsonMeta, MessageOf, After, DataPresent;
    if id in s.accounts {
      TableMeansAfter(id, s.accounts[id], event, initiator, meta, now);
      RefusedWith(id, s.accounts[id], event, initiator, meta, now);
    }
  }

  lemma RefusedWith(id: int, a: Account, event: Event, initiator: Initiator, meta: Meta, now: int)
    ensures var o := Transited(id, a, event, initiator, meta, now);
            o.Reject? ==>
              o.error == if Row(event, a).None? then
                           (if event == CooldownExpired && a.status == Cooldown then Blocked else NotAllowed)
                         else if initiator != Sender(event) then WrongInitiator
                         else MissingMeta
  {
    hide TRANSITIONS, Row, JsonMeta, Effected, MetaOk;
    if Row(event, a).Some? {
      RuleOfRow(event, a, meta, now);
    }
  }

  /** The message about an accepted event announces what happened: the account, the status it has left and
      the one it is stored with, the event and its sender, and the deadline as the event's data gives it, a
      moment in its textual form. */
  lemma MessageAnnounces(s: System, id: int, event: Event, initiator: Initiator, meta: Meta, now: int)
    requires Fired(s, id, event, initiator, meta, now, Sent).1.Done?
    ensures var t := Fired(s, id, event, initiator, meta, now, Sent).0;
            && id in s.accounts && id in t.accounts
            && |t.published| == |s.published| + 1 && t.published[..|s.published|] == s.published
            && var m := t.published[|s.published|];
            && m.accountId == id && m.reason == event && m.initiator == initiator
            && m.from == (if event == AccountCreated then None else Some(s.accounts[id].status))
            && m.to == t.accounts[id].status
            && m.cooldownUntil ==
               if "cooldown_until" !in meta then Null
               else if meta["cooldown_until"].Moment? then Iso(meta["cooldown_until"].t)
               else meta["cooldown_until"]
  {
    hide TRANSITIONS, Row, JsonMeta, After, DataPresent, Transited;
    TableMeansAfter(id, s.accounts[id], event, initiator, meta, now);
    StoredIsJson(meta, "cooldown_until");
  }

  // ---------------------------------------------------------------- replaying the history

  /** The part of an account that its history determines.  The id of the container is apart, because a
      re-pointing changes it without a record. */
  datatype Core = Core(status: Status, previous: Option<Status>, containerType: Value, cooldownUntil: Value)

  function CoreOf(a: Account): Core {
    Core(a.status, a.previous, Json(a.containerType), Json(a.cooldownUntil))
  }

  /** The effect of one record, read from its event and its stored data alone. */
  function Redo(c: Core, event: Event, meta: Option<Meta>): Core {
    match event
    case AccountCreated => c
    case WarmingStart => c.(status := Warming)
    case WarmingCompleted => c.(status := Pool)
    case ContainerAttach => c.(status := Assigned, containerType := Stored(meta, "container_type"))
    case ContainerDetach => c.(status := Pool, containerType := Null)
    case HealthIncident =>
      c.(status := Cooldown, previous := Some(c.status), cooldownUntil := Stored(meta, "cooldown_until"))
    case CooldownExpired =>
      c.(status := if c.previous == Some(Pool) then Pool else Assigned, previous := None, cooldownUntil := Null)
    case Retire => c.(status := Retired, containerType := Null)
    case BanDetected => c.(status := Banned, containerType := Null)
    case AcknowledgeBan => c.(status := Retired)
    case Restore => c.(status := Pool)
  }

  /** The records of one account, replayed in order. */
  function Replay(c: Core, history: seq<Record>, id: int): Core {
    if history == [] then c
    else
      var n := |history| - 1;
      var front := Replay(c, history[..n], id);
      if history[n].accountId == id then Redo(front, history[n].reason, history[n].meta) else front
  }

  lemma RedoIsAfter(a: Account, event: Event, meta: Meta, now: int)
    ensures CoreOf(After(a, event, meta, now)) == Redo(CoreOf(a), event, JsonMeta(meta))
  {
    hide Get, JsonMeta, Stored;
    StoredIsJson(meta, "container_type");
    StoredIsJson(meta, "cooldown_until");
  }

  // ---------------------------------------------------------------- the invariant of every run

  /** Record k starts from the status that the records before it lead to, and ends in the status that
      replaying it leads to; only a `created` record names no status to start from. */
  predicate Linked(c: Core, history: seq<Record>, id: int, k: nat)
    requires k < |history|
  {
    && history[k].to == Replay(c, history[..k + 1], id).status
    && history[k].from ==
       if history[k].reason == AccountCreated then None else Some(Replay(c, history[..k], id).status)
  }

  predicate LogOf(c: Core, history: seq<Record>, id: int) {
    forall k :: 0 <= k < |history| && history[k].accountId == id ==> Linked(c, history, id, k)
  }

  predicate IdInv(s: System, id: int)
    requires id in s.accounts && id in s.origin
  {
    && AccountInv(s.accounts[id])
    && Fresh(s.origin[id])
    && CoreOf(s.accounts[id]) == Replay(CoreOf(s.origin[id]), s.history, id)
    && LogOf(CoreOf(s.origin[id]), s.history, id)
  }

  /** The published messages describe records of the history, in its order. */
  predicate InOrder(published: seq<Message>, sent: seq<nat>, history: seq<Record>) {
    && |sent| == |published|
    && (forall i :: 0 <= i < |sent| ==> sent[i] < |history| && published[i] == MessageOf(history[sent[i]]))
    && Increasing(sent)
  }

  predicate SystemInv(s: System) {
    && s.accounts.Keys == s.origin.Keys
    && (forall id :: id in s.accounts ==> IdInv(s, id))
    && (forall k :: 0 <= k < |s.history| ==> s.history[k].accountId in s.accounts)
    && InOrder(s.published, s.sent, s.history)
  }

  lemma {:induction false} ReplayOfOthers(c: Core, history: seq<Record>, id: int)
    requires forall k :: 0 <= k < |history| ==> history[k].accountId != id
    ensures Replay(c, history, id) == c
  {
    hide Redo;
    if history != [] {
      ReplayOfOthers(c, history[..|history| - 1], id);
    }
  }

  lemma ReplaySnoc(c: Core, history: seq<Record>, r: Record, id: int)
    ensures Replay(c, history + [r], id) ==
            if r.accountId == id then Redo(Replay(c, history, id), r.reason, r.meta) else Replay(c, history, id)
  {
    hide Redo;
    assert (history + [r])[..|history|] == history;
  }

  lemma LogSnoc(c: Core, history: seq<Record>, r: Record, id: int)
    requires LogOf(c, history, id)
    requires r.accountId == id ==> Linked(c, history + [r], id, |history|)
    ensures LogOf(c, history + [r], id)
  {
    hide Replay;
    var h := history + [r];
    forall k | 0 <= k < |h| && h[k].accountId == id
      ensures Linked(c, h, id, k)
    {
      if k < |history| {
        assert Linked(c, history, id, k);
        assert h[..k + 1] == history[..k + 1] && h[..k] == history[..k];
      }
    }
  }

  lemma FireKeepsId(s: System, id: int, event: Event, initiator: Initiator, meta: Meta, now: int,
                    delivery: Delivery, other: int)
    requires SystemInv(s) && other in s.accounts
    ensures var t := Fired(s, id, event, initiator, meta, now, delivery).0;
            other in t.accounts && other in t.origin && IdInv(t, other)
  {
    hide Transited, AccountInv, Fresh, Replay, LogOf, CoreOf, After, Redo, InOrder, Row, DataPresent, Linked, JsonMeta;
    var t := Fired(s, id, event, initiator, meta, now, delivery).0;
    assert IdInv(s, other);
    if id in s.accounts && Transited(id, s.accounts[id], event, initiator, meta, now).Commit? {
      var a := s.accounts[id];
      var o := Transited(id, a, event, initiator, meta, now);
      var c := CoreOf(s.origin[other]);
      TableMeansAfter(id, a, event, initiator, meta, now);
      ReplaySnoc(c, s.history, o.record, other);
      if other == id {
        RedoIsAfter(a, event, meta, now);
        AfterKeepsInv(a, event, meta, now);
        NewRecordLinked(c, s.history, o.record, a, o.account);
      }
      LogSnoc(c, s.history, o.record, other);
    }
  }

  lemma NewRecordLinked(c: Core, history: seq<Record>, r: Record, a: Account, b: Account)
    requires CoreOf(a) == Replay(c, history, r.accountId)
    requires CoreOf(b) == Replay(c, history + [r], r.accountId)
    requires r.to == b.status && r.from == if r.reason == AccountCreated then None else Some(a.status)
    ensures Linked(c, history + [r], r.accountId, |history|)
  {
    hide Replay;
    assert (history + [r])[..|history|] == history;
    assert (history + [r])[..|history| + 1] == history + [r];
  }

  lemma FireKeepsInv(s: System, id: int, event: Event, initiator: Initiator, meta: Meta, now: int, delivery: Delivery)
    requires SystemInv(s)
    ensures SystemInv(Fired(s, id, event, initiator, meta, now, delivery).0)
  {
    hide Transited, IdInv, MessageOf;
    var t := Fired(s, id, event, initiator, meta, now, delivery).0;
    forall other | other in t.accounts
      ensures other in t.origin && IdInv(t, other)
    {
      FireKeepsId(s, id, event, initiator, meta, now, delivery, other);
    }
    if id in s.accounts {
      RecordNamesAccount(id, s.accounts[id], event, initiator, meta, now);
    }
  }

  lemma RecordNamesAccount(id: int, a: Account, event: Event, initiator: Initiator, meta: Meta, now: int)
    ensures var o := Transited(id, a, event, initiator, meta, now); o.Commit? ==> o.record.accountId == id
  {
    hide Resolved, MetaOk, Effected, JsonMeta;
  }

  lemma UpdateKeepsInv(s: System, id: int, values: map<string, Value>)
    requires SystemInv(s)
    ensures SystemInv(Updated(s, id, values))
  {
    hide Replay, LogOf, InOrder;
    var t := Updated(s, id, values);
    forall other | other in t.accounts
      ensures other in t.origin && IdInv(t, other)
    {
      assert IdInv(s, other);
    }
  }

  lemma RedirectKeepsInv(s: System, id: int, from: int, to: int)
    requires SystemInv(s)
    ensures SystemInv(Redirected(s, id, from, to))
  {
    hide Replay, LogOf, InOrder;
    var t := Redirected(s, id, from, to);
    forall other | other in t.accounts
      ensures other in t.origin && IdInv(t, other)
    {
      assert IdInv(s, other);
    }
  }

  lemma AddKeepsInv(s: System, id: int, a: Account)
    requires SystemInv(s)
    ensures SystemInv(Added(s, id, a))
  {
    hide Replay, InOrder;
    var t := Added(s, id, a);
    forall other | other in t.accounts
      ensures other in t.origin && IdInv(t, other)
    {
      if other in s.accounts {
        assert IdInv(s, other);
      } else {
        ReplayOfOthers(CoreOf(a), s.history, id);
      }
    }
  }

  /** Every reachable system satisfies the invariant. */
  lemma {:induction false} RunInv(ops: seq<Op>)
    ensures SystemInv(Run(EMPTY, ops))
  {
    hide SystemInv, Step, Fired, Updated, Added;
    if ops == [] {
      EmptyInv();
    } else {
      var front := ops[..|ops| - 1];
      RunInv(front);
      StepKeepsInv(Run(EMPTY, front), ops[|ops| - 1]);
    }
  }

  lemma EmptyInv()
    ensures SystemInv(EMPTY)
  {
  }

  lemma StepKeepsInv(s: System, op: Op)
    requires SystemInv(s)
    ensures SystemInv(Step(s, op))
  {
    hide SystemInv, Fired, Updated, Added, Redirected;
    match op
    case Add(id, a) => AddKeepsInv(s, id, a);
    case Fire(id, event, initiator, meta, now, delivery) =>
      FireKeepsInv(s, id, event, initiator, meta, now, delivery);
    case Update(id, values) => UpdateKeepsInv(s, id, values);
    case Repoint(id, from, to) => RedirectKeepsInv(s, id, from, to);
  }

  // ---------------------------------------------------------------- what every run guarantees

  /** After any run, an account has a container exactly while it is assigned, or cooling down from an
      assignment; type and id are set together; a cooldown has a deadline; and no event is ever
      answered by the guard or the ambiguity error. */
  lemma ReachableAccounts(ops: seq<Op>, id: int, event: Event, initiator: Initiator)
    requires id in Run(EMPTY, ops).accounts
    ensures var a := Run(EMPTY, ops).accounts[id];
            && (a.containerId != Null <==>
                a.status == Assigned || (a.status == Cooldown && a.previous == Some(Assigned)))
            && (a.containerType != Null <==> a.containerId != Null)
            && (a.status == Cooldown ==> a.cooldownUntil != Null)
            && Resolved(event, a, initiator) !in {Refused(Blocked), Refused(Ambiguous)}
  {
    hide Run, Resolved;
    RunInv(ops);
    var s := Run(EMPTY, ops);
    assert IdInv(s, id);
    NeverBlocked(s.accounts[id], event, initiator);
  }

  /** Replaying an account's records from the state it was added in gives its status, previous status,
      container type and deadline, deadlines being read back from their stored text. */
  lemma HistoryReplays(ops: seq<Op>, id: int)
    requires id in Run(EMPTY, ops).accounts
    ensures var s := Run(EMPTY, ops);
            && id in s.origin && Fresh(s.origin[id])
            && var c := Replay(CoreOf(s.origin[id]), s.history, id);
            && c == CoreOf(s.accounts[id])
            && (s.accounts[id].cooldownUntil.Null? || s.accounts[id].cooldownUntil.Moment? ==>
                  Decoded(c.cooldownUntil) == s.accounts[id].cooldownUntil)
  {
    hide Run, Replay;
    RunInv(ops);
    assert IdInv(Run(EMPTY, ops), id);
  }

  // ---------------------------------------------------------------- the id of the container

  /** The container id that the records of an account lead to. */
  function ReplayId(history: seq<Record>, id: int): Value {
    if history == [] then Null
    else
      var r := history[|history| - 1];
      if r.accountId != id then ReplayId(history[..|history| - 1], id)
      else
        match r.reason
        case ContainerAttach => Stored(r.meta, "container_id")
        case ContainerDetach | Retire | BanDetected => Null
        case _ => ReplayId(history[..|history| - 1], id)
  }

  /** The events that set or clear the container. */
  predicate SetsContainer(event: Event) {
    event in {ContainerAttach, ContainerDetach, Retire, BanDetected}
  }

  /** Where the last re-pointing since the container was last set or cleared has moved the account. */
  function Moved(ops: seq<Op>, id: int): Option<Value> {
    if ops == [] then None
    else
      var front := ops[..|ops| - 1];
      var s := Run(EMPTY, front);
      match ops[|ops| - 1]
      case Repoint(i, from, to) =>
        if i == id && id in s.accounts && Leads(s.accounts[id], from) then Some(Number(to)) else Moved(front, id)
      case Fire(i, event, initiator, meta, now, _) =>
        if i == id && id in s.accounts && SetsContainer(event)
           && Transited(id, s.accounts[id], event, initiator, meta, now).Commit?
        then None else Moved(front, id)
      case _ => Moved(front, id)
  }

  predicate IdReplays(s: System, moved: Option<Value>, id: int) {
    if id in s.accounts then
      Json(s.accounts[id].containerId) == if moved.Some? then moved.value else ReplayId(s.history, id)
    else moved.None? && ReplayId(s.history, id) == Null
  }

  lemma ReplayIdSnoc(history: seq<Record>, r: Record, id: int)
    ensures ReplayId(history + [r], id) ==
            if r.accountId != id then ReplayId(history, id)
            else if r.reason == ContainerAttach then Stored(r.meta, "container_id")
            else if SetsContainer(r.reason) then Null
            else ReplayId(history, id)
  {
    assert (history + [r])[..|history|] == history;
  }

  lemma AfterSetsId(a: Account, event: Event, meta: Meta, now: int)
    ensures Json(After(a, event, meta, now).containerId) ==
            if event == ContainerAttach then Stored(JsonMeta(meta), "container_id")
            else if SetsContainer(event) then Null
            else Json(a.containerId)
  {
    hide Get, JsonMeta, Stored;
    StoredIsJson(meta, "container_id");
  }

  lemma {:induction false} ReplayedId(ops: seq<Op>, id: int)
    ensures IdReplays(Run(EMPTY, ops), Moved(ops, id), id)
  {
    hide Transited, EditOf, After, MessageOf, Leads, SetsContainer, JsonMeta, Stored, Row, DataPresent;
    if ops != [] {
      var front, op := ops[..|ops| - 1], ops[|ops| - 1];
      var s := Run(EMPTY, front);
      ReplayedId(front, id);
      if op.Fire? && op.id in s.accounts {
        var o := Transited(op.id, s.accounts[op.id], op.event, op.initiator, op.meta, op.now);
        TableMeansAfter(op.id, s.accounts[op.id], op.event, op.initiator, op.meta, op.now);
        if o.Commit? {
          ReplayIdSnoc(s.history, o.record, id);
          AfterSetsId(s.accounts[op.id], op.event, op.meta, op.now);
          OnlyAttachIsNotClearing(op.event);
        }
      } else if op.Update? && op.id in s.accounts {
        EditKeepsId(s.accounts[op.id], op.values);
      }
    }
  }

  lemma OnlyAttachIsNotClearing(event: Event)
    ensures event == ContainerAttach ==> SetsContainer(event)
  {
  }

  lemma EditKeepsId(a: Account, values: map<string, Value>)
    ensures EditOf(a, values).Edited? ==> EditOf(a, values).account.containerId == a.containerId
  {
    hide FINGERPRINT;
  }

  /** The records give the container id exactly when the account was not re-pointed since its container
      was last set or cleared, or was last re-pointed to that very container. */
  lemma ContainerIdExact(ops: seq<Op>, id: int)
    requires id in Run(EMPTY, ops).accounts
    ensures var s := Run(EMPTY, ops); var recorded := ReplayId(s.history, id);
            recorded == Json(s.accounts[id].containerId) <==>
              Moved(ops, id).None? || Moved(ops, id).value == recorded
  {
    hide Run, Moved, ReplayId;
    ReplayedId(ops, id);
  }

  /** An account attached to campaigns a and b and led by a; campaign a is deleted.  The records still
      say a, the row says b. */
  lemma RepointIsNotRecorded(id: int, start: Account, a: int, b: int, now: int)
    requires Fresh(start) && a != b
    ensures var meta: Meta := map["container_type" := Text("commenting"), "container_id" := Number(a)];
            var s := Run(EMPTY, [Add(id, start), Fire(id, ContainerAttach, User, meta, now, Sent), Repoint(id, a, b)]);
            && id in s.accounts && s.accounts[id].status == Assigned
            && s.accounts[id].containerId == Number(b) && ReplayId(s.history, id) == Number(a)
  {
    hide Transited, MessageOf, Run, After, Row, JsonMeta, Stored;
    var meta: Meta := map["container_type" := Text("commenting"), "container_id" := Number(a)];
    var attach := Fire(id, ContainerAttach, User, meta, now, Sent);
    RunThree(EMPTY, Add(id, start), attach, Repoint(id, a, b));
    TableMeansAfter(id, start, ContainerAttach, User, meta, now);
    FreshAttaches(id, start, meta, now);
    StoredIsJson(meta, "container_id");
    ReplayIdSnoc([], Transited(id, start, ContainerAttach, User, meta, now).record, id);
    assert EMPTY.history + [Transited(id, start, ContainerAttach, User, meta, now).record] ==
           [] + [Transited(id, start, ContainerAttach, User, meta, now).record];
  }

  lemma FreshAttaches(id: int, start: Account, meta: Meta, now: int)
    requires Fresh(start)
    ensures Row(ContainerAttach, start).Some?
    ensures After(start, ContainerAttach, meta, now) ==
            start.(status := Assigned, containerType := Get(meta, "container_type"),
                   containerId := Get(meta, "container_id"))
  {
  }

  lemma RunThree(s: System, a: Op, b: Op, c: Op)
    ensures Run(s, [a, b, c]) == Step(Step(Step(s, a), b), c)
  {
    hide Step;
    var ops := [a, b, c];
    assert ops[..2][..1] == ops[..1] && ops[..1][..0] == [];
    assert Run(s, []) == s;
    assert Run(s, ops[..1]) == Step(s, a);
    assert Run(s, ops[..2]) == Step(Run(s, ops[..1]), b);
  }

  predicate NoneBetween(history: seq<Record>, id: int, j: int, k: nat) {
    forall i :: j < i < k && 0 <= i < |history| ==> history[i].accountId != id
  }

  lemma {:induction false} ReplaySkips(c: Core, history: seq<Record>, id: int, j: nat, k: nat)
    requires j <= k <= |history|
    requires forall i :: j <= i < k ==> history[i].accountId != id
    ensures Replay(c, history[..k], id) == Replay(c, history[..j], id)
  {
    hide Redo;
    if j < k {
      ReplaySkips(c, history, id, j, k - 1);
      assert history[..k][..k - 1] == history[..k - 1];
    }
  }

  /** Consecutive records of an account chain: each starts from the status the one before ended in, the
      first from the status the account was added with.  Only `created` records break the chain: they
      name no status to start from. */
  lemma RecordsChain(ops: seq<Op>, j: int, k: nat)
    requires var h := Run(EMPTY, ops).history;
             -1 <= j < k < |h| && (j >= 0 ==> h[j].accountId == h[k].accountId) &&
             NoneBetween(h, h[k].accountId, j, k)
    ensures var s := Run(EMPTY, ops); var h := s.history;
            && h[k].accountId in s.origin
            && h[k].from == if h[k].reason == AccountCreated then None
                            else Some(if j >= 0 then h[j].to else s.origin[h[k].accountId].status)
  {
    hide Run, InOrder, AccountInv, Fresh;
    RunInv(ops);
    var s := Run(EMPTY, ops);
    assert IdInv(s, s.history[k].accountId);
    LogChains(CoreOf(s.origin[s.history[k].accountId]), s.history, j, k);
  }

  lemma LogChains(c: Core, h: seq<Record>, j: int, k: nat)
    requires -1 <= j < k < |h| && LogOf(c, h, h[k].accountId)
    requires (j >= 0 ==> h[j].accountId == h[k].accountId) && NoneBetween(h, h[k].accountId, j, k)
    ensures h[k].from == if h[k].reason == AccountCreated then None
                         else Some(if j >= 0 then h[j].to else c.status)
  {
    hide Replay;
    var id := h[k].accountId;
    assert Linked(c, h, id, k);
    ReplaySkips(c, h, id, j + 1, k);
    if j >= 0 {
      assert Linked(c, h, id, j);
    } else {
      assert h[..0] == [];
      ReplayOfOthers(c, h[..0], id);
    }
  }

  /** The messages published in any run are the messages of committed records, in the order of the
      log, each record at most once. */
  lemma PublishedFollowsHistory(ops: seq<Op>)
    ensures var s := Run(EMPTY, ops);
            && |s.sent| == |s.published| && Increasing(s.sent)
            && forall i :: 0 <= i < |s.sent| ==>
                 s.sent[i] < |s.history| &&
                 var m, r := s.published[i], s.history[s.sent[i]];
                 && m.accountId == r.accountId && m.from == r.from && m.to == r.to
                 && m.reason == r.reason && m.initiator == r.initiator
                 && m.cooldownUntil == Stored(r.meta, "cooldown_until")
  {
    hide Run, IdInv;
    RunInv(ops);
  }

  /** History and messages are append-only, and accounts are never forgotten. */
  lemma {:induction false} RunAppends(s: System, ops: seq<Op>)
    ensures s.history <= Run(s, ops).history
    ensures s.published <= Run(s, ops).published
    ensures s.accounts.Keys <= Run(s, ops).accounts.Keys
  {
    hide Transited, EditOf, Fresh;
    if ops != [] {
      RunAppends(s, ops[..|ops| - 1]);
    }
  }

  // ---------------------------------------------------------------- the fingerprint

  predicate SameFingerprint(a: Account, b: Account) {
    forall f :: f in FINGERPRINT ==>
      (f in a.details <==> f in b.details) && (f in a.details ==> a.details[f] == b.details[f])
  }

  /** An update that names a fingerprint field is accepted exactly while the account is `created`. */
  lemma FingerprintLockExact(a: Account, values: map<string, Value>, f: string)
    requires f in FINGERPRINT && f in values
    ensures EditOf(a, values).Edited? <==> a.status == Created
  {
    assert f in FINGERPRINT * values.Keys;
  }

  /** An accepted update gives the named fields their new values and changes nothing else; it is refused
      exactly when it names one of the five fields after the account has left `created`. */
  lemma EditMeans(a: Account, values: map<string, Value>, f: string)
    ensures EditOf(a, values).FingerprintLocked? <==>
              && a.status != Created
              && ("device_model" in values || "system_version" in values || "app_version" in values ||
                  "lang_code" in values || "system_lang_code" in values)
    ensures EditOf(a, values).Edited? ==>
              var b := EditOf(a, values).account;
              && b == a.(details := b.details)
              && (f in b.details <==> f in values || f in a.details)
              && (f in values ==> b.details[f] == values[f])
              && (f in a.details && f !in values ==> b.details[f] == a.details[f])
  {
    var named := FINGERPRINT * values.Keys;
    if named != {} {
      var g :| g in named;
      assert g in values;
    }
    assert forall g :: g in FINGERPRINT && g in values ==> g in named;
    assert "device_model" in FINGERPRINT && "system_version" in FINGERPRINT && "app_version" in FINGERPRINT
        && "lang_code" in FINGERPRINT && "system_lang_code" in FINGERPRINT;
  }

  /** An update reaches its own account and no other; afterwards that account has the values given, unless the
      update is refused. */
  lemma UpdateReaches(s: System, id: int, values: map<string, Value>, f: string)
    ensures var t := Updated(s, id, values);
            && t == s.(accounts := t.accounts) && t.accounts.Keys == s.accounts.Keys
            && (forall other :: other in s.accounts && other != id ==> t.accounts[other] == s.accounts[other])
            && (id in s.accounts && EditOf(s.accounts[id], values).FingerprintLocked? ==> t == s)
            && (id in s.accounts && EditOf(s.accounts[id], values).Edited? && f in values ==>
                  f in t.accounts[id].details && t.accounts[id].details[f] == values[f])
  {
    hide FINGERPRINT;
  }

  lemma EditKeepsFingerprint(a: Account, values: map<string, Value>)
    requires a.status != Created
    ensures EditOf(a, values).Edited? ==>
              SameFingerprint(a, EditOf(a, values).account) && EditOf(a, values).account.status == a.status
  {
    hide FINGERPRINT;
    if FINGERPRINT * values.Keys == {} {
      forall f | f in FINGERPRINT
        ensures f !in values.Keys
      {
        assert f in FINGERPRINT * values.Keys <==> f in values.Keys;
      }
    }
  }

  lemma StepFreezes(s: System, op: Op, id: int)
    requires id in s.accounts && s.accounts[id].status != Created
    ensures id in Step(s, op).accounts && Step(s, op).accounts[id].status != Created
    ensures SameFingerprint(s.accounts[id], Step(s, op).accounts[id])
  {
    hide Transited, EditOf, Fresh, FINGERPRINT, After, MessageOf, JsonMeta, Row, DataPresent;
    match op
    case Add(_, _) =>
    case Update(other, values) =>
      if other == id {
        EditKeepsFingerprint(s.accounts[id], values);
      }
    case Repoint(_, _, _) =>
    case Fire(other, event, initiator, meta, now, _) =>
      if other == id {
        TableMeansAfter(id, s.accounts[id], event, initiator, meta, now);
        AfterLeavesCreated(s.accounts[id], event, meta, now);
      }
  }

  lemma AfterLeavesCreated(a: Account, event: Event, meta: Meta, now: int)
    ensures After(a, event, meta, now).details == a.details
    ensures Row(event, a).Some? && a.status != Created ==> After(a, event, meta, now).status != Created
  {
    hide Get;
  }

  /** Once an account has left `created` it never returns there, and no mix of events and updates
      changes any of its five fingerprint fields. */
  lemma {:induction false} FingerprintFrozen(s: System, ops: seq<Op>, id: int)
    requires id in s.accounts && s.accounts[id].status != Created
    ensures id in Run(s, ops).accounts && Run(s, ops).accounts[id].status != Created
    ensures SameFingerprint(s.accounts[id], Run(s, ops).accounts[id])
  {
    hide Step, FINGERPRINT;
    if ops != [] {
      FingerprintFrozen(s, ops[..|ops| - 1], id);
      StepFreezes(Run(s, ops[..|ops| - 1]), ops[|ops| - 1], id);
    }
  }

  // ---------------------------------------------------------------- the services

  function EventName(e: Event): string {
    match e
    case AccountCreated => "account.created"
    case WarmingStart => "warming.start"
    case WarmingCompleted => "warming.completed"
    case ContainerAttach => "container.attach"
    case ContainerDetach => "container.detach"
    case HealthIncident => "health.incident"
    case CooldownExpired => "cooldown.expired"
    case Retire => "account.retire"
    case Restore => "account.restore"
    case BanDetected => "health.ban_detected"
    case AcknowledgeBan => "account.acknowledge_ban"
  }

  const EVENTS: seq<Event> := [AccountCreated, WarmingStart, WarmingCompleted, ContainerAttach, ContainerDetach,
                               HealthIncident, CooldownExpired, Retire, Restore, BanDetected, AcknowledgeBan]

  function InitiatorName(i: Initiator): string {
    match i
    case User => "user"
    case Auto => "auto"
    case Health => "health"
  }

  /** The values of the enum, in its order. */
  const EVENT_NAMES: seq<string> := [
    "account.created", "warming.start", "warming.completed", "container.attach", "container.detach", "health.incident",
    "cooldown.expired", "account.retire", "account.restore", "health.ban_detected", "account.acknowledge_ban"]

  lemma NamesAsListed(k: nat)
    requires k < |EVENTS|
    ensures |EVENT_NAMES| == |EVENTS| && EventName(EVENTS[k]) == EVENT_NAMES[k]
  {
  }

  /** The enum lookup of an event by its value. */
  method ParseEvent(name: string) returns (e: Option<Event>)
    ensures e.Some? ==> EventName(e.value) == name
    ensures e.None? ==> forall x: Event :: EventName(x) != name
  {
    hide EventName;
    for k := 0 to |EVENTS|
      invariant forall j :: 0 <= j < k ==> EventName(EVENTS[j]) != name
    {
      if EventName(EVENTS[k]) == name {
        return Some(EVENTS[k]);
      }
    }
    forall x: Event
      ensures EventName(x) != name
    {
      var j := IndexOf(x);
      assert EVENTS[j] == x;
    }
    return None;
  }

  lemma IndexOf(x: Event) returns (j: nat)
    ensures j < |EVENTS| && EVENTS[j] == x
  {
    j := if x.AccountCreated? then 0 else if x.WarmingStart? then 1 else if x.WarmingCompleted? then 2
         else if x.ContainerAttach? then 3 else if x.ContainerDetach? then 4 else if x.HealthIncident? then 5
         else if x.CooldownExpired? then 6 else if x.Retire? then 7 else if x.Restore? then 8
         else if x.BanDetected? then 9 else 10;
  }

  class AccountStateMachine {
    var accounts: map<int, Account>
    var history: seq<Record>
    var published: seq<Message>
    ghost var origin: map<int, Account>
    ghost var sent: seq<nat>

    ghost function State(): System
      reads this
    {
      System(accounts, history, published, origin, sent)
    }

    constructor ()
      ensures State() == EMPTY
    {
      accounts, history, published, origin, sent := map[], [], [], map[], [];
    }

    /** A row inserted by account creation, or by an import. */
    method Insert(id: int, a: Account)
      requires Fresh(a) && id !in accounts
      modifies this
      ensures State() == Added(old(State()), id, a)
    {
      accounts := accounts[id := a];
      origin := origin[id := a];
    }

    /** `transition`. */
    method Transition(id: int, eventName: string, initiatorName: string, meta: Meta, now: int, delivery: Delivery)
      returns (r: Reply)
      modifies this
      ensures (forall e: Event :: EventName(e) != eventName) ==>
                State() == old(State()) && r == Failed(UnknownEvent)
      ensures forall e: Event :: EventName(e) == eventName ==>
                if exists i: Initiator :: InitiatorName(i) == initiatorName then
                  exists i: Initiator :: InitiatorName(i) == initiatorName &&
                    (State(), r) == Fired(old(State()), id, e, i, meta, now, delivery)
                else State() == old(State()) && r == Failed(UnknownInitiator)
    {
      hide EventName, InitiatorName, Resolved, MetaOk, JsonMeta, MessageOf, Effected, TRANSITIONS;
      var event := ParseEvent(eventName);
      if event.None? {
        return Failed(UnknownEvent);
      }
      NamesDiffer(event.value);
      var initiator := ParseInitiator(initiatorName);
      if initiator.None? {
        return Failed(UnknownInitiator);
      }
      if id !in accounts {
        return Failed(UnknownAccount);
      }
      var account := accounts[id];
      var found := Resolve(event.value, account, initiator.value);
      if found.Refused? {
        return Failed(found.error);
      }
      var rule := found.rule;
      if !MetaOk(rule, meta) {
        return Failed(MissingMeta);
      }
      var from := FromStatus(rule, account);
      account := ApplyEffects(account, rule, meta, from, now);
      account := account.(status := rule.to);
      var entry := Record(id, from, rule.to, event.value, initiator.value, JsonMeta(meta));
      accounts := accounts[id := account];
      history := history + [entry];
      if delivery.NoPublisher? {
        return Done(account);
      }
      if delivery.Lost? {
        return Failed(PublishFailed);
      }
      published := published + [MessageOf(entry)];
      sent := sent + [|history| - 1];
      return Done(account);
    }

    /** The re-pointing of an account that stays attached to another campaign. */
    method Repoint(id: int, from: int, to: int)
      modifies this`accounts
      ensures State() == Redirected(old(State()), id, from, to)
    {
      if id in accounts {
        var account := accounts[id];
        if account.containerType == Text("commenting") && account.containerId == Number(from) {
          account := account.(containerId := Number(to));
        }
        accounts := accounts[id := account];
      }
    }

    /** The repository's `update`; `None` when there is no such account. */
    method Update(id: int, values: map<string, Value>) returns (r: Option<Edit>)
      modifies this`accounts
      ensures State() == Updated(old(State()), id, values)
      ensures r == if id in old(accounts) then Some(EditOf(old(accounts)[id], values)) else None
    {
      hide FINGERPRINT;
      if id !in accounts {
        return None;
      }
      var account := accounts[id];
      if FINGERPRINT * values.Keys != {} && account.status != Created {
        return Some(FingerprintLocked);
      }
      var details := account.details;
      var todo := values.Keys;
      while todo != {}
        invariant todo <= values.Keys
        invariant details == account.details + (map k | k in values && k !in todo :: values[k])
        modifies {}
      {
        var k :| k in todo;
        details := details[k := values[k]];
        todo := todo - {k};
      }
      assert details == account.details + values;
      accounts := accounts[id := account.(details := details)];
      return Some(Edited(account.(details := details)));
    }
  }

  method ParseInitiator(name: string) returns (i: Option<Initiator>)
    ensures i.Some? ==> InitiatorName(i.value) == name
    ensures i.None? ==> forall x: Initiator :: InitiatorName(x) != name
  {
    if name == "user" {
      return Some(User);
    }
    if name == "auto" {
      return Some(Auto);
    }
    if name == "health" {
      return Some(Health);
    }
    return None;
  }

  /** No two events share a name. */
  lemma NamesDiffer(e: Event)
    ensures forall x: Event :: EventName(x) == EventName(e) ==> x == e
  {
  }
}
