/** Database sessions that overlap on the same accounts (core/state_machine/account.py,
    core/repositories/account.py, worker/tasks/handlers.py).

    The API and the worker are separate processes, and nothing locks an account while a transition is
    decided.  A session reads an account once and keeps its copy, also after a commit (the session
    factories set `expire_on_commit` to false); only a rollback drops the copies.  A commit writes back
    the columns that the session has changed, and no others; if a row would then violate a check
    constraint of the table, the session is rolled back.  Messages are published after the commit. */
module AccountRaces {
  import opened Wrappers
  import opened AccountMachine
  import opened AccountRuns

  /** An account as the session read it, and as the session has changed it since. */
  datatype Copy = Copy(loaded: Account, current: Account)

  /** `pending` are the records added since the last commit, `outbox` the committed records, by their
      place in the history, that the session is about to publish. */
  datatype Session = Session(copies: map<int, Copy>, pending: seq<Record>, outbox: seq<nat>)

  /** Committed tables, the messages published so far with the records they are about and the sessions
      that sent them, and the open sessions. */
  datatype State = State(rows: map<int, Account>, history: seq<Record>, published: seq<Message>,
                         sent: seq<nat>, senders: seq<nat>, sessions: seq<Session>)

  datatype Step =
    | Load(t: nat, id: int)
    | Decide(t: nat, id: int, event: Event, initiator: Initiator, meta: Meta, now: int)
    | Change(t: nat, id: int, values: map<string, Value>)
    | Redirect(t: nat, id: int, from: int, to: int)
    | Save(t: nat)
    | Undo(t: nat)
    | Publish(t: nat)
    | Drop(t: nat)

  // ---------------------------------------------------------------- writing back

  function MergedDetails(row: map<string, Value>, loaded: map<string, Value>, current: map<string, Value>)
    : map<string, Value>
  {
    row + (map k | k in current && !(k in loaded && loaded[k] == current[k]) :: current[k])
  }

  /** The committed row after the changed columns of a copy are written to it. */
  function Merge(row: Account, c: Copy): Account {
    var l, n := c.loaded, c.current;
    Account(Column(row.status, l.status, n.status),
            Column(row.previous, l.previous, n.previous),
            Column(row.containerType, l.containerType, n.containerType),
            Column(row.containerId, l.containerId, n.containerId),
            Column(row.cooldownUntil, l.cooldownUntil, n.cooldownUntil),
            Column(row.warmingStartedAt, l.warmingStartedAt, n.warmingStartedAt),
            Column(row.activatedAt, l.activatedAt, n.activatedAt),
            MergedDetails(row.details, l.details, n.details))
  }

  function WrittenBack(rows: map<int, Account>, copies: map<int, Copy>): map<int, Account> {
    map id | id in rows :: if id in copies then Merge(rows[id], copies[id]) else rows[id]
  }

  /** The database accepts what the session writes. */
  predicate Admitted(rows: map<int, Account>, copies: map<int, Copy>) {
    forall id :: id in rows && id in copies ==> TableOk(Merge(rows[id], copies[id]))
  }

  function Settled(copies: map<int, Copy>): map<int, Copy> {
    map id | id in copies :: Copy(copies[id].current, copies[id].current)
  }

  /** The places of the records that a commit appends. */
  function Places(n: nat, count: nat): (r: seq<nat>)
    ensures |r| == count && forall k :: 0 <= k < count ==> r[k] == n + k
  {
    if count == 0 then [] else Places(n, count - 1) + [n + count - 1]
  }

  // ---------------------------------------------------------------- steps

  predicate Enabled(s: State, step: Step) {
    step.t < |s.sessions| &&
    var me := s.sessions[step.t];
    match step
    case Load(_, id) => id in s.rows && id !in me.copies
    case Decide(_, id, event, initiator, meta, now) =>
      id in me.copies && Transited(id, me.copies[id].current, event, initiator, meta, now).Commit?
    case Change(_, id, values) => id in me.copies && EditOf(me.copies[id].current, values).Edited?
    case Redirect(_, id, from, _) => id in me.copies && Leads(me.copies[id].current, from)
    case Publish(_) => me.outbox != [] && me.outbox[0] < |s.history|
    case Drop(_) => me.outbox != []
    case _ => true
  }

  /** What the session itself becomes; a step that is refused, or finds nothing to do, changes nothing. */
  function Local(s: State, step: Step): Session
    requires Enabled(s, step)
  {
    var me := s.sessions[step.t];
    match step
    case Load(_, id) => me.(copies := me.copies[id := Copy(s.rows[id], s.rows[id])])
    case Decide(_, id, event, initiator, meta, now) =>
      var c := me.copies[id];
      var o := Transited(id, c.current, event, initiator, meta, now);
      me.(copies := me.copies[id := c.(current := o.account)], pending := me.pending + [o.record])
    case Change(_, id, values) =>
      var c := me.copies[id];
      me.(copies := me.copies[id := c.(current := EditOf(c.current, values).account)])
    case Redirect(_, id, from, to) =>
      var c := me.copies[id];
      me.(copies := me.copies[id := c.(current := Repointed(c.current, from, to))])
    case Save(_) =>
      if Admitted(s.rows, me.copies) then
        Session(Settled(me.copies), [], me.outbox + Places(|s.history|, |me.pending|))
      else me.(copies := map[], pending := [])
    case Undo(_) => me.(copies := map[], pending := [])
    case Publish(_) => me.(outbox := me.outbox[1..])
    case Drop(_) => me.(outbox := me.outbox[1..])
  }

  function Next(s: State, step: Step): State {
    if !Enabled(s, step) then s
    else
      var me := s.sessions[step.t];
      var t := s.(sessions := s.sessions[step.t := Local(s, step)]);
      match step
      case Save(_) =>
        if Admitted(s.rows, me.copies) then
          t.(rows := WrittenBack(s.rows, me.copies), history := s.history + me.pending)
        else t
      case Publish(_) =>
        t.(published := s.published + [MessageOf(s.history[me.outbox[0]])],
           sent := s.sent + [me.outbox[0]], senders := s.senders + [step.t])
      case _ => t
  }

  function Run(s: State, steps: seq<Step>): State {
    if steps == [] then s else Next(Run(s, steps[..|steps| - 1]), steps[|steps| - 1])
  }

  /** Sessions are new, and every account satisfies the invariant. */
  predicate Start(s: State) {
    && s.history == [] && s.published == [] && s.sent == [] && s.senders == []
    && (forall id :: id in s.rows ==> AccountInv(s.rows[id]))
    && (forall t :: 0 <= t < |s.sessions| ==> s.sessions[t] == Session(map[], [], []))
  }

  // ---------------------------------------------------------------- one commit through a copy

  /** The columns that decide what the machine may do. */
  predicate SameState(a: Account, b: Account) {
    && a.status == b.status && a.previous == b.previous && a.cooldownUntil == b.cooldownUntil
    && a.containerType == b.containerType && a.containerId == b.containerId
  }

  /** The table accepts an event that was decided on the loaded copy.  Only an attachment can be refused:
      if it writes one of the two container columns, the row must have the other. */
  predicate Accepted(row: Account, loaded: Account, event: Event, meta: Meta) {
    event == ContainerAttach ==>
      HasContainer(row) || (Get(meta, "container_type") == loaded.containerType <==>
                            Get(meta, "container_id") == loaded.containerId)
  }

  /** What the other columns of the row must be for an event, decided on the loaded copy and accepted, to
      leave a good row behind. */
  predicate Safe(row: Account, loaded: Account, event: Event, meta: Meta) {
    match event
    case AccountCreated | ContainerDetach => true
    case WarmingStart | WarmingCompleted | AcknowledgeBan | Restore => NoContainer(row)
    case Retire | BanDetected => NoContainer(row) || HasContainer(loaded)
    case ContainerAttach => HasContainer(row) || Get(meta, "container_type") != loaded.containerType
    case CooldownExpired => NoContainer(row) <==> loaded.previous == Some(Pool)
    case HealthIncident =>
      var previous := Column(row.previous, loaded.previous, Some(loaded.status));
      && previous.Some?
      && (HasContainer(row) <==> previous == Some(Assigned))
      && Column(row.cooldownUntil, loaded.cooldownUntil, Get(meta, "cooldown_until")) != Null
  }

  /** The copy has had one event since it was loaded, and perhaps updates of other columns. */
  predicate HadEvent(c: Copy, event: Event, meta: Meta) {
    Row(event, c.loaded).Some? && DataPresent(event, meta) && SameState(c.current, After(c.loaded, event, meta, 0))
  }

  /** Writing back a copy that has had an event. */
  lemma MergeExact(row: Account, c: Copy, event: Event, meta: Meta)
    requires AccountInv(row) && AccountInv(c.loaded) && HadEvent(c, event, meta)
    ensures TableOk(Merge(row, c)) <==> Accepted(row, c.loaded, event, meta)
    ensures TableOk(Merge(row, c)) ==> (AccountInv(Merge(row, c)) <==> Safe(row, c.loaded, event, meta))
  {
    hide Get, MergedDetails;
  }

  lemma JustHadEvent(loaded: Account, id: int, event: Event, initiator: Initiator, meta: Meta, now: int)
    requires Transited(id, loaded, event, initiator, meta, now).Commit?
    ensures HadEvent(Copy(loaded, Transited(id, loaded, event, initiator, meta, now).account), event, meta)
  {
    hide Transited, Get, JsonMeta, Row;
    TableMeansAfter(id, loaded, event, initiator, meta, now);
  }

  /** One event is committed through a copy.  The table refuses it exactly when it is an attachment that
      writes one container column to a row without a container; otherwise it keeps the account invariant
      exactly when the row is safe for it, and writes a true record, one that starts from the row's status
      and ends in it, exactly when the row's status is still the one that was read. */
  lemma CommitExact(row: Account, loaded: Account, id: int, event: Event, initiator: Initiator, meta: Meta, now: int)
    requires AccountInv(row) && AccountInv(loaded)
    requires Transited(id, loaded, event, initiator, meta, now).Commit?
    ensures var o := Transited(id, loaded, event, initiator, meta, now);
            var merged := Merge(row, Copy(loaded, o.account));
            && (TableOk(merged) <==> Accepted(row, loaded, event, meta))
            && (TableOk(merged) ==> (AccountInv(merged) <==> Safe(row, loaded, event, meta)))
            && ((o.record.from in {None, Some(row.status)} && o.record.to == merged.status) <==>
                row.status == loaded.status)
  {
    var o := Transited(id, loaded, event, initiator, meta, now);
    JustHadEvent(loaded, id, event, initiator, meta, now);
    MergeExact(row, Copy(loaded, o.account), event, meta);
    hide Transited, Get, MergedDetails, JsonMeta, Accepted, Safe, AccountInv, TableOk;
    TableMeansAfter(id, loaded, event, initiator, meta, now);
  }

  lemma SameStateIsSafe(row: Account, loaded: Account, event: Event, meta: Meta)
    requires AccountInv(loaded) && SameState(row, loaded) && Row(event, loaded).Some? && DataPresent(event, meta)
    ensures Safe(row, loaded, event, meta) && Accepted(row, loaded, event, meta)
  {
    hide Get;
  }

  lemma SameStateSameInv(a: Account, b: Account)
    requires SameState(a, b)
    ensures AccountInv(a) <==> AccountInv(b)
  {
  }

  /** In particular an event committed to a row in the state that was read is accepted, keeps the account
      invariant and writes a true record. */
  lemma FreshCommitIsGood(row: Account, loaded: Account, id: int, event: Event, initiator: Initiator, meta: Meta,
                          now: int)
    requires AccountInv(loaded) && SameState(row, loaded)
    requires Transited(id, loaded, event, initiator, meta, now).Commit?
    ensures var o := Transited(id, loaded, event, initiator, meta, now);
            var merged := Merge(row, Copy(loaded, o.account));
            TableOk(merged) && AccountInv(merged) &&
            o.record.from in {None, Some(row.status)} && o.record.to == merged.status
  {
    hide Transited, Safe, Accepted, AccountInv, TableOk, Merge;
    TableMeansAfter(id, loaded, event, initiator, meta, now);
    SameStateSameInv(row, loaded);
    SameStateIsSafe(row, loaded, event, meta);
    CommitExact(row, loaded, id, event, initiator, meta, now);
  }

  /** Writing back a copy that was re-pointed to another campaign. */
  lemma RepointMerge(row: Account, c: Copy, to: int)
    requires AccountInv(row) && HasContainer(c.loaded) && c.loaded.containerId != Number(to)
    requires SameState(c.current, c.loaded.(containerId := Number(to)))
    ensures TableOk(Merge(row, c)) <==> HasContainer(row)
    ensures TableOk(Merge(row, c)) ==> AccountInv(Merge(row, c))
  {
    hide MergedDetails;
  }

  /** A re-pointing is accepted exactly when the row still has a container, and an accepted one keeps the
      account invariant. */
  lemma RepointExact(row: Account, loaded: Account, from: int, to: int)
    requires AccountInv(row) && AccountInv(loaded) && Leads(loaded, from) && from != to
    ensures var merged := Merge(row, Copy(loaded, Repointed(loaded, from, to)));
            && (TableOk(merged) <==> HasContainer(row))
            && (TableOk(merged) ==> AccountInv(merged))
  {
    hide Merge, AccountInv, TableOk;
    RepointMerge(row, Copy(loaded, Repointed(loaded, from, to)), to);
  }

  /** Committing an update through a copy keeps the fingerprint of a row that has left `created`
      exactly when it does not write a new value to one of the five fields, which takes a copy that was
      read before the account left. */
  lemma EditExact(row: Account, loaded: Account, values: map<string, Value>)
    requires row.status != Created && EditOf(loaded, values).Edited?
    ensures SameFingerprint(row, Merge(row, Copy(loaded, EditOf(loaded, values).account))) <==>
              loaded.status != Created ||
              forall f :: f in FINGERPRINT && f in values ==>
                (f in loaded.details && loaded.details[f] == values[f]) ||
                (f in row.details && row.details[f] == values[f])
  {
    hide FINGERPRINT;
    var merged := Merge(row, Copy(loaded, EditOf(loaded, values).account));
    if loaded.status != Created {
      forall f | f in FINGERPRINT
        ensures f !in values
      {
        assert f in FINGERPRINT * values.Keys <==> f in values;
      }
    }
  }

  // ---------------------------------------------------------------- outdated commits

  /** The session has something of its own about the account to commit. */
  predicate Touched(me: Session, id: int)
    requires id in me.copies
  {
    me.copies[id].current != me.copies[id].loaded ||
    exists k :: 0 <= k < |me.pending| && me.pending[k].accountId == id
  }

  /** The session is about to commit changes to an account whose state has changed since it was read. */
  ghost predicate Outdated(s: State, step: Step) {
    step.Save? && step.t < |s.sessions| &&
    exists id :: id in s.sessions[step.t].copies && id in s.rows && Touched(s.sessions[step.t], id) &&
                 !SameState(s.rows[id], s.sessions[step.t].copies[id].loaded)
  }

  ghost predicate NoneOutdated(s: State, steps: seq<Step>) {
    steps != [] ==>
      NoneOutdated(s, steps[..|steps| - 1]) && !Outdated(Run(s, steps[..|steps| - 1]), steps[|steps| - 1])
  }

  // ---------------------------------------------------------------- what such runs keep

  /** How an account may have developed from one copy to another, and what its records say. */
  ghost predicate Developed(a: Account, b: Account, records: seq<Record>, id: int) {
    && AccountInv(b)
    && CoreOf(b) == Replay(CoreOf(a), records, id)
    && LogOf(CoreOf(a), records, id)
    && (a.status != Created ==> b.status != Created && SameFingerprint(a, b))
  }

  ghost predicate SessionOk(rows: map<int, Account>, me: Session) {
    && (forall id :: id in me.copies ==>
          id in rows && AccountInv(me.copies[id].loaded) &&
          Developed(me.copies[id].loaded, me.copies[id].current, me.pending, id))
    && (forall k :: 0 <= k < |me.pending| ==> me.pending[k].accountId in me.copies)
  }

  ghost predicate RowsOk(s0: State, s: State) {
    && s.rows.Keys == s0.rows.Keys
    && (forall id :: id in s.rows ==> Developed(s0.rows[id], s.rows[id], s.history, id))
    && (forall k :: 0 <= k < |s.history| ==> s.history[k].accountId in s.rows)
  }

  ghost predicate Inv(s0: State, s: State) {
    RowsOk(s0, s) && forall t :: 0 <= t < |s.sessions| ==> SessionOk(s.rows, s.sessions[t])
  }

  lemma Undeveloped(a: Account, records: seq<Record>, id: int)
    requires AccountInv(a) && forall k :: 0 <= k < |records| ==> records[k].accountId != id
    ensures Developed(a, a, records, id)
  {
    hide Replay, AccountInv, CoreOf;
    ReplayOfOthers(CoreOf(a), records, id);
  }

  /** An event on the copy in hand. */
  lemma FireDevelops(a: Account, b: Account, records: seq<Record>, id: int, event: Event, initiator: Initiator,
                     meta: Meta, now: int)
    requires Developed(a, b, records, id) && Transited(id, b, event, initiator, meta, now).Commit?
    ensures var o := Transited(id, b, event, initiator, meta, now);
            Developed(a, o.account, records + [o.record], id)
  {
    hide Transited, AccountInv, Replay, LogOf, CoreOf, After, Redo, Row, DataPresent, Linked, JsonMeta, FINGERPRINT;
    var o := Transited(id, b, event, initiator, meta, now);
    TableMeansAfter(id, b, event, initiator, meta, now);
    ReplaySnoc(CoreOf(a), records, o.record, id);
    RedoIsAfter(b, event, meta, now);
    AfterKeepsInv(b, event, meta, now);
    AfterLeavesCreated(b, event, meta, now);
    NewRecordLinked(CoreOf(a), records, o.record, b, o.account);
    LogSnoc(CoreOf(a), records, o.record, id);
  }

  lemma OtherRecord(a: Account, b: Account, records: seq<Record>, r: Record, id: int)
    requires Developed(a, b, records, id) && r.accountId != id
    ensures Developed(a, b, records + [r], id)
  {
    hide AccountInv, Replay, LogOf, CoreOf, Redo, Linked, FINGERPRINT;
    ReplaySnoc(CoreOf(a), records, r, id);
    LogSnoc(CoreOf(a), records, r, id);
  }

  lemma EditDevelops(a: Account, b: Account, records: seq<Record>, id: int, values: map<string, Value>)
    requires Developed(a, b, records, id) && EditOf(b, values).Edited?
    ensures Developed(a, EditOf(b, values).account, records, id)
  {
    hide Replay, LogOf, FINGERPRINT;
    if b.status != Created {
      EditKeepsFingerprint(b, values);
    }
  }

  lemma RepointDevelops(a: Account, b: Account, records: seq<Record>, id: int, from: int, to: int)
    requires Developed(a, b, records, id)
    ensures Developed(a, Repointed(b, from, to), records, id)
  {
    hide Replay, LogOf, FINGERPRINT;
  }

  // ---------------------------------------------------------------- joining two developments

  lemma {:induction false} ReplayConcat(c: Core, h: seq<Record>, p: seq<Record>, id: int)
    ensures Replay(c, h + p, id) == Replay(Replay(c, h, id), p, id)
  {
    hide Redo;
    if p == [] {
      assert h + p == h;
    } else {
      var front, r := p[..|p| - 1], p[|p| - 1];
      assert p == front + [r] && h + p == (h + front) + [r];
      ReplayConcat(c, h, front, id);
      ReplaySnoc(c, h + front, r, id);
      ReplaySnoc(Replay(c, h, id), front, r, id);
    }
  }

  lemma LogConcat(c: Core, h: seq<Record>, p: seq<Record>, id: int)
    requires LogOf(c, h, id) && LogOf(Replay(c, h, id), p, id)
    ensures LogOf(c, h + p, id)
  {
    hide Replay;
    forall k | 0 <= k < |h + p| && (h + p)[k].accountId == id
      ensures Linked(c, h + p, id, k)
    {
      if k < |h| {
        assert Linked(c, h, id, k);
        assert (h + p)[..k] == h[..k] && (h + p)[..k + 1] == h[..k + 1];
      } else {
        var j := k - |h|;
        assert Linked(Replay(c, h, id), p, id, j);
        assert (h + p)[..k] == h + p[..j] && (h + p)[..k + 1] == h + p[..j + 1];
        ReplayConcat(c, h, p[..j], id);
        ReplayConcat(c, h, p[..j + 1], id);
      }
    }
  }

  lemma DevelopedTwice(a: Account, b: Account, c: Account, h: seq<Record>, p: seq<Record>, id: int)
    requires Developed(a, b, h, id) && Developed(b, c, p, id)
    ensures Developed(a, c, h + p, id)
  {
    hide AccountInv, Replay, LogOf, CoreOf, FINGERPRINT;
    ReplayConcat(CoreOf(a), h, p, id);
    LogConcat(CoreOf(a), h, p, id);
  }

  /** Writing the changes of a copy to a row in the same state develops the row as it did the copy. */
  lemma MergeDevelops(row: Account, c: Copy, p: seq<Record>, id: int)
    requires AccountInv(row) && Developed(c.loaded, c.current, p, id) && SameState(row, c.loaded)
    ensures Developed(row, Merge(row, c), p, id)
  {
    hide Replay, LogOf, FINGERPRINT;
    assert CoreOf(row) == CoreOf(c.loaded);
    var merged := Merge(row, c);
    assert SameState(merged, c.current);
    assert CoreOf(merged) == CoreOf(c.current);
  }

  /** A copy without changes writes nothing. */
  lemma MergeNothing(row: Account, c: Copy)
    requires c.current == c.loaded
    ensures Merge(row, c) == row
  {
    assert MergedDetails(row.details, c.loaded.details, c.current.details) == row.details;
  }

  /** Written back to the row as it was loaded, a copy is what the session has made of it. */
  lemma MergeUnchanged(c: Copy)
    requires c.loaded.details.Keys <= c.current.details.Keys
    ensures Merge(c.loaded, c) == c.current
  {
  }

  lemma CommitRow(s0: State, s: State, step: Step, id: int)
    requires Inv(s0, s) && Enabled(s, step) && step.Save? && !Outdated(s, step) && id in s.rows
    requires Admitted(s.rows, s.sessions[step.t].copies)
    ensures var t := Next(s, step);
            id in s0.rows && id in t.rows && Developed(s0.rows[id], t.rows[id], t.history, id)
  {
    hide Developed, SameState, Merge, AccountInv, Admitted;
    var me := s.sessions[step.t];
    assert SessionOk(s.rows, me);
    DevelopedInv(s0.rows[id], s.rows[id], s.history, id);
    if id in me.copies && Touched(me, id) {
      MergeDevelops(s.rows[id], me.copies[id], me.pending, id);
    } else {
      Undeveloped(s.rows[id], me.pending, id);
      if id in me.copies {
        MergeNothing(s.rows[id], me.copies[id]);
      }
    }
    DevelopedTwice(s0.rows[id], s.rows[id], Next(s, step).rows[id], s.history, me.pending, id);
  }

  lemma DevelopedInv(a: Account, b: Account, records: seq<Record>, id: int)
    requires Developed(a, b, records, id)
    ensures AccountInv(b)
  {
  }

  lemma CommitKeepsRows(s0: State, s: State, step: Step)
    requires Inv(s0, s) && Enabled(s, step) && step.Save? && !Outdated(s, step)
    ensures RowsOk(s0, Next(s, step))
  {
    hide Developed, Merge, Outdated, Admitted;
    var t := Next(s, step);
    assert SessionOk(s.rows, s.sessions[step.t]);
    assert t.rows.Keys == s.rows.Keys;
    if Admitted(s.rows, s.sessions[step.t].copies) {
      forall id | id in t.rows
        ensures Developed(s0.rows[id], t.rows[id], t.history, id)
      {
        CommitRow(s0, s, step, id);
      }
    }
  }

  lemma LocalOk(s0: State, s: State, step: Step)
    requires Inv(s0, s) && Enabled(s, step)
    ensures SessionOk(s.rows, Local(s, step))
  {
    hide Developed, Transited, EditOf, Repointed, AccountInv, Leads, Admitted;
    var me, you := s.sessions[step.t], Local(s, step);
    assert SessionOk(s.rows, me);
    forall id | id in you.copies
      ensures id in s.rows && AccountInv(you.copies[id].loaded)
      ensures Developed(you.copies[id].loaded, you.copies[id].current, you.pending, id)
    {
      LocalCopyOk(s0, s, step, id);
    }
    if step.Decide? {
      RecordNamesAccount(step.id, me.copies[step.id].current, step.event, step.initiator, step.meta, step.now);
    }
  }

  lemma LocalCopyOk(s0: State, s: State, step: Step, id: int)
    requires Inv(s0, s) && Enabled(s, step) && id in Local(s, step).copies
    ensures var you := Local(s, step);
            && id in s.rows && AccountInv(you.copies[id].loaded)
            && Developed(you.copies[id].loaded, you.copies[id].current, you.pending, id)
  {
    hide Developed, Transited, EditOf, Repointed, AccountInv, Leads, Admitted;
    var me := s.sessions[step.t];
    assert SessionOk(s.rows, me);
    match step
    case Load(_, i) =>
      if i == id {
        DevelopedInv(s0.rows[id], s.rows[id], s.history, id);
        Undeveloped(s.rows[id], me.pending, id);
      }
    case Decide(_, i, event, initiator, meta, now) =>
      var c := me.copies[i];
      RecordNamesAccount(i, c.current, event, initiator, meta, now);
      if i == id {
        FireDevelops(c.loaded, c.current, me.pending, id, event, initiator, meta, now);
      } else {
        OtherRecord(me.copies[id].loaded, me.copies[id].current, me.pending,
                    Transited(i, c.current, event, initiator, meta, now).record, id);
      }
    case Change(_, i, values) =>
      if i == id {
        EditDevelops(me.copies[id].loaded, me.copies[id].current, me.pending, id, values);
      }
    case Redirect(_, i, from, to) =>
      if i == id {
        RepointDevelops(me.copies[id].loaded, me.copies[id].current, me.pending, id, from, to);
      }
    case Save(_) =>
      DevelopedInv(me.copies[id].loaded, me.copies[id].current, me.pending, id);
      Undeveloped(me.copies[id].current, [], id);
    case Undo(_) =>
    case Publish(_) =>
    case Drop(_) =>
  }

  lemma StepInv(s0: State, s: State, step: Step)
    requires Inv(s0, s) && !Outdated(s, step)
    ensures Inv(s0, Next(s, step))
  {
    hide Developed, Enabled, Local, Outdated, WrittenBack, AccountInv;
    if Enabled(s, step) {
      EnabledSession(s, step);
      var t := Next(s, step);
      if step.Save? {
        CommitKeepsRows(s0, s, step);
      }
      LocalOk(s0, s, step);
      forall u | 0 <= u < |t.sessions|
        ensures SessionOk(t.rows, t.sessions[u])
      {
        SessionFrame(s.rows, t.rows, if u == step.t then Local(s, step) else s.sessions[u]);
      }
    }
  }

  lemma NotEnabled(s: State, step: Step)
    requires !Enabled(s, step)
    ensures Next(s, step) == s
  {
  }

  lemma EnabledSession(s: State, step: Step)
    requires Enabled(s, step)
    ensures step.t < |s.sessions|
    ensures Next(s, step).rows.Keys == s.rows.Keys
  {
  }

  lemma SessionFrame(rows: map<int, Account>, after: map<int, Account>, me: Session)
    requires SessionOk(rows, me) && after.Keys == rows.Keys
    ensures SessionOk(after, me)
  {
    hide Developed, AccountInv;
  }

  lemma StartInv(s: State)
    requires Start(s)
    ensures Inv(s, s)
  {
    hide AccountInv, Developed;
    forall id | id in s.rows
      ensures Developed(s.rows[id], s.rows[id], s.history, id)
    {
      Undeveloped(s.rows[id], [], id);
    }
  }

  /** In every interleaving in which no session commits through an outdated copy, accounts keep their
      invariant and their records replay and link. */
  lemma {:induction false} RunInv(s: State, steps: seq<Step>)
    requires Start(s) && NoneOutdated(s, steps)
    ensures Inv(s, Run(s, steps))
  {
    hide Inv, Next, Outdated, Start;
    if steps == [] {
      StartInv(s);
    } else {
      RunInv(s, steps[..|steps| - 1]);
      StepInv(s, Run(s, steps[..|steps| - 1]), steps[|steps| - 1]);
    }
  }

  // ---------------------------------------------------------------- what such runs guarantee

  /** A container is set exactly while the account is assigned, or cooling down from an assignment; a
      cooldown has a deadline; and neither the guard nor the ambiguity error can occur on the row. */
  lemma RowsStayGood(s0: State, steps: seq<Step>, id: int, event: Event, initiator: Initiator)
    requires Start(s0) && NoneOutdated(s0, steps) && id in s0.rows
    ensures id in Run(s0, steps).rows
    ensures var a := Run(s0, steps).rows[id];
            && (a.containerId != Null <==>
                a.status == Assigned || (a.status == Cooldown && a.previous == Some(Assigned)))
            && (a.containerType != Null <==> a.containerId != Null)
            && (a.status == Cooldown ==> a.cooldownUntil != Null)
            && Resolved(event, a, initiator) !in {Refused(Blocked), Refused(Ambiguous)}
  {
    hide Run, Resolved, Replay, LogOf, FINGERPRINT;
    RunInv(s0, steps);
    NeverBlocked(Run(s0, steps).rows[id], event, initiator);
  }

  /** The history replays to the row, and the five fingerprint fields of an account that has left
      `created` never change. */
  lemma RowsReplay(s0: State, steps: seq<Step>, id: int)
    requires Start(s0) && NoneOutdated(s0, steps) && id in s0.rows
    ensures var s := Run(s0, steps);
            && id in s.rows
            && CoreOf(s.rows[id]) == Replay(CoreOf(s0.rows[id]), s.history, id)
            && (s0.rows[id].status != Created ==>
                  s.rows[id].status != Created && SameFingerprint(s0.rows[id], s.rows[id]))
  {
    hide Run, Replay, LogOf, AccountInv, CoreOf, FINGERPRINT;
    RunInv(s0, steps);
  }

  /** Consecutive records of an account chain, whichever sessions wrote them. */
  lemma RecordsChain(s0: State, steps: seq<Step>, j: int, k: nat)
    requires Start(s0) && NoneOutdated(s0, steps)
    requires var h := Run(s0, steps).history;
             -1 <= j < k < |h| && (j >= 0 ==> h[j].accountId == h[k].accountId) &&
             NoneBetween(h, h[k].accountId, j, k)
    ensures var h := Run(s0, steps).history;
            && h[k].accountId in s0.rows
            && h[k].from == if h[k].reason == AccountCreated then None
                            else Some(if j >= 0 then h[j].to else s0.rows[h[k].accountId].status)
  {
    hide Run, AccountInv, FINGERPRINT;
    RunInv(s0, steps);
    LogChains(CoreOf(s0.rows[Run(s0, steps).history[k].accountId]), Run(s0, steps).history, j, k);
  }

  // ---------------------------------------------------------------- two runs that go wrong

  /** One account that two new sessions have open. */
  function TwoSessions(a: Account): State {
    State(map[1 := a], [], [], [], [], [Session(map[], [], []), Session(map[], [], [])])
  }

  /** Session 1 decides first and commits first; session 0 decides on the copy it read before. */
  function Overlapping(first: Step, second: Step): seq<Step> {
    [Load(0, 1), Load(1, 1), first, Save(1), second, Save(0)]
  }

  lemma RunSnoc(s: State, front: seq<Step>, step: Step)
    ensures Run(s, front + [step]) == Next(Run(s, front), step)
  {
    hide Next;
    assert (front + [step])[..|front|] == front;
  }

  lemma RunOverlapping(a: Account, first: Step, second: Step)
    ensures Run(TwoSessions(a), Overlapping(first, second)) ==
            Next(Next(Next(Next(Next(Next(TwoSessions(a), Load(0, 1)), Load(1, 1)), first), Save(1)), second), Save(0))
  {
    hide Next;
    var s := TwoSessions(a);
    assert Run(s, []) == s;
    RunSnoc(s, [], Load(0, 1));
    assert [] + [Load(0, 1)] == [Load(0, 1)];
    RunSnoc(s, [Load(0, 1)], Load(1, 1));
    assert [Load(0, 1)] + [Load(1, 1)] == [Load(0, 1), Load(1, 1)];
    RunSnoc(s, [Load(0, 1), Load(1, 1)], first);
    assert [Load(0, 1), Load(1, 1)] + [first] == [Load(0, 1), Load(1, 1), first];
    RunSnoc(s, [Load(0, 1), Load(1, 1), first], Save(1));
    assert [Load(0, 1), Load(1, 1), first] + [Save(1)] == [Load(0, 1), Load(1, 1), first, Save(1)];
    RunSnoc(s, [Load(0, 1), Load(1, 1), first, Save(1)], second);
    assert [Load(0, 1), Load(1, 1), first, Save(1)] + [second] == [Load(0, 1), Load(1, 1), first, Save(1), second];
    RunSnoc(s, [Load(0, 1), Load(1, 1), first, Save(1), second], Save(0));
    assert [Load(0, 1), Load(1, 1), first, Save(1), second] + [Save(0)] == Overlapping(first, second);
  }

  /** Two events on one account, both accepted on the state that both sessions read. */
  lemma BothAccepted(a: Account, e1: Event, i1: Initiator, m1: Meta, now1: int, e2: Event, i2: Initiator, m2: Meta,
                     now2: int)
    requires Transited(1, a, e1, i1, m1, now1).Commit? && Transited(1, a, e2, i2, m2, now2).Commit?
    requires var one := Merge(a, Copy(a, Transited(1, a, e1, i1, m1, now1).account));
             TableOk(one) && TableOk(Merge(one, Copy(a, Transited(1, a, e2, i2, m2, now2).account)))
    ensures var o1 := Transited(1, a, e1, i1, m1, now1);
            var o2 := Transited(1, a, e2, i2, m2, now2);
            var s := Run(TwoSessions(a), Overlapping(Decide(1, 1, e1, i1, m1, now1), Decide(0, 1, e2, i2, m2, now2)));
            && s.rows == map[1 := Merge(Merge(a, Copy(a, o1.account)), Copy(a, o2.account))]
            && s.history == [o1.record, o2.record] && s.sent == []
            && |s.sessions| == 2 && s.sessions[0].outbox == [1] && s.sessions[1].outbox == [0]
  {
    hide Transited, Merge, Run, Next, TableOk;
    var first, second := Decide(1, 1, e1, i1, m1, now1), Decide(0, 1, e2, i2, m2, now2);
    RunOverlapping(a, first, second);
    BothLoad(a);
    var s2 := Next(Next(TwoSessions(a), Load(0, 1)), Load(1, 1));
    FireThenCommit(s2, 1, a, e1, i1, m1, now1);
    var s4 := Next(Next(s2, first), Save(1));
    FireThenCommit(s4, 0, a, e2, i2, m2, now2);
    assert [] + [Transited(1, a, e1, i1, m1, now1).record] == [Transited(1, a, e1, i1, m1, now1).record];
  }

  lemma BothLoad(a: Account)
    ensures var mine := Session(map[1 := Copy(a, a)], [], []);
            Next(Next(TwoSessions(a), Load(0, 1)), Load(1, 1)) == TwoSessions(a).(sessions := [mine, mine])
  {
  }

  lemma FireThenCommit(s: State, t: nat, a: Account, event: Event, initiator: Initiator, meta: Meta, now: int)
    requires t < |s.sessions| && s.sessions[t].copies == map[1 := Copy(a, a)] && s.sessions[t].pending == []
    requires s.rows.Keys == {1} && Transited(1, a, event, initiator, meta, now).Commit?
    requires TableOk(Merge(s.rows[1], Copy(a, Transited(1, a, event, initiator, meta, now).account)))
    ensures var o := Transited(1, a, event, initiator, meta, now);
            var s' := Next(Next(s, Decide(t, 1, event, initiator, meta, now)), Save(t));
            && s'.rows == map[1 := Merge(s.rows[1], Copy(a, o.account))]
            && s'.history == s.history + [o.record]
            && |s'.sessions| == |s.sessions| && s'.sessions[t].outbox == s.sessions[t].outbox + [|s.history|]
            && s'.sent == s.sent
            && forall u :: 0 <= u < |s.sessions| && u != t ==> s'.sessions[u] == s.sessions[u]
  {
    hide Transited, Merge, TableOk;
    var o := Transited(1, a, event, initiator, meta, now);
    var s1 := Next(s, Decide(t, 1, event, initiator, meta, now));
    assert s1.sessions[t].pending == [o.record];
    assert s1.sessions[t].copies == map[1 := Copy(a, o.account)];
    assert WrittenBack(s1.rows, s1.sessions[t].copies) == map[1 := Merge(s.rows[1], Copy(a, o.account))];
  }

  /** The cooldown sweep has read an account; an attachment is committed; then the sweep returns the
      account to the pool.  A pool account is left with a container, and its last record starts from a
      status that the one before did not end in. */
  lemma SweepOverwritesAttach(a: Account, container: int, now: int)
    requires AccountInv(a) && a.status == Cooldown && a.previous == Some(Pool)
    ensures var meta: Meta := map["container_type" := Text("commenting"), "container_id" := Number(container)];
            var steps := Overlapping(Decide(1, 1, ContainerAttach, User, meta, now),
                                     Decide(0, 1, CooldownExpired, Auto, map[], now));
            var s := Run(TwoSessions(a), steps);
            && 1 in s.rows && !AccountInv(s.rows[1])
            && s.rows[1].status == Pool && s.rows[1].containerId == Number(container)
            && |s.history| == 2 && s.history[0].to == Assigned && s.history[1].from == Some(Cooldown)
  {
    hide Transited, Run, JsonMeta, Merge;
    var meta: Meta := map["container_type" := Text("commenting"), "container_id" := Number(container)];
    TableMeansAfter(1, a, ContainerAttach, User, meta, now);
    TableMeansAfter(1, a, CooldownExpired, Auto, map[], now);
    MergeColumns(a, Copy(a, After(a, ContainerAttach, meta, now)));
    MergeColumns(Merge(a, Copy(a, After(a, ContainerAttach, meta, now))),
                 Copy(a, After(a, CooldownExpired, map[], now)));
    BothAccepted(a, ContainerAttach, User, meta, now, CooldownExpired, Auto, map[], now);
  }

  /** An attachment and a health incident are both decided on the pool account that both have read.  The
      account ends cooling down, to be returned to the pool, with a container. */
  lemma IncidentOverAttach(a: Account, container: int, until: int, now: int)
    requires AccountInv(a) && a.status == Pool
    ensures var meta: Meta := map["container_type" := Text("commenting"), "container_id" := Number(container)];
            var steps := Overlapping(Decide(1, 1, ContainerAttach, User, meta, now),
                                     Decide(0, 1, HealthIncident, Health, map["cooldown_until" := Moment(until)], now));
            var s := Run(TwoSessions(a), steps);
            && 1 in s.rows && !AccountInv(s.rows[1])
            && s.rows[1].status == Cooldown && s.rows[1].previous == Some(Pool)
            && s.rows[1].containerId == Number(container)
  {
    hide Transited, Run, JsonMeta, Merge;
    var meta: Meta := map["container_type" := Text("commenting"), "container_id" := Number(container)];
    var incident: Meta := map["cooldown_until" := Moment(until)];
    TableMeansAfter(1, a, ContainerAttach, User, meta, now);
    TableMeansAfter(1, a, HealthIncident, Health, incident, now);
    MergeColumns(a, Copy(a, After(a, ContainerAttach, meta, now)));
    MergeColumns(Merge(a, Copy(a, After(a, ContainerAttach, meta, now))),
                 Copy(a, After(a, HealthIncident, incident, now)));
    BothAccepted(a, ContainerAttach, User, meta, now, HealthIncident, Health, incident, now);
  }

  /** A fingerprint field is edited through a copy from before the warming started: the edit is accepted
      and the fingerprint of a warming account changes. */
  lemma LateEditChangesFingerprint(a: Account, field: string, v: Value, now: int)
    requires AccountInv(a) && a.status == Created && field in FINGERPRINT && field in a.details && a.details[field] != v
    ensures var steps := Overlapping(Decide(1, 1, WarmingStart, Auto, map[], now),
                                     Change(0, 1, map[field := v]));
            var s := Run(TwoSessions(a), steps);
            && 1 in s.rows && s.rows[1].status == Warming
            && field in s.rows[1].details && s.rows[1].details[field] == v
  {
    hide Transited, Merge, Run, Next, JsonMeta;
    var first, second := Decide(1, 1, WarmingStart, Auto, map[], now), Change(0, 1, map[field := v]);
    RunOverlapping(a, first, second);
    BothLoad(a);
    TableMeansAfter(1, a, WarmingStart, Auto, map[], now);
    var s2 := Next(Next(TwoSessions(a), Load(0, 1)), Load(1, 1));
    MergeColumns(a, Copy(a, After(a, WarmingStart, map[], now)));
    FireThenCommit(s2, 1, a, WarmingStart, Auto, map[], now);
    var s4 := Next(Next(s2, first), Save(1));
    var edited := a.(details := a.details + map[field := v]);
    ChangeThenSave(s4, 0, a, map[field := v]);
    MergeColumns(s4.rows[1], Copy(a, edited));
    MergeDetail(s4.rows[1], Copy(a, edited), field);
  }

  lemma ChangeThenSave(s: State, t: nat, a: Account, values: map<string, Value>)
    requires t < |s.sessions| && s.sessions[t].copies == map[1 := Copy(a, a)] && s.sessions[t].pending == []
    requires s.rows.Keys == {1} && a.status == Created && TableOk(s.rows[1])
    ensures var s' := Next(Next(s, Change(t, 1, values)), Save(t));
            s'.rows == map[1 := Merge(s.rows[1], Copy(a, a.(details := a.details + values)))]
  {
    hide FINGERPRINT, Merge, TableOk, Repointed, Transited;
    var edited := a.(details := a.details + values);
    MergeDetailsOk(s.rows[1], a, edited.details);
    assert EditOf(a, values) == Edited(edited);
    var s1 := Next(s, Change(t, 1, values));
    assert s1.sessions[t].copies == map[1 := Copy(a, edited)];
    assert WrittenBack(s1.rows, s1.sessions[t].copies) == map[1 := Merge(s.rows[1], Copy(a, edited))];
  }

  lemma MergeDetailsOk(row: Account, a: Account, details: map<string, Value>)
    requires TableOk(row)
    ensures TableOk(Merge(row, Copy(a, a.(details := details))))
  {
  }

  lemma MergeDetail(row: Account, c: Copy, key: string)
    requires key in c.current.details && key in c.loaded.details
    requires c.current.details[key] != c.loaded.details[key]
    ensures var d := Merge(row, c).details; key in d && d[key] == c.current.details[key]
  {
  }

  lemma MergeColumns(row: Account, c: Copy)
    ensures var m := Merge(row, c);
            && m.status == Column(row.status, c.loaded.status, c.current.status)
            && m.previous == Column(row.previous, c.loaded.previous, c.current.previous)
            && m.containerType == Column(row.containerType, c.loaded.containerType, c.current.containerType)
            && m.containerId == Column(row.containerId, c.loaded.containerId, c.current.containerId)
            && m.cooldownUntil == Column(row.cooldownUntil, c.loaded.cooldownUntil, c.current.cooldownUntil)
  {
  }
}
