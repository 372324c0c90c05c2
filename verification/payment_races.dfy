/** Confirmations racing each other and the expiry sweep (core/billing/payments.py, lines 113-190).

    Any number of database sessions interleave.  A session can load a payment without locking it
    (as the on-demand check and the reconcile job do), lock its row, be refused, extend the
    subscription, commit, or roll back at any point.  Row locks are held until the transaction
    ends.  A session keeps the copies it has loaded: a locking read returns the copy already in
    the session's identity map, and only a rollback or the refresh after a commit renews it. */
module PaymentRaces {
  import opened Wrappers
  import opened Subscriptions
  import opened Payments

  datatype Pc =
    | Idle
    | Locked(i: nat)                                      // holds row i
    | Extending(i: nat, row: Payment, g: Grant, sub: Sub) // and the subscription row of its user
    | Sweeping(held: set<nat>)                            // the sweep's UPDATE, row by row

  datatype Session = Session(cache: map<nat, Payment>, pc: Pc)

  datatype Entry = Entry(payment: nat, user: string, g: Grant)

  /** Committed tables, open sessions, and the log of committed extensions. */
  datatype State = State(rows: seq<Payment>, subs: map<string, Sub>, sessions: seq<Session>, log: seq<Entry>)

  datatype Step =
    | Load(t: nat, i: nat)
    | Lock(t: nat, i: nat)
    | Refuse(t: nat)
    | Extend(t: nat, setInvoice: Option<string>, clock: int, stamp: int)
    | Commit(t: nat)
    | Rollback(t: nat)
    | SweepLock(t: nat, i: nat, now: int)
    | SweepCommit(t: nat)

  predicate HoldsRow(pc: Pc, i: nat) {
    match pc
    case Idle => false
    case Locked(j) => i == j
    case Extending(j, _, _, _) => i == j
    case Sweeping(held) => i in held
  }

  predicate HoldsUser(pc: Pc, user: string) {
    pc.Extending? && pc.row.user == user
  }

  predicate RowFree(s: State, t: nat, i: nat) {
    forall u :: 0 <= u < |s.sessions| && u != t ==> !HoldsRow(s.sessions[u].pc, i)
  }

  predicate UserFree(s: State, t: nat, user: string) {
    forall u :: 0 <= u < |s.sessions| && u != t ==> !HoldsUser(s.sessions[u].pc, user)
  }

  predicate Enabled(s: State, step: Step) {
    step.t < |s.sessions| &&
    var me := s.sessions[step.t];
    match step
    case Load(_, i) => i < |s.rows|
    case Lock(t, i) => me.pc.Idle? && i < |s.rows| && RowFree(s, t, i)
    case Refuse(_) => me.pc.Locked? && me.pc.i in me.cache && Applied(me.cache[me.pc.i])
    case Extend(t, _, _, _) =>
      me.pc.Locked? && me.pc.i < |s.rows| && me.pc.i in me.cache && !Applied(me.cache[me.pc.i])
      && UserFree(s, t, me.cache[me.pc.i].user)
    case Commit(_) => me.pc.Extending? && me.pc.i < |s.rows|
    case Rollback(_) => true
    case SweepLock(t, i, now) =>
      (me.pc.Idle? || me.pc.Sweeping?) && i < |s.rows| && RowFree(s, t, i)
      && s.rows[i].status == Pending && s.rows[i].expiresAt <= now
    case SweepCommit(_) => me.pc.Sweeping?
  }

  /** The copy of row `i` a session works on: the one it already has, or else the committed row. */
  function View(s: State, t: nat, i: nat): Payment
    requires t < |s.sessions| && i < |s.rows|
  {
    if i in s.sessions[t].cache then s.sessions[t].cache[i] else s.rows[i]
  }

  function Expire(rows: seq<Payment>, held: set<nat>): seq<Payment> {
    seq(|rows|, i requires 0 <= i < |rows| => if i in held then rows[i].(status := Status.Expired) else rows[i])
  }

  function Next(s: State, step: Step): State
    requires Enabled(s, step)
  {
    var t := step.t;
    var me := s.sessions[t];
    match step
    case Load(_, i) => s.(sessions := s.sessions[t := me.(cache := me.cache[i := View(s, t, i)])])
    case Lock(_, i) => s.(sessions := s.sessions[t := Session(me.cache[i := View(s, t, i)], Locked(i))])
    case Refuse(_) => s.(sessions := s.sessions[t := Session(map[], Idle)])
    case Extend(_, setInvoice, clock, stamp) =>
      var i := me.pc.i;
      var seen := me.cache[i];
      var row := MarkPaid(seen, s.rows[i], setInvoice, clock);
      var g := Grant(stamp, seen.Days(), ProviderName(seen.provider));
      s.(sessions := s.sessions[t := me.(pc := Extending(i, row, g, Bought(s.subs, seen.user, g)))])
    case Commit(_) =>
      var Extending(i, row, g, sub) := me.pc;
      State(s.rows[i := row], s.subs[row.user := sub],
            s.sessions[t := Session(me.cache[i := row], Idle)], s.log + [Entry(i, row.user, g)])
    case Rollback(_) => s.(sessions := s.sessions[t := Session(map[], Idle)])
    case SweepLock(_, i, _) =>
      var held := if me.pc.Sweeping? then me.pc.held else {};
      s.(sessions := s.sessions[t := me.(pc := Sweeping(held + {i}))])
    case SweepCommit(_) =>
      s.(rows := Expire(s.rows, me.pc.held), sessions := s.sessions[t := me.(pc := Idle)])
  }

  /** The subscription row `extend_pro` computes, from the committed row it has locked. */
  function Bought(subs: map<string, Sub>, user: string, g: Grant): Sub {
    Extended(Lookup(subs, user), g.at, g.days, g.how)
  }

  predicate ValidRun(s: State, steps: seq<Step>)
    decreases |steps|
  {
    steps != [] ==> Enabled(s, steps[0]) && ValidRun(Next(s, steps[0]), steps[1..])
  }

  function Run(s: State, steps: seq<Step>): State
    requires ValidRun(s, steps)
    decreases |steps|
  {
    if steps == [] then s else Run(Next(s, steps[0]), steps[1..])
  }

  // ---------------------------------------------------------------- what every step keeps

  /** The columns that fix who pays for how much; no step changes them. */
  predicate SameOrder(p: Payment, q: Payment) {
    p.user == q.user && p.provider == q.provider && p.quote == q.quote && p.payload == q.payload
  }

  ghost predicate SessionOk(rows: seq<Payment>, subs: map<string, Sub>, me: Session) {
    && (forall i :: i in me.cache ==> i < |rows| && SameOrder(me.cache[i], rows[i]))
    && match me.pc
       case Idle => true
       case Locked(i) => i in me.cache
       case Extending(i, row, g, sub) =>
         i < |rows| && Applied(row) && SameOrder(row, rows[i]) && sub == Bought(subs, row.user, g)
       case Sweeping(held) => forall i :: i in held ==> i < |rows| && rows[i].status == Pending
  }

  ghost predicate Exclusive(ss: seq<Session>) {
    forall t, u :: 0 <= t < u < |ss| ==>
      && (forall i :: HoldsRow(ss[t].pc, i) ==> !HoldsRow(ss[u].pc, i))
      && (forall user :: HoldsUser(ss[t].pc, user) ==> !HoldsUser(ss[u].pc, user))
  }

  ghost predicate Logged(log: seq<Entry>, i: nat) {
    exists k :: 0 <= k < |log| && log[k].payment == i
  }

  /** The grants of one user, in commit order. */
  function GrantsOf(log: seq<Entry>, user: string): seq<Grant> {
    if log == [] then []
    else
      var e := log[|log| - 1];
      GrantsOf(log[..|log| - 1], user) + (if e.user == user then [e.g] else [])
  }

  ghost predicate Ledger(s0: State, s: State) {
    && |s.rows| == |s0.rows|
    && (forall i :: 0 <= i < |s.rows| ==> (Applied(s.rows[i]) <==> Applied(s0.rows[i]) || Logged(s.log, i)))
    && (forall k :: 0 <= k < |s.log| ==> s.log[k].payment < |s.rows|)
    && (forall user :: Lookup(s.subs, user) == AfterGrants(Lookup(s0.subs, user), GrantsOf(s.log, user)))
  }

  ghost predicate Inv(s0: State, s: State) {
    && (forall t :: 0 <= t < |s.sessions| ==> SessionOk(s.rows, s.subs, s.sessions[t]))
    && Exclusive(s.sessions)
    && Ledger(s0, s)
  }

  /** Sessions start empty, and nothing is logged yet. */
  predicate Init(s: State) {
    s.log == [] && forall t :: 0 <= t < |s.sessions| ==> s.sessions[t] == Session(map[], Idle)
  }

  lemma InitInv(s: State)
    requires Init(s)
    ensures Inv(s, s)
  {
  }

  /** A session does not notice changes to rows and users it does not hold. */
  lemma SessionFrame(rows: seq<Payment>, subs: map<string, Sub>, me: Session,
                     rows': seq<Payment>, subs': map<string, Sub>)
    requires SessionOk(rows, subs, me) && |rows'| == |rows|
    requires forall i :: 0 <= i < |rows| ==> SameOrder(rows'[i], rows[i])
    requires forall i :: 0 <= i < |rows| && HoldsRow(me.pc, i) ==> rows'[i] == rows[i]
    requires forall user :: HoldsUser(me.pc, user) ==> Lookup(subs', user) == Lookup(subs, user)
    ensures SessionOk(rows', subs', me)
  {
    hide Extended, Applied;
    if me.pc.Extending? {
      assert HoldsUser(me.pc, me.pc.row.user);
    }
    if me.pc.Sweeping? {
      forall i | i in me.pc.held
        ensures i < |rows'| && rows'[i].status == Pending
      {
        assert HoldsRow(me.pc, i);
      }
    }
  }

  /** Replacing session `t` keeps exclusion if everything it now holds was its own or free. */
  lemma ExclusiveUpdate(ss: seq<Session>, t: nat, me: Session)
    requires Exclusive(ss) && t < |ss|
    requires forall u, i :: 0 <= u < |ss| && u != t && HoldsRow(me.pc, i) ==> !HoldsRow(ss[u].pc, i)
    requires forall u, user :: 0 <= u < |ss| && u != t && HoldsUser(me.pc, user) ==> !HoldsUser(ss[u].pc, user)
    ensures Exclusive(ss[t := me])
  {
    hide HoldsRow, HoldsUser;
  }

  lemma OthersHold(ss: seq<Session>, t: nat, u: nat)
    requires Exclusive(ss) && t < |ss| && u < |ss| && t != u
    ensures forall i :: HoldsRow(ss[t].pc, i) ==> !HoldsRow(ss[u].pc, i)
    ensures forall user :: HoldsUser(ss[t].pc, user) ==> !HoldsUser(ss[u].pc, user)
  {
    hide HoldsRow, HoldsUser;
    if t > u {
      assert forall i :: HoldsRow(ss[u].pc, i) ==> !HoldsRow(ss[t].pc, i);
      assert forall user :: HoldsUser(ss[u].pc, user) ==> !HoldsUser(ss[t].pc, user);
    }
  }

  /** Steps that only change the acting session. */
  lemma LocalStepInv(s0: State, s: State, step: Step)
    requires Inv(s0, s) && Enabled(s, step) && !step.Commit? && !step.SweepCommit?
    ensures Inv(s0, Next(s, step))
  {
    hide Ledger, Exclusive, Extended, MarkPaid;
    var s' := Next(s, step);
    var t := step.t;
    var me, me' := s.sessions[t], s'.sessions[t];
    LocalSessionOk(s, step);
    forall u, i | 0 <= u < |s.sessions| && u != t && HoldsRow(me'.pc, i)
      ensures !HoldsRow(s.sessions[u].pc, i)
    {
      OthersHold(s.sessions, t, u);
    }
    forall u, user | 0 <= u < |s.sessions| && u != t && HoldsUser(me'.pc, user)
      ensures !HoldsUser(s.sessions[u].pc, user)
    {
      if step.Extend? {
        assert me'.pc.row.user == s.rows[me.pc.i].user by {
          MarkPaidKeeps(me.cache[me.pc.i], s.rows[me.pc.i], step.setInvoice, step.clock);
        }
      } else {
        OthersHold(s.sessions, t, u);
      }
    }
    ExclusiveUpdate(s.sessions, t, me');
    LedgerUnchanged(s0, s, s');
  }

  lemma LedgerUnchanged(s0: State, s: State, s': State)
    requires Ledger(s0, s) && s'.rows == s.rows && s'.subs == s.subs && s'.log == s.log
    ensures Ledger(s0, s')
  {
  }

  lemma MarkPaidKeeps(seen: Payment, stored: Payment, setInvoice: Option<string>, now: int)
    ensures var row := MarkPaid(seen, stored, setInvoice, now); SameOrder(row, stored) && Applied(row)
  {
  }

  lemma LocalSessionOk(s: State, step: Step)
    requires Enabled(s, step) && !step.Commit? && !step.SweepCommit?
    requires SessionOk(s.rows, s.subs, s.sessions[step.t])
    ensures SessionOk(s.rows, s.subs, Next(s, step).sessions[step.t])
  {
    hide Extended, MarkPaid;
    if step.Extend? {
      var me := s.sessions[step.t];
      MarkPaidKeeps(me.cache[me.pc.i], s.rows[me.pc.i], step.setInvoice, step.clock);
    }
  }

  lemma GrantsOfSnoc(log: seq<Entry>, e: Entry, user: string)
    ensures GrantsOf(log + [e], user) == GrantsOf(log, user) + (if e.user == user then [e.g] else [])
  {
    assert (log + [e])[..|log|] == log;
  }

  lemma AfterGrantsSnoc(sub: Option<Sub>, gs: seq<Grant>, g: Grant)
    ensures AfterGrants(sub, gs + [g]) == Some(Extended(AfterGrants(sub, gs), g.at, g.days, g.how))
  {
    assert (gs + [g])[..|gs|] == gs;
  }

  lemma CommitLedger(s0: State, s: State, step: Step)
    requires Inv(s0, s) && Enabled(s, step) && step.Commit?
    ensures Ledger(s0, Next(s, step))
  {
    hide Extended, AfterGrants, GrantsOf, Exclusive;
    var s' := Next(s, step);
    var Extending(i, row, g, sub) := s.sessions[step.t].pc;
    assert SessionOk(s.rows, s.subs, s.sessions[step.t]);
    forall j | 0 <= j < |s'.rows|
      ensures Applied(s'.rows[j]) <==> Applied(s0.rows[j]) || Logged(s'.log, j)
    {
      LoggedSnoc(s.log, Entry(i, row.user, g), j);
    }
    forall user
      ensures Lookup(s'.subs, user) == AfterGrants(Lookup(s0.subs, user), GrantsOf(s'.log, user))
    {
      GrantsOfSnoc(s.log, Entry(i, row.user, g), user);
      AfterGrantsSnoc(Lookup(s0.subs, user), GrantsOf(s.log, user), g);
      assert GrantsOf(s.log, user) + [] == GrantsOf(s.log, user);
    }
  }

  lemma LoggedSnoc(log: seq<Entry>, e: Entry, j: nat)
    ensures Logged(log + [e], j) <==> Logged(log, j) || e.payment == j
  {
    var all := log + [e];
    assert all[|log|] == e;
    if Logged(log, j) {
      var k :| 0 <= k < |log| && log[k].payment == j;
      assert all[k].payment == j;
    }
  }

  lemma CommitSessionOk(s: State, step: Step, u: nat)
    requires Enabled(s, step) && step.Commit? && Exclusive(s.sessions) && u < |s.sessions|
    requires SessionOk(s.rows, s.subs, s.sessions[step.t]) && SessionOk(s.rows, s.subs, s.sessions[u])
    ensures SessionOk(Next(s, step).rows, Next(s, step).subs, Next(s, step).sessions[u])
  {
    hide Extended, Bought, Applied;
    if u != step.t {
      var me := s.sessions[step.t];
      OthersHold(s.sessions, step.t, u);
      hide Exclusive;
      assert HoldsRow(me.pc, me.pc.i) && HoldsUser(me.pc, me.pc.row.user);
      SessionFrame(s.rows, s.subs, s.sessions[u], Next(s, step).rows, Next(s, step).subs);
    }
  }

  lemma CommitStepInv(s0: State, s: State, step: Step)
    requires Inv(s0, s) && Enabled(s, step) && step.Commit?
    ensures Inv(s0, Next(s, step))
  {
    hide Ledger, SessionOk;
    CommitLedger(s0, s, step);
    forall u | 0 <= u < |s.sessions|
      ensures SessionOk(Next(s, step).rows, Next(s, step).subs, Next(s, step).sessions[u])
    {
      CommitSessionOk(s, step, u);
    }
    ExclusiveUpdate(s.sessions, step.t, Next(s, step).sessions[step.t]);
  }

  lemma SweepStepInv(s0: State, s: State, step: Step)
    requires Inv(s0, s) && Enabled(s, step) && step.SweepCommit?
    ensures Inv(s0, Next(s, step))
  {
    hide Extended, AfterGrants, GrantsOf;
    var s' := Next(s, step);
    var t := step.t;
    var me := s.sessions[t];
    assert SessionOk(s.rows, s.subs, me);
    forall u | 0 <= u < |s.sessions| && u != t
      ensures SessionOk(s'.rows, s'.subs, s.sessions[u])
    {
      OthersHold(s.sessions, t, u);
      assert forall i :: i in me.pc.held ==> HoldsRow(me.pc, i);
      SessionFrame(s.rows, s.subs, s.sessions[u], s'.rows, s'.subs);
    }
    ExclusiveUpdate(s.sessions, t, s'.sessions[t]);
  }

  lemma StepInv(s0: State, s: State, step: Step)
    requires Inv(s0, s) && Enabled(s, step)
    ensures Inv(s0, Next(s, step))
  {
    hide Inv, Next, Enabled;
    if step.Commit? {
      CommitStepInv(s0, s, step);
    } else if step.SweepCommit? {
      SweepStepInv(s0, s, step);
    } else {
      LocalStepInv(s0, s, step);
    }
  }

  /** In every interleaving: locks exclude each other, the applied payments are exactly the logged
      ones, and each subscription is the stacking rule folded over its logged payments. */
  lemma {:induction false} RunInv(s0: State, s: State, steps: seq<Step>)
    requires Inv(s0, s) && ValidRun(s, steps)
    ensures Inv(s0, Run(s, steps))
    decreases |steps|
  {
    hide Inv, Next, Enabled;
    if steps != [] {
      StepInv(s0, s, steps[0]);
      RunInv(s0, Next(s, steps[0]), steps[1..]);
    }
  }

  // ---------------------------------------------------------------- paid is permanent

  lemma StepKeepsApplied(s0: State, s: State, step: Step, i: nat)
    requires Inv(s0, s) && Enabled(s, step) && i < |s.rows| && Applied(s.rows[i])
    ensures i < |Next(s, step).rows| && Applied(Next(s, step).rows[i])
  {
    hide Ledger, Exclusive, Extended, MarkPaid;
    assert SessionOk(s.rows, s.subs, s.sessions[step.t]);
  }

  /** Once a payment is paid and applied, no interleaving of later steps changes that. */
  lemma {:induction false} PaidIsPermanent(s0: State, s: State, steps: seq<Step>, i: nat)
    requires Inv(s0, s) && ValidRun(s, steps) && i < |s.rows| && Applied(s.rows[i])
    ensures i < |Run(s, steps).rows| && Applied(Run(s, steps).rows[i])
    decreases |steps|
  {
    hide Inv, Next, Enabled, Applied;
    if steps != [] {
      StepInv(s0, s, steps[0]);
      StepKeepsApplied(s0, s, steps[0], i);
      PaidIsPermanent(s0, Next(s, steps[0]), steps[1..], i);
    }
  }

  // ---------------------------------------------------------------- exactly once

  /** The session is about to lock a payment that has been applied since it loaded its copy. */
  predicate Stale(s: State, step: Step)
    requires Enabled(s, step)
  {
    step.Lock? && Applied(s.rows[step.i]) && !Applied(View(s, step.t, step.i))
  }

  predicate NoStaleLock(s: State, steps: seq<Step>)
    requires ValidRun(s, steps)
    decreases |steps|
  {
    steps != [] ==> !Stale(s, steps[0]) && NoStaleLock(Next(s, steps[0]), steps[1..])
  }

  /** While a session holds a row, its copy agrees with the row on whether it is applied. */
  ghost predicate Honest(s: State) {
    forall t :: 0 <= t < |s.sessions| ==> HonestSession(s.rows, s.sessions[t])
  }

  ghost predicate HonestSession(rows: seq<Payment>, me: Session) {
    match me.pc
    case Locked(i) => i < |rows| && i in me.cache && (Applied(rows[i]) ==> Applied(me.cache[i]))
    case Extending(i, _, _, _) => i < |rows| && !Applied(rows[i])
    case _ => true
  }

  /** No payment appears twice in the log, and none that was applied before appears at all. */
  ghost predicate OncePerPayment(s0: State, log: seq<Entry>) {
    && (forall j, k :: 0 <= j < k < |log| ==> log[j].payment != log[k].payment)
    && (forall k :: 0 <= k < |log| && log[k].payment < |s0.rows| ==> !Applied(s0.rows[log[k].payment]))
  }

  lemma StepHonest(s0: State, s: State, step: Step)
    requires Inv(s0, s) && Enabled(s, step) && Honest(s) && !Stale(s, step)
    ensures Honest(Next(s, step))
  {
    hide Ledger, Extended, MarkPaid, Bought;
    var s' := Next(s, step);
    var t := step.t;
    var me := s.sessions[t];
    assert SessionOk(s.rows, s.subs, me) && HonestSession(s.rows, me);
    assert HonestSession(s'.rows, s'.sessions[t]);
    forall u | 0 <= u < |s.sessions| && u != t
      ensures HonestSession(s'.rows, s.sessions[u])
    {
      OthersHold(s.sessions, t, u);
      assert HonestSession(s.rows, s.sessions[u]);
      forall i | 0 <= i < |s.rows| && HoldsRow(s.sessions[u].pc, i)
        ensures s'.rows[i] == s.rows[i]
      {
        assert !HoldsRow(me.pc, i);
      }
      HonestFrame(s.rows, s'.rows, s.sessions[u]);
    }
  }

  lemma HonestFrame(rows: seq<Payment>, rows': seq<Payment>, me: Session)
    requires HonestSession(rows, me) && |rows'| == |rows|
    requires forall i :: 0 <= i < |rows| && HoldsRow(me.pc, i) ==> rows'[i] == rows[i]
    ensures HonestSession(rows', me)
  {
  }

  lemma StepOnce(s0: State, s: State, step: Step)
    requires Inv(s0, s) && Enabled(s, step) && OncePerPayment(s0, s.log)
    ensures OncePerPayment(s0, Next(s, step).log)
        <==> !(step.Commit? && Applied(s.rows[s.sessions[step.t].pc.i]))
  {
    hide Exclusive, Extended, AfterGrants, GrantsOf, SessionOk, Applied;
    if step.Commit? {
      var i := s.sessions[step.t].pc.i;
      var log' := Next(s, step).log;
      assert log'[|s.log|].payment == i;
      assert forall k :: 0 <= k < |s.log| ==> log'[k] == s.log[k];
      assert Applied(s.rows[i]) <==> Applied(s0.rows[i]) || Logged(s.log, i);
      if Logged(s.log, i) {
        var k :| 0 <= k < |s.log| && s.log[k].payment == i;
        assert log'[k].payment == log'[|s.log|].payment;
      }
    }
  }

  lemma {:induction false} AtMostOnce(s0: State, s: State, steps: seq<Step>)
    requires Inv(s0, s) && Honest(s) && OncePerPayment(s0, s.log)
    requires ValidRun(s, steps) && NoStaleLock(s, steps)
    ensures OncePerPayment(s0, Run(s, steps).log)
    decreases |steps|
  {
    if steps != [] {
      hide Inv, Next, Enabled, Applied, OncePerPayment;
      StepInv(s0, s, steps[0]);
      StepHonest(s0, s, steps[0]);
      CommitNotApplied(s, steps[0]);
      StepOnce(s0, s, steps[0]);
      AtMostOnce(s0, Next(s, steps[0]), steps[1..]);
    }
  }

  /** The guarantee of the module.  Take any interleaving, from empty sessions, in which no session
      locks a payment through an outdated copy.  Then every payment extends its subscription at
      most once, and exactly once if it ends up applied; and every subscription row is the
      stacking rule applied to its payments in commit order. */
  lemma ExactlyOnce(s0: State, steps: seq<Step>)
    requires Init(s0) && ValidRun(s0, steps) && NoStaleLock(s0, steps)
    ensures var s := Run(s0, steps);
            && |s.rows| == |s0.rows|
            && OncePerPayment(s0, s.log)
            && (forall i :: 0 <= i < |s.rows| && !Applied(s0.rows[i]) ==>
                  (Applied(s.rows[i]) <==> Logged(s.log, i)))
            && (forall user :: Lookup(s.subs, user) == AfterGrants(Lookup(s0.subs, user), GrantsOf(s.log, user)))
  {
    InitInv(s0);
    RunInv(s0, s0, steps);
    AtMostOnce(s0, s0, steps);
  }

  lemma CommitNotApplied(s: State, step: Step)
    requires Enabled(s, step) && Honest(s)
    ensures !(step.Commit? && Applied(s.rows[s.sessions[step.t].pc.i]))
  {
    assert HonestSession(s.rows, s.sessions[step.t]);
  }

  /** Sessions that never load a payment before locking it cannot be stale. */
  lemma FreshSessionNotStale(s: State, step: Step)
    requires Enabled(s, step)
    ensures step.Lock? && step.i !in s.sessions[step.t].cache ==> !Stale(s, step)
  {
  }

  /** Every payment that is locked in the run is one the session has no copy of. */
  predicate LocksUnread(s: State, steps: seq<Step>)
    requires ValidRun(s, steps)
    decreases |steps|
  {
    steps != [] ==>
      && (steps[0].Lock? ==> steps[0].i !in s.sessions[steps[0].t].cache)
      && LocksUnread(Next(s, steps[0]), steps[1..])
  }

  lemma {:induction false} UnreadIsNotStale(s: State, steps: seq<Step>)
    requires ValidRun(s, steps) && LocksUnread(s, steps)
    ensures NoStaleLock(s, steps)
    decreases |steps|
  {
    hide Next, Stale;
    if steps != [] {
      FreshSessionNotStale(s, steps[0]);
      OnlyLocksAreStale(s, steps[0]);
      UnreadIsNotStale(Next(s, steps[0]), steps[1..]);
    }
  }

  lemma OnlyLocksAreStale(s: State, step: Step)
    requires Enabled(s, step)
    ensures !step.Lock? ==> !Stale(s, step)
  {
  }

  /** The discipline a caller can follow: if no session reads a payment before it locks it, every payment
      extends its subscription at most once, and exactly once if it ends up applied. */
  lemma ExactlyOnceIfLockedFirst(s0: State, steps: seq<Step>)
    requires Init(s0) && ValidRun(s0, steps) && LocksUnread(s0, steps)
    ensures var s := Run(s0, steps);
            && |s.rows| == |s0.rows|
            && OncePerPayment(s0, s.log)
            && (forall i :: 0 <= i < |s.rows| && !Applied(s0.rows[i]) ==>
                  (Applied(s.rows[i]) <==> Logged(s.log, i)))
  {
    hide Run, Applied, Init, AfterGrants, OncePerPayment;
    UnreadIsNotStale(s0, steps);
    ExactlyOnce(s0, steps);
  }

  // ---------------------------------------------------------------- the exact condition over a run

  /** The sessions that hold a payment which they locked through an outdated copy. */
  function Marked(s: State, step: Step, bad: set<nat>): set<nat>
    requires Enabled(s, step)
  {
    match step
    case Lock(t, _) => if Stale(s, step) then bad + {t} else bad - {t}
    case Refuse(t) => bad - {t}
    case Commit(t) => bad - {t}
    case Rollback(t) => bad - {t}
    case _ => bad
  }

  /** No session that locked a payment through an outdated copy goes on to commit. */
  predicate NoStaleCommit(s: State, steps: seq<Step>, bad: set<nat>)
    requires ValidRun(s, steps)
    decreases |steps|
  {
    steps != [] ==>
      && !(steps[0].Commit? && steps[0].t in bad)
      && NoStaleCommit(Next(s, steps[0]), steps[1..], Marked(s, steps[0], bad))
  }

  predicate HoldsStale(rows: seq<Payment>, me: Session) {
    match me.pc
    case Locked(i) => i < |rows| && i in me.cache && Applied(rows[i]) && !Applied(me.cache[i])
    case Extending(i, _, _, _) => i < |rows| && Applied(rows[i])
    case _ => false
  }

  predicate MarksOk(s: State, bad: set<nat>) {
    forall t :: 0 <= t < |s.sessions| ==> (t in bad <==> HoldsStale(s.rows, s.sessions[t]))
  }

  lemma StaleFrame(rows: seq<Payment>, rows': seq<Payment>, me: Session)
    requires |rows'| == |rows| && forall i :: 0 <= i < |rows| && HoldsRow(me.pc, i) ==> rows'[i] == rows[i]
    ensures HoldsStale(rows', me) <==> HoldsStale(rows, me)
  {
    hide Applied;
  }

  lemma StepMarks(s0: State, s: State, step: Step, bad: set<nat>)
    requires Inv(s0, s) && Enabled(s, step) && MarksOk(s, bad)
    ensures MarksOk(Next(s, step), Marked(s, step, bad))
  {
    hide Ledger, Extended, MarkPaid, Bought, Applied;
    var s' := Next(s, step);
    var t := step.t;
    var me := s.sessions[t];
    assert SessionOk(s.rows, s.subs, me);
    assert t in Marked(s, step, bad) <==> HoldsStale(s'.rows, s'.sessions[t]);
    forall u | 0 <= u < |s.sessions| && u != t
      ensures u in Marked(s, step, bad) <==> HoldsStale(s'.rows, s'.sessions[u])
    {
      OthersHold(s.sessions, t, u);
      forall i | 0 <= i < |s.rows| && HoldsRow(s.sessions[u].pc, i)
        ensures s'.rows[i] == s.rows[i]
      {
        assert !HoldsRow(me.pc, i);
      }
      StaleFrame(s.rows, s'.rows, s.sessions[u]);
    }
  }

  lemma {:induction false} LogGrows(s: State, steps: seq<Step>)
    requires ValidRun(s, steps)
    ensures s.log <= Run(s, steps).log
    decreases |steps|
  {
    hide Enabled, Expire, MarkPaid, Bought;
    if steps != [] {
      LogGrows(Next(s, steps[0]), steps[1..]);
    }
  }

  lemma OnceBackwards(s0: State, log: seq<Entry>, longer: seq<Entry>)
    requires log <= longer && OncePerPayment(s0, longer)
    ensures OncePerPayment(s0, log)
  {
  }

  lemma {:induction false} OnceExactFrom(s0: State, s: State, steps: seq<Step>, bad: set<nat>)
    requires Inv(s0, s) && MarksOk(s, bad) && OncePerPayment(s0, s.log) && ValidRun(s, steps)
    ensures OncePerPayment(s0, Run(s, steps).log) <==> NoStaleCommit(s, steps, bad)
    decreases |steps|
  {
    if steps != [] {
      MarkedCommit(s, steps[0], bad);
      hide Inv, Next, Enabled, Applied, OncePerPayment, MarksOk, Marked;
      var s' := Next(s, steps[0]);
      StepInv(s0, s, steps[0]);
      StepMarks(s0, s, steps[0], bad);
      StepOnce(s0, s, steps[0]);
      if OncePerPayment(s0, s'.log) {
        OnceExactFrom(s0, s', steps[1..], Marked(s, steps[0], bad));
      } else {
        LogGrows(s', steps[1..]);
        if OncePerPayment(s0, Run(s', steps[1..]).log) {
          OnceBackwards(s0, s'.log, Run(s', steps[1..]).log);
        }
      }
    }
  }

  lemma MarkedCommit(s: State, step: Step, bad: set<nat>)
    requires Enabled(s, step) && MarksOk(s, bad)
    ensures step.Commit? ==> (step.t in bad <==> Applied(s.rows[s.sessions[step.t].pc.i]))
  {
    hide Applied;
    assert step.t in bad <==> HoldsStale(s.rows, s.sessions[step.t]);
  }

  /** In any interleaving from empty sessions, every payment extends its subscription at most once if and
      only if no session commits an extension after locking the payment through an outdated copy. */
  lemma OnceExact(s0: State, steps: seq<Step>)
    requires Init(s0) && ValidRun(s0, steps)
    ensures OncePerPayment(s0, Run(s0, steps).log) <==> NoStaleCommit(s0, steps, {})
  {
    hide Run, NoStaleCommit;
    InitInv(s0);
    OnceExactFrom(s0, s0, steps, {});
  }

  /** One confirmation that runs without interruption. */
  function ConfirmSteps(t: nat, i: nat, inv: Option<string>, clock: int, stamp: int): seq<Step> {
    [Lock(t, i), Extend(t, inv, clock, stamp), Commit(t)]
  }

  lemma EnabledLock(s: State, t: nat, i: nat)
    requires Enabled(s, Lock(t, i))
    ensures t < |s.sessions| && i < |s.rows|
  {
  }

  lemma ConfirmRun(s0: State, s: State, t: nat, i: nat, inv: Option<string>, clock: int, stamp: int)
    requires Inv(s0, s) && Enabled(s, Lock(t, i)) && UserFree(s, t, s.rows[i].user)
    ensures ValidRun(s, ConfirmSteps(t, i, inv, clock, stamp)) <==> !Applied(View(s, t, i))
    ensures !Applied(View(s, t, i)) ==>
      var s' := Run(s, ConfirmSteps(t, i, inv, clock, stamp));
      && s'.rows == s.rows[i := MarkPaid(View(s, t, i), s.rows[i], inv, clock)]
      && |s'.log| == |s.log| + 1 && s'.log[..|s.log|] == s.log && s'.log[|s.log|].payment == i
      && s'.subs == s.subs[s.rows[i].user :=
           Extended(Lookup(s.subs, s.rows[i].user), stamp, s.rows[i].Days(), ProviderName(s.rows[i].provider))]
  {
    hide Ledger, Exclusive, Extended, Applied, Run, ValidRun;
    var steps := ConfirmSteps(t, i, inv, clock, stamp);
    RunThree(s, steps[0], steps[1], steps[2]);
    assert SessionOk(s.rows, s.subs, s.sessions[t]);
    assert SameOrder(View(s, t, i), s.rows[i]);
    var s1 := Next(s, steps[0]);
    assert s1.sessions[t].cache[i] == View(s, t, i);
    assert UserFree(s1, t, s.rows[i].user);
  }

  /** The refusal of a payment that has been applied. */
  function RefuseSteps(t: nat, i: nat): seq<Step> {
    [Lock(t, i), Refuse(t)]
  }

  lemma RefuseRun(s: State, t: nat, i: nat)
    requires Enabled(s, Lock(t, i))
    ensures ValidRun(s, RefuseSteps(t, i)) <==> Applied(View(s, t, i))
    ensures Applied(View(s, t, i)) ==>
      Run(s, RefuseSteps(t, i)) == s.(sessions := s.sessions[t := Session(map[], Idle)])
  {
    hide Extended, Applied, Run, ValidRun;
    var s1 := Next(s, Lock(t, i));
    assert RefuseSteps(t, i) == [Lock(t, i)] + [Refuse(t)] && [Refuse(t)] == [Refuse(t)] + [];
    RunCons(s, Lock(t, i), [Refuse(t)]);
    RunCons(s1, Refuse(t), []);
    if Applied(View(s, t, i)) {
      RunNothing(Next(s1, Refuse(t)));
    }
  }

  /** One call at a time is the uninterrupted run of a session that has not read the payment before: the
      specification of `confirm_payment` and the steps of this module leave the same tables behind. */
  lemma CallIsRun(s0: State, s: State, t: nat, i: nat, key: Key, inv: Option<string>, now: int)
    requires Inv(s0, s) && UniqueKeys(s.rows) && i < |s.rows| && Matches(s.rows[i], key)
    requires Enabled(s, Lock(t, i)) && UserFree(s, t, s.rows[i].user) && i !in s.sessions[t].cache
    ensures var (out, tables) := Confirmed(s.rows, s.subs, key, inv, now);
            && (out == JustApplied ==>
                  && ValidRun(s, ConfirmSteps(t, i, inv, now, now))
                  && tables == (Run(s, ConfirmSteps(t, i, inv, now, now)).rows,
                                Run(s, ConfirmSteps(t, i, inv, now, now)).subs))
            && (out == AlreadyApplied ==>
                  && ValidRun(s, RefuseSteps(t, i))
                  && tables == (Run(s, RefuseSteps(t, i)).rows, Run(s, RefuseSteps(t, i)).subs))
  {
    hide Inv, Enabled, Run, ValidRun, Extended, MarkPaid, Next, UserFree;
    MatchIsUnique(s.rows, i, key);
    MarkPaidKeeps(s.rows[i], s.rows[i], inv, now);
    EnabledLock(s, t, i);
    ConfirmRun(s0, s, t, i, inv, now, now);
    RefuseRun(s, t, i);
  }

  lemma RunCons(s: State, a: Step, rest: seq<Step>)
    ensures ValidRun(s, [a] + rest) <==> Enabled(s, a) && ValidRun(Next(s, a), rest)
    ensures ValidRun(s, [a] + rest) ==> Run(s, [a] + rest) == Run(Next(s, a), rest)
  {
    hide Next, Enabled;
    assert ([a] + rest)[1..] == rest;
  }

  lemma RunThree(s: State, a: Step, b: Step, c: Step)
    ensures ValidRun(s, [a, b, c])
        <==> Enabled(s, a) && Enabled(Next(s, a), b) && Enabled(Next(Next(s, a), b), c)
    ensures ValidRun(s, [a, b, c]) ==> Run(s, [a, b, c]) == Next(Next(Next(s, a), b), c)
  {
    hide Next, Enabled, ValidRun, Run;
    assert [a, b, c] == [a] + [b, c] && [b, c] == [b] + [c] && [c] == [c] + [];
    RunCons(s, a, [b, c]);
    if Enabled(s, a) {
      RunCons(Next(s, a), b, [c]);
      if Enabled(Next(s, a), b) {
        RunCons(Next(Next(s, a), b), c, []);
        if Enabled(Next(Next(s, a), b), c) {
          RunNothing(Next(Next(Next(s, a), b), c));
        }
      }
    }
  }

  lemma RunNothing(s: State)
    ensures ValidRun(s, []) && Run(s, []) == s
  {
  }

  /** The exact condition: a confirmation extends an already applied payment a second time iff the
      session's copy is from before the first application. */
  lemma SecondExtensionExact(s0: State, s: State, t: nat, i: nat, inv: Option<string>, clock: int, stamp: int)
    requires Inv(s0, s) && OncePerPayment(s0, s.log)
    requires Enabled(s, Lock(t, i)) && UserFree(s, t, s.rows[i].user)
    ensures ValidRun(s, ConfirmSteps(t, i, inv, clock, stamp))
            && !OncePerPayment(s0, Run(s, ConfirmSteps(t, i, inv, clock, stamp)).log)
        <==> Stale(s, Lock(t, i))
  {
    hide Run, ValidRun, Next, Enabled, UserFree, Applied, Exclusive, SessionOk, Ledger, OncePerPayment, MarkPaid,
      Extended;
    EnabledLock(s, t, i);
    ConfirmRun(s0, s, t, i, inv, clock, stamp);
    if !Applied(View(s, t, i)) {
      var log' := Run(s, ConfirmSteps(t, i, inv, clock, stamp)).log;
      assert log' == s.log + [log'[|s.log|]];
      OnceSnoc(s0, s, log'[|s.log|]);
    }
  }

  lemma OnceSnoc(s0: State, s: State, e: Entry)
    requires Ledger(s0, s) && OncePerPayment(s0, s.log) && e.payment < |s.rows|
    ensures OncePerPayment(s0, s.log + [e]) <==> !Applied(s.rows[e.payment])
  {
    hide Applied, AfterGrants;
    var all := s.log + [e];
    assert all[|s.log|] == e;
    assert forall k :: 0 <= k < |s.log| ==> all[k] == s.log[k];
    if Logged(s.log, e.payment) {
      var k :| 0 <= k < |s.log| && s.log[k].payment == e.payment;
      assert all[k].payment == all[|s.log|].payment;
    }
  }

  /** An expired payment can still be confirmed, by any session that is free to lock it. */
  lemma ExpiredCanBePaid(s0: State, s: State, t: nat, i: nat, clock: int, stamp: int)
    requires Inv(s0, s) && Enabled(s, Lock(t, i)) && UserFree(s, t, s.rows[i].user)
    requires s.rows[i].status == Status.Expired && i !in s.sessions[t].cache
    ensures var steps := ConfirmSteps(t, i, None, clock, stamp);
            && ValidRun(s, steps) && i < |Run(s, steps).rows|
            && Applied(Run(s, steps).rows[i]) && Run(s, steps).rows[i].status == Paid
  {
    ConfirmRun(s0, s, t, i, None, clock, stamp);
  }

  /** A run of the code as it is that pays for thirty days and gets sixty: session 0 is the
      on-demand check, which reads the pending payment; session 1 is the reconcile job, which
      confirms it; then session 0 confirms through its outdated copy. */
  lemma StaleCopyDoublesThePeriod(p: Payment, days: nat, now: int)
    requires p.status == Pending && p.appliedAt.None? && p.Days() == days
    ensures var s0 := State([p], map[], [Session(map[], Idle), Session(map[], Idle)], []);
            var steps := [Load(0, 0)] + ConfirmSteps(1, 0, None, now, now) + ConfirmSteps(0, 0, None, now, now);
            && Init(s0) && ValidRun(s0, steps)
            && p.user in Run(s0, steps).subs
            && Run(s0, steps).subs[p.user].expiresAt == Some(now + 2 * days * DAY)
            && !OncePerPayment(s0, Run(s0, steps).log)
  {
    var s0 := State([p], map[], [Session(map[], Idle), Session(map[], Idle)], []);
    var first, second := ConfirmSteps(1, 0, None, now, now), ConfirmSteps(0, 0, None, now, now);
    var s1 := AfterLoad(s0, p);
    var s2 := AfterFirst(s0, s1, p, now);
    TwoPeriods(days, now, ProviderName(p.provider));
    hide Next, Enabled, MarkPaid, Extended, Inv, Run, ValidRun;
    ConfirmRun(s0, s2, 0, 0, None, now, now);
    SecondExtensionExact(s0, s2, 0, 0, None, now, now);
    RunConcat(s1, first, second);
    RunCons(s0, Load(0, 0), first + second);
    assert [Load(0, 0)] + first + second == [Load(0, 0)] + (first + second);
  }

  lemma AfterLoad(s0: State, p: Payment) returns (s1: State)
    requires Init(s0) && s0.rows == [p] && s0.subs == map[] && |s0.sessions| == 2
    ensures Enabled(s0, Load(0, 0)) && s1 == Next(s0, Load(0, 0)) && Inv(s0, s1)
    ensures s1.rows == [p] && s1.log == [] && s1.subs == map[] && |s1.sessions| == 2
    ensures s1.sessions[0] == Session(map[0 := p], Idle) && s1.sessions[1] == Session(map[], Idle)
  {
    hide Inv;
    InitInv(s0);
    StepInv(s0, s0, Load(0, 0));
    s1 := Next(s0, Load(0, 0));
  }

  lemma TwoPeriods(days: nat, now: int, how: string)
    ensures Extended(Some(Extended(None, now, days, how)), now, days, how).expiresAt == Some(now + 2 * days * DAY)
  {
  }

  /** The state after session 1 has confirmed while session 0 still holds a copy of `p`. */
  lemma AfterFirst(s0: State, s1: State, p: Payment, now: int) returns (s2: State)
    requires Inv(s0, s1) && s1.rows == [p] && s1.log == [] && s1.subs == map[] && |s1.sessions| == 2
    requires s1.sessions[0] == Session(map[0 := p], Idle) && s1.sessions[1] == Session(map[], Idle)
    requires !Applied(p) && s0.rows == [p]
    ensures ValidRun(s1, ConfirmSteps(1, 0, None, now, now)) && s2 == Run(s1, ConfirmSteps(1, 0, None, now, now))
    ensures Inv(s0, s2) && OncePerPayment(s0, s2.log) && Enabled(s2, Lock(0, 0)) && UserFree(s2, 0, p.user)
    ensures s2.rows == [MarkPaid(p, p, None, now)] && View(s2, 0, 0) == p
    ensures s2.subs == map[p.user := Extended(None, now, p.Days(), ProviderName(p.provider))]
  {
    hide Extended, AfterGrants, GrantsOf;
    var first := ConfirmSteps(1, 0, None, now, now);
    ConfirmRun(s0, s1, 1, 0, None, now, now);
    RunInv(s0, s1, first);
    ConfirmLeavesOthers(s1, 1, 0, None, now, now, 0);
    s2 := Run(s1, first);
    hide ValidRun, Run, Inv, Next;
  }

  lemma ConfirmLeavesOthers(s: State, t: nat, i: nat, inv: Option<string>, clock: int, stamp: int, u: nat)
    requires ValidRun(s, ConfirmSteps(t, i, inv, clock, stamp)) && u < |s.sessions| && u != t
    ensures var s' := Run(s, ConfirmSteps(t, i, inv, clock, stamp));
            |s'.sessions| == |s.sessions| && s'.sessions[u] == s.sessions[u] && s'.sessions[t].pc.Idle?
  {
    hide Extended, MarkPaid, Applied, Run, ValidRun;
    var steps := ConfirmSteps(t, i, inv, clock, stamp);
    RunThree(s, steps[0], steps[1], steps[2]);
  }

  lemma {:induction false} RunConcat(s: State, a: seq<Step>, b: seq<Step>)
    requires ValidRun(s, a) && ValidRun(Run(s, a), b)
    ensures ValidRun(s, a + b) && Run(s, a + b) == Run(Run(s, a), b)
    decreases |a|
  {
    hide Next, Enabled;
    if a == [] {
      assert a + b == b;
    } else {
      RunConcat(Next(s, a[0]), a[1..], b);
      assert (a + b)[1..] == a[1..] + b;
    }
  }

  // ---------------------------------------------------------------- the sweep

  /** A sweep locks the rows one after another. */
  function SweepLocks(t: nat, rows: seq<nat>, now: int): seq<Step> {
    if rows == [] then [] else [SweepLock(t, rows[0], now)] + SweepLocks(t, rows[1..], now)
  }

  function HeldBy(pc: Pc): set<nat> {
    if pc.Sweeping? then pc.held else {}
  }

  predicate Overdue(p: Payment, now: int) {
    p.status == Pending && p.expiresAt <= now
  }

  /** A sweep takes a row exactly when the row is pending and overdue, and nobody else holds it. */
  lemma SweepLockExact(s: State, t: nat, i: nat, now: int)
    requires t < |s.sessions| && i < |s.rows|
    ensures Enabled(s, SweepLock(t, i, now)) <==>
              && (s.sessions[t].pc == Idle || s.sessions[t].pc.Sweeping?)
              && s.rows[i].status == Pending && s.rows[i].expiresAt <= now
              && forall u :: 0 <= u < |s.sessions| && u != t ==> !HoldsRow(s.sessions[u].pc, i)
  {
  }

  lemma {:induction false} LocksRun(s: State, t: nat, rows: seq<nat>, now: int)
    requires t < |s.sessions| && (s.sessions[t].pc.Idle? || s.sessions[t].pc.Sweeping?)
    requires forall k :: k in rows ==> k < |s.rows| && Overdue(s.rows[k], now) && RowFree(s, t, k)
    ensures ValidRun(s, SweepLocks(t, rows, now))
    ensures var s' := Run(s, SweepLocks(t, rows, now));
            && |s'.sessions| == |s.sessions| && s' == s.(sessions := s.sessions[t := s'.sessions[t]])
            && s'.sessions[t].cache == s.sessions[t].cache
            && (s'.sessions[t].pc.Sweeping? || (rows == [] && s'.sessions[t].pc.Idle?))
            && HeldBy(s'.sessions[t].pc) == HeldBy(s.sessions[t].pc) + set k | k in rows
    decreases |rows|
  {
    hide Enabled, Next, ValidRun, Run, RowFree;
    if rows == [] {
      RunNothing(s);
    } else {
      var step := SweepLock(t, rows[0], now);
      assert rows[0] in rows;
      var s1 := OneLock(s, t, rows[0], now);
      forall k | k in rows[1..]
        ensures k < |s1.rows| && Overdue(s1.rows[k], now) && RowFree(s1, t, k)
      {
        assert k in rows;
        FreeStays(s, s1, t, k);
      }
      LocksRun(s1, t, rows[1..], now);
      RunCons(s, step, SweepLocks(t, rows[1..], now));
      assert rows == [rows[0]] + rows[1..];
    }
  }

  lemma OneLock(s: State, t: nat, i: nat, now: int) returns (s1: State)
    requires t < |s.sessions| && (s.sessions[t].pc.Idle? || s.sessions[t].pc.Sweeping?)
    requires i < |s.rows| && Overdue(s.rows[i], now) && RowFree(s, t, i)
    ensures Enabled(s, SweepLock(t, i, now)) && s1 == Next(s, SweepLock(t, i, now))
    ensures s1 == s.(sessions := s.sessions[t := s.sessions[t].(pc := Sweeping(HeldBy(s.sessions[t].pc) + {i}))])
  {
    s1 := Next(s, SweepLock(t, i, now));
  }

  lemma FreeStays(s: State, s1: State, t: nat, k: nat)
    requires t < |s.sessions| == |s1.sessions| && RowFree(s, t, k)
    requires forall u :: 0 <= u < |s.sessions| && u != t ==> s1.sessions[u] == s.sessions[u]
    ensures RowFree(s1, t, k)
  {
    hide HoldsRow;
  }

  /** One call of `expire_stale_pending` is the uninterrupted sweep of all overdue rows: exactly these become
      expired, nothing else about them changes, and the session is free again. */
  lemma SweepIsRun(s: State, t: nat, rows: seq<nat>, now: int)
    requires t < |s.sessions| && s.sessions[t].pc.Idle? && rows != []
    requires forall k :: k in rows ==> k < |s.rows| && RowFree(s, t, k)
    requires forall k :: 0 <= k < |s.rows| ==> (k in rows <==> Overdue(s.rows[k], now))
    ensures var steps := SweepLocks(t, rows, now) + [SweepCommit(t)];
            && ValidRun(s, steps)
            && var s' := Run(s, steps);
            && s' == s.(rows := s'.rows) && |s'.rows| == |s.rows|
            && forall k :: 0 <= k < |s.rows| ==>
                 s'.rows[k] == if s.rows[k].status == Pending && s.rows[k].expiresAt <= now
                               then s.rows[k].(status := Status.Expired) else s.rows[k]
  {
    hide ValidRun, Run, RowFree, Enabled;
    LocksRun(s, t, rows, now);
    var s1 := Run(s, SweepLocks(t, rows, now));
    var s2 := CommitSweep(s1, t);
    assert [SweepCommit(t)] == [SweepCommit(t)] + [];
    RunCons(s1, SweepCommit(t), []);
    RunNothing(s2);
    RunConcat(s, SweepLocks(t, rows, now), [SweepCommit(t)]);
    assert s2.sessions == s.sessions;
  }

  lemma CommitSweep(s: State, t: nat) returns (s1: State)
    requires t < |s.sessions| && s.sessions[t].pc.Sweeping?
    ensures Enabled(s, SweepCommit(t)) && s1 == Next(s, SweepCommit(t))
    ensures s1 == s.(rows := s1.rows, sessions := s.sessions[t := s.sessions[t].(pc := Idle)]) && |s1.rows| == |s.rows|
    ensures forall k :: 0 <= k < |s.rows| ==>
              s1.rows[k] == if k in s.sessions[t].pc.held then s.rows[k].(status := Status.Expired) else s.rows[k]
  {
    s1 := Next(s, SweepCommit(t));
  }

  /** The lock on a subscription is per user: two sessions that hold payments of different users can both be
      extending. */
  lemma UsersDoNotBlock(s: State, t: nat, u: nat, inv: Option<string>, clock: int, stamp: int)
    requires t < |s.sessions| && u < |s.sessions| && t != u
    requires Enabled(s, Extend(t, inv, clock, stamp)) && Enabled(s, Extend(u, inv, clock, stamp))
    requires s.sessions[u].pc.i < |s.rows|
    requires s.rows[s.sessions[t].pc.i].user != s.sessions[u].cache[s.sessions[u].pc.i].user
    ensures Enabled(Next(s, Extend(t, inv, clock, stamp)), Extend(u, inv, clock, stamp))
  {
    hide Extended, Applied;
    var me := s.sessions[t];
    MarkPaidKeeps(me.cache[me.pc.i], s.rows[me.pc.i], inv, clock);
    hide MarkPaid;
  }
}
