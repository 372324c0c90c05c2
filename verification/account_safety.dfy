/** When overlapping sessions keep every account good (core/state_machine/account.py,
    modules/commenting/api/service.py): the exact condition over whole runs. */
module AccountSafety {
  import opened Wrappers
  import opened AccountMachine
  import AccountRuns
  import opened AccountRaces

  /** What a session has done to an account since its last commit, apart from updates of other columns. */
  datatype Act = Fired(event: Event, meta: Meta) | Moved(to: int)

  type Acts = map<(nat, int), Act>

  /** The acts of the sessions after a step. */
  function ActsAfter(s: State, step: Step, acts: Acts): Acts {
    if !Enabled(s, step) then acts
    else
      match step
      case Decide(t, id, event, _, meta, _) => acts[(t, id) := Fired(event, meta)]
      case Redirect(t, id, _, to) => acts[(t, id) := Moved(to)]
      case Save(t) => map k | k in acts && k.0 != t :: acts[k]
      case Undo(t) => map k | k in acts && k.0 != t :: acts[k]
      case _ => acts
  }

  function ActsOf(s0: State, steps: seq<Step>): Acts {
    if steps == [] then map[]
    else ActsAfter(Run(s0, steps[..|steps| - 1]), steps[|steps| - 1], ActsOf(s0, steps[..|steps| - 1]))
  }

  /** A transaction has at most one event or re-pointing per account; a transition commits at once, and a
      detachment re-points to another campaign. */
  predicate ActsOnce(s: State, step: Step, acts: Acts) {
    match step
    case Decide(t, id, _, _, _, _) => (t, id) !in acts
    case Redirect(t, id, from, to) => (t, id) !in acts && from != to
    case _ => true
  }

  predicate OneActEach(s0: State, steps: seq<Step>) {
    steps != [] ==>
      var front := steps[..|steps| - 1];
      OneActEach(s0, front) && ActsOnce(Run(s0, front), steps[|steps| - 1], ActsOf(s0, front))
  }

  // ---------------------------------------------------------------- safe commits

  ghost predicate GoodRows(s: State) {
    forall id :: id in s.rows ==> AccountRuns.AccountInv(s.rows[id])
  }

  /** Every event of the transaction is safe for the row as it is by then; re-pointings always are. */
  ghost predicate SafeActs(s: State, t: nat, acts: Acts)
    requires t < |s.sessions|
  {
    forall id :: id in s.rows && id in s.sessions[t].copies && (t, id) in acts && acts[(t, id)].Fired? ==>
      Safe(s.rows[id], s.sessions[t].copies[id].loaded, acts[(t, id)].event, acts[(t, id)].meta)
  }

  /** The step is not a commit, or the table refuses it, or it is safe. */
  ghost predicate SafeStep(s: State, step: Step, acts: Acts) {
    step.Save? && step.t < |s.sessions| && Admitted(s.rows, s.sessions[step.t].copies) ==>
      SafeActs(s, step.t, acts)
  }

  /** What a copy is, given what was done to it. */
  predicate CopyIs(c: Copy, act: Option<Act>) {
    && AccountRuns.AccountInv(c.loaded)
    && match act
       case None => SameState(c.current, c.loaded)
       case Some(Fired(event, meta)) => HadEvent(c, event, meta)
       case Some(Moved(to)) =>
         && AccountRuns.HasContainer(c.loaded) && c.loaded.containerId != Number(to)
         && SameState(c.current, c.loaded.(containerId := Number(to)))
  }

  function ActOn(acts: Acts, t: nat, id: int): Option<Act> {
    if (t, id) in acts then Some(acts[(t, id)]) else None
  }

  ghost predicate CopiesOk(s: State, acts: Acts) {
    && (forall t, id :: 0 <= t < |s.sessions| && id in s.sessions[t].copies ==>
          id in s.rows && CopyIs(s.sessions[t].copies[id], ActOn(acts, t, id)))
    && (forall t, id :: (t, id) in acts ==> t < |s.sessions| && id in s.sessions[t].copies)
  }

  /** Writing back one copy keeps its row good exactly when it is safe. */
  lemma RowExact(row: Account, c: Copy, act: Option<Act>)
    requires AccountRuns.AccountInv(row) && CopyIs(c, act) && AccountRuns.TableOk(Merge(row, c))
    ensures AccountRuns.AccountInv(Merge(row, c)) <==>
              (act.Some? && act.value.Fired? ==> Safe(row, c.loaded, act.value.event, act.value.meta))
  {
    hide Merge, Safe, HadEvent, AccountRuns.AccountInv, AccountRuns.TableOk;
    match act
    case None =>
      MergeSame(row, c);
    case Some(Fired(event, meta)) => MergeExact(row, c, event, meta);
    case Some(Moved(to)) => RepointMerge(row, c, to);
  }

  lemma MergeSame(row: Account, c: Copy)
    requires SameState(c.current, c.loaded)
    ensures AccountRuns.AccountInv(Merge(row, c)) <==> AccountRuns.AccountInv(row)
  {
    assert SameState(Merge(row, c), row);
  }

  /** A copy stays good after its act. */
  lemma CopyGood(c: Copy, act: Option<Act>)
    requires CopyIs(c, act)
    ensures AccountRuns.AccountInv(c.current)
  {
    hide Row, After, DataPresent;
    match act
    case None => SameStateSameInv(c.current, c.loaded);
    case Some(Fired(event, meta)) =>
      AccountRuns.AfterKeepsInv(c.loaded, event, meta, 0);
      SameStateSameInv(c.current, After(c.loaded, event, meta, 0));
    case Some(Moved(to)) => SameStateSameInv(c.current, c.loaded.(containerId := Number(to)));
  }

  /** A commit keeps all rows good exactly when it is safe. */
  lemma SaveExact(s: State, step: Step, acts: Acts)
    requires GoodRows(s) && CopiesOk(s, acts) && step.Save? && Enabled(s, step)
    ensures GoodRows(Next(s, step)) <==> SafeStep(s, step, acts)
  {
    hide Merge, Safe, CopyIs, AccountRuns.AccountInv, AccountRuns.TableOk;
    var t, me := Next(s, step), s.sessions[step.t];
    if Admitted(s.rows, me.copies) {
      forall id | id in s.rows
        ensures id in t.rows
        ensures AccountRuns.AccountInv(t.rows[id]) <==>
                  (id in me.copies && (step.t, id) in acts && acts[(step.t, id)].Fired? ==>
                     Safe(s.rows[id], me.copies[id].loaded, acts[(step.t, id)].event, acts[(step.t, id)].meta))
      {
        if id in me.copies {
          RowExact(s.rows[id], me.copies[id], ActOn(acts, step.t, id));
        }
      }
    }
  }

  lemma OthersKeepRows(s: State, step: Step)
    requires !step.Save? || !Enabled(s, step)
    ensures Next(s, step).rows == s.rows
  {
    hide AccountRuns.MessageOf, Transited, AccountRuns.EditOf, AccountRuns.Repointed, WrittenBack, Admitted;
  }

  /** Each session's copies stay what its acts say, as long as the rows it loads are good. */
  lemma CopiesKept(s: State, step: Step, acts: Acts)
    requires GoodRows(s) && CopiesOk(s, acts) && Enabled(s, step) && ActsOnce(s, step, acts)
    ensures CopiesOk(Next(s, step), ActsAfter(s, step, acts))
  {
    hide CopyIs, AccountRuns.AccountInv, Admitted, AccountRuns.MessageOf, Merge, Transited, AccountRuns.EditOf,
      AccountRuns.Repointed, AccountRuns.Leads;
    var t, after := Next(s, step), ActsAfter(s, step, acts);
    forall u, id | 0 <= u < |t.sessions| && id in t.sessions[u].copies
      ensures id in t.rows && CopyIs(t.sessions[u].copies[id], ActOn(after, u, id))
    {
      if u == step.t {
        CopyKept(s, step, acts, id);
      } else {
        assert ActOn(after, u, id) == ActOn(acts, u, id);
      }
    }
  }

  lemma CopyKept(s: State, step: Step, acts: Acts, id: int)
    requires GoodRows(s) && CopiesOk(s, acts) && Enabled(s, step) && ActsOnce(s, step, acts)
    requires id in Local(s, step).copies
    ensures id in s.rows && CopyIs(Local(s, step).copies[id], ActOn(ActsAfter(s, step, acts), step.t, id))
  {
    hide CopyIs, AccountRuns.AccountInv, Admitted, Transited, AccountRuns.EditOf,
      AccountRuns.Repointed, AccountRuns.Leads;
    var me := s.sessions[step.t];
    assert id in me.copies ==> CopyIs(me.copies[id], ActOn(acts, step.t, id));
    match step
    case Load(t, i) =>
      if i == id {
        Loaded(s.rows[id]);
      }
    case Decide(t, i, event, initiator, meta, now) =>
      if i == id {
        EventActs(me.copies[id], id, event, initiator, meta, now);
      }
    case Change(t, i, values) =>
      if i == id {
        ChangeActs(me.copies[id], ActOn(acts, t, id), values);
      }
    case Redirect(t, i, from, to) =>
      if i == id {
        RepointActs(me.copies[id], from, to);
      }
    case Save(t) =>
      if Admitted(s.rows, me.copies) {
        CopyGood(me.copies[id], ActOn(acts, t, id));
        Loaded(me.copies[id].current);
      }
    case Undo(_) =>
    case Publish(_) =>
    case Drop(_) =>
  }

  lemma Loaded(a: Account)
    requires AccountRuns.AccountInv(a)
    ensures CopyIs(Copy(a, a), None)
  {
  }

  lemma EventActs(c: Copy, id: int, event: Event, initiator: Initiator, meta: Meta, now: int)
    requires CopyIs(c, None) && Transited(id, c.current, event, initiator, meta, now).Commit?
    ensures var o := Transited(id, c.current, event, initiator, meta, now);
            CopyIs(c.(current := o.account), Some(Fired(event, meta)))
  {
    hide Transited, Get, JsonMeta, AccountRuns.AccountInv;
    TableMeansAfter(id, c.current, event, initiator, meta, now);
  }

  lemma ChangeActs(c: Copy, act: Option<Act>, values: map<string, Value>)
    requires CopyIs(c, act) && AccountRuns.EditOf(c.current, values).Edited?
    ensures CopyIs(c.(current := AccountRuns.EditOf(c.current, values).account), act)
  {
    hide Row, After, DataPresent, AccountRuns.AccountInv, AccountRuns.FINGERPRINT;
  }

  lemma RepointActs(c: Copy, from: int, to: int)
    requires CopyIs(c, None) && AccountRuns.Leads(c.current, from) && from != to
    ensures CopyIs(c.(current := AccountRuns.Repointed(c.current, from, to)), Some(Moved(to)))
  {
    hide AccountRuns.AccountInv;
  }

  // ---------------------------------------------------------------- runs

  ghost predicate AlwaysGood(s0: State, steps: seq<Step>) {
    GoodRows(Run(s0, steps)) && (steps != [] ==> AlwaysGood(s0, steps[..|steps| - 1]))
  }

  ghost predicate AlwaysSafe(s0: State, steps: seq<Step>) {
    steps != [] ==>
      var front := steps[..|steps| - 1];
      AlwaysSafe(s0, front) && SafeStep(Run(s0, front), steps[|steps| - 1], ActsOf(s0, front))
  }

  lemma StepExact(s: State, step: Step, acts: Acts)
    requires GoodRows(s) && CopiesOk(s, acts) && ActsOnce(s, step, acts)
    ensures GoodRows(Next(s, step)) <==> SafeStep(s, step, acts)
    ensures CopiesOk(Next(s, step), ActsAfter(s, step, acts))
  {
    if Enabled(s, step) {
      CopiesKept(s, step, acts);
      hide Next, CopiesOk, ActsOnce, ActsAfter, Enabled;
      if step.Save? {
        SaveExact(s, step, acts);
      } else {
        OthersKeepRows(s, step);
      }
    } else {
      NotEnabled(s, step);
    }
  }

  /** Over any interleaving of transactions with one act per account, every account satisfies its invariant
      all the time if and only if every commit that the table accepts is safe: each of its events finds
      the other columns of the row as that event needs them. */
  lemma {:induction false} AlwaysGoodExact(s0: State, steps: seq<Step>)
    requires Start(s0) && OneActEach(s0, steps)
    ensures AlwaysGood(s0, steps) <==> AlwaysSafe(s0, steps)
    ensures AlwaysGood(s0, steps) ==> CopiesOk(Run(s0, steps), ActsOf(s0, steps))
  {
    hide GoodRows, CopiesOk, Next, SafeStep, ActsOnce, ActsAfter, Start;
    if steps == [] {
      StartGood(s0);
    } else {
      var front, step := steps[..|steps| - 1], steps[|steps| - 1];
      AlwaysGoodExact(s0, front);
      GoodAtEnd(s0, front);
      if AlwaysGood(s0, front) {
        StepExact(Run(s0, front), step, ActsOf(s0, front));
      }
    }
  }

  lemma StartGood(s0: State)
    requires Start(s0)
    ensures GoodRows(s0) && CopiesOk(s0, map[])
  {
    hide AccountRuns.AccountInv;
  }

  lemma GoodAtEnd(s0: State, steps: seq<Step>)
    ensures AlwaysGood(s0, steps) ==> GoodRows(Run(s0, steps))
  {
  }
}
