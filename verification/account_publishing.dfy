/** Publication of account events by sessions that overlap (core/state_machine/account.py): each session
    publishes the records it has committed, in its own time. */
module AccountPublishing {
  import opened AccountMachine
  import AccountRuns
  import opened AccountRaces

  /** Each committed record is published at most once, by the session that committed it, and a session
      publishes in the order of the log. */
  ghost predicate Published(s: State) {
    && |s.published| == |s.sent| == |s.senders|
    && (forall i :: 0 <= i < |s.sent| ==>
          s.sent[i] < |s.history| && s.published[i] == AccountRuns.MessageOf(s.history[s.sent[i]]))
    && (forall i, j :: 0 <= i < j < |s.sent| ==> s.sent[i] != s.sent[j])
    && (forall i, j :: 0 <= i < j < |s.sent| && s.senders[i] == s.senders[j] ==> s.sent[i] < s.sent[j])
  }

  ghost predicate OutboxesOk(s: State)
    requires |s.sent| == |s.senders|
  {
    && (forall t :: 0 <= t < |s.sessions| ==> OutboxOk(s, t, s.sessions[t].outbox))
    && (forall t, u, k :: 0 <= t < u < |s.sessions| && k in s.sessions[t].outbox ==> k !in s.sessions[u].outbox)
  }

  ghost predicate OutboxOk(s: State, t: nat, outbox: seq<nat>)
    requires |s.sent| == |s.senders|
  {
    && Increasing(outbox)
    && (forall k :: 0 <= k < |outbox| ==> outbox[k] < |s.history|)
    && (forall i, k :: 0 <= i < |s.sent| && 0 <= k < |outbox| ==>
          s.sent[i] != outbox[k] && (s.senders[i] == t ==> s.sent[i] < outbox[k]))
  }

  lemma PublishKeeps(s: State, step: Step)
    requires Published(s) && OutboxesOk(s) && Enabled(s, step)
    ensures Published(Next(s, step))
  {
    hide AccountRuns.MessageOf, Transited, AccountRuns.EditOf, AccountRuns.Repointed, WrittenBack;
    if step.Publish? {
      var k := s.sessions[step.t].outbox[0];
      assert OutboxOk(s, step.t, s.sessions[step.t].outbox);
      var t := Next(s, step);
      assert t.sent[|s.sent|] == k && t.senders[|s.sent|] == step.t;
    }
  }

  lemma OutboxGrows(s: State, t: State, u: nat, outbox: seq<nat>, count: nat)
    requires |s.sent| == |s.senders| && OutboxOk(s, u, outbox) && |t.history| == |s.history| + count
    requires t.sent == s.sent && t.senders == s.senders
    requires forall i :: 0 <= i < |s.sent| ==> s.sent[i] < |s.history|
    ensures OutboxOk(t, u, outbox + Places(|s.history|, count))
  {
    var after := outbox + Places(|s.history|, count);
    forall i, k | 0 <= i < |t.sent| && 0 <= k < |after|
      ensures t.sent[i] != after[k] && (t.senders[i] == u ==> t.sent[i] < after[k])
    {
      if k < |outbox| {
        assert s.sent[i] != outbox[k];
      }
    }
  }

  lemma OutboxPublishes(s: State, t: State, u: nat, outbox: seq<nat>, v: nat, k: nat)
    requires |s.sent| == |s.senders| && OutboxOk(s, u, outbox) && t.history == s.history
    requires t.sent == s.sent + [k] && t.senders == s.senders + [v]
    requires if u == v then outbox != [] && k == outbox[0] else k !in outbox
    ensures OutboxOk(t, u, if u == v then outbox[1..] else outbox)
  {
    var after := if u == v then outbox[1..] else outbox;
    forall i, j | 0 <= i < |t.sent| && 0 <= j < |after|
      ensures t.sent[i] != after[j] && (t.senders[i] == u ==> t.sent[i] < after[j])
    {
      assert after[j] == outbox[if u == v then j + 1 else j];
      assert after[j] in outbox;
    }
  }

  lemma OutboxKept(s: State, step: Step, u: nat)
    requires Published(s) && OutboxesOk(s) && Enabled(s, step) && u < |s.sessions|
    ensures var t := Next(s, step);
            |t.sent| == |t.senders| && u < |t.sessions| && OutboxOk(t, u, t.sessions[u].outbox)
  {
    assert |s.sent| == |s.senders| && forall i :: 0 <= i < |s.sent| ==> s.sent[i] < |s.history|;
    assert OutboxOk(s, u, s.sessions[u].outbox);
    hide AccountRuns.MessageOf, Transited, AccountRuns.EditOf, AccountRuns.Repointed, WrittenBack,
      Published, OutboxOk, Admitted;
    var t := Next(s, step);
    var mine, me := s.sessions[u].outbox, s.sessions[step.t];
    assert mine + [] == mine;
    if step.Publish? {
      assert me.outbox[0] in me.outbox;
      OutboxPublishes(s, t, u, mine, step.t, me.outbox[0]);
    } else if step.Save? && Admitted(s.rows, me.copies) {
      OutboxGrows(s, t, u, mine, |me.pending|);
      OutboxShorter(t, u, mine, Places(|s.history|, |me.pending|));
    } else {
      OutboxGrows(s, t, u, mine, 0);
      if mine != [] {
        OutboxTail(t, u, mine);
      }
    }
  }

  lemma OutboxShorter(s: State, u: nat, outbox: seq<nat>, more: seq<nat>)
    requires |s.sent| == |s.senders| && OutboxOk(s, u, outbox + more)
    ensures OutboxOk(s, u, outbox)
  {
    assert forall k :: 0 <= k < |outbox| ==> (outbox + more)[k] == outbox[k];
  }

  lemma OutboxTail(s: State, u: nat, outbox: seq<nat>)
    requires |s.sent| == |s.senders| && OutboxOk(s, u, outbox) && outbox != []
    ensures OutboxOk(s, u, outbox[1..])
  {
    assert forall k :: 0 <= k < |outbox| - 1 ==> outbox[1..][k] == outbox[k + 1];
  }

  lemma OutboxesDisjoint(s: State, step: Step)
    requires Published(s) && OutboxesOk(s) && Enabled(s, step)
    ensures var t := Next(s, step);
            forall v, u, k :: 0 <= v < u < |t.sessions| && k in t.sessions[v].outbox ==> k !in t.sessions[u].outbox
  {
    assert |s.sent| == |s.senders|;
    hide AccountRuns.MessageOf, Transited, AccountRuns.EditOf, AccountRuns.Repointed, WrittenBack,
      Published, OutboxOk, Admitted;
    var t := Next(s, step);
    forall u, k | 0 <= u < |s.sessions| && u != step.t && k in s.sessions[u].outbox
      ensures k !in t.sessions[step.t].outbox
    {
      assert k !in s.sessions[step.t].outbox;
      if step.Save? {
        InRange(s, u, k);
        assert forall j :: 0 <= j < |s.sessions[step.t].pending| ==>
            Places(|s.history|, |s.sessions[step.t].pending|)[j] >= |s.history|;
      }
    }
  }

  lemma InRange(s: State, u: nat, k: nat)
    requires |s.sent| == |s.senders| && u < |s.sessions| && OutboxOk(s, u, s.sessions[u].outbox)
    requires k in s.sessions[u].outbox
    ensures k < |s.history|
  {
  }

  /** In every interleaving, outdated copies or not, the messages are those of committed records, each
      published at most once, and each session's in the order of the log. */
  lemma {:induction false} PublishedOnce(s0: State, steps: seq<Step>)
    requires Start(s0)
    ensures Published(Run(s0, steps)) && OutboxesOk(Run(s0, steps))
  {
    hide Next, Enabled;
    if steps != [] {
      var s, step := Run(s0, steps[..|steps| - 1]), steps[|steps| - 1];
      PublishedOnce(s0, steps[..|steps| - 1]);
      if Enabled(s, step) {
        hide Published, OutboxesOk, Start;
        PublishKeeps(s, step);
        OutboxesKept(s, step);
      } else {
        NotEnabled(s, step);
      }
    }
  }

  /** A message announces the record it is about: the account, the two statuses, the event and its sender,
      and the deadline that the record has stored. */
  lemma MessagesAnnounce(s0: State, steps: seq<Step>, i: nat)
    requires Start(s0) && i < |Run(s0, steps).published|
    ensures var s := Run(s0, steps);
            && |s.sent| == |s.published| && s.sent[i] < |s.history|
            && var m, r := s.published[i], s.history[s.sent[i]];
            && m.accountId == r.accountId && m.from == r.from && m.to == r.to
            && m.reason == r.reason && m.initiator == r.initiator
            && m.cooldownUntil == Stored(r.meta, "cooldown_until")
  {
    hide Run, OutboxesOk;
    PublishedOnce(s0, steps);
  }

  lemma OutboxesKept(s: State, step: Step)
    requires Published(s) && OutboxesOk(s) && Enabled(s, step)
    ensures |Next(s, step).sent| == |Next(s, step).senders| && OutboxesOk(Next(s, step))
  {
    hide Published, OutboxOk, Enabled, Local;
    var t := Next(s, step);
    SessionsStay(s, step);
    OutboxKept(s, step, step.t);
    forall u | 0 <= u < |t.sessions|
      ensures OutboxOk(t, u, t.sessions[u].outbox)
    {
      OutboxKept(s, step, u);
    }
    OutboxesDisjoint(s, step);
  }

  lemma SessionsStay(s: State, step: Step)
    requires Enabled(s, step)
    ensures step.t < |s.sessions| && |Next(s, step).sessions| == |s.sessions|
  {
  }

  // ---------------------------------------------------------------- the order of the channel

  /** Record k is committed and session u has still to publish it. */
  predicate Waiting(s: State, u: int, k: nat) {
    0 <= u < |s.sessions| && k in s.sessions[u].outbox
  }

  /** Everything that waits is later in the log than everything that is published, and that is in order. */
  ghost predicate InStep(s: State) {
    && Increasing(s.sent)
    && forall u, k, i :: Waiting(s, u, k) && 0 <= i < |s.sent| ==> s.sent[i] < k
  }

  /** The step publishes a later record while k is waiting. */
  predicate OvertakesRecord(s: State, step: Step, k: nat) {
    step.Publish? && Enabled(s, step) && k < s.sessions[step.t].outbox[0] &&
    exists u :: 0 <= u < |s.sessions| && Waiting(s, u, k)
  }

  /** The step publishes a record while an earlier one is waiting in some session. */
  ghost predicate Overtakes(s: State, step: Step) {
    exists k :: OvertakesRecord(s, step, k)
  }

  /** Where the records that wait after a step come from. */
  lemma WaitingAfter(s: State, step: Step, u: int, k: nat)
    requires Published(s) && OutboxesOk(s) && Enabled(s, step) && Waiting(Next(s, step), u, k)
    ensures Waiting(s, u, k) || (step.Save? && u == step.t && k >= |s.history|)
    ensures step.Publish? ==> k != s.sessions[step.t].outbox[0] && (u == step.t ==> k > s.sessions[step.t].outbox[0])
  {
    hide AccountRuns.MessageOf, Transited, AccountRuns.EditOf, AccountRuns.Repointed, WrittenBack, Admitted;
    var mine := s.sessions[step.t].outbox;
    assert OutboxOk(s, step.t, mine);
    if step.Publish? {
      assert mine[0] in mine;
      if u == step.t {
        var p :| 0 <= p < |mine[1..]| && mine[1..][p] == k;
        assert mine[p + 1] == k;
      }
    }
    if (step.Publish? || step.Drop?) && u == step.t {
      var p :| 0 <= p < |mine[1..]| && mine[1..][p] == k;
      assert mine[p + 1] == k;
    }
  }

  lemma StaysWaiting(s: State, step: Step, u: int, k: nat)
    requires Enabled(s, step) && step.Publish? && Waiting(s, u, k) && k != s.sessions[step.t].outbox[0]
    ensures Waiting(Next(s, step), u, k)
  {
    hide AccountRuns.MessageOf;
    if u == step.t {
      var mine := s.sessions[u].outbox;
      assert mine == [mine[0]] + mine[1..];
    }
  }

  lemma SentAfter(s: State, step: Step)
    requires Enabled(s, step)
    ensures Next(s, step).sent == if step.Publish? then s.sent + [s.sessions[step.t].outbox[0]] else s.sent
  {
    hide AccountRuns.MessageOf, Transited, AccountRuns.EditOf, AccountRuns.Repointed, WrittenBack, Admitted;
  }

  lemma SentInHistory(s: State)
    requires Published(s)
    ensures forall i :: 0 <= i < |s.sent| ==> s.sent[i] < |s.history|
  {
  }

  lemma StillAhead(s: State, step: Step, u: int, k: nat, i: nat)
    requires Published(s) && OutboxesOk(s) && InStep(s) && Enabled(s, step) && !Overtakes(s, step)
    requires Waiting(Next(s, step), u, k) && i < |Next(s, step).sent|
    ensures Next(s, step).sent[i] < k
  {
    SentAfter(s, step);
    SentInHistory(s);
    WaitingAfter(s, step, u, k);
    assert !OvertakesRecord(s, step, k);
    hide Next, Published, OutboxesOk, Overtakes;
    if step.Publish? {
      HeadWaits(s, step);
      assert k >= s.sessions[step.t].outbox[0];
    }
  }

  /** A step keeps the channel in step with the log exactly when it does not overtake a waiting record. */
  lemma OvertakingExact(s: State, step: Step)
    requires Published(s) && OutboxesOk(s) && InStep(s) && Enabled(s, step)
    ensures InStep(Next(s, step)) <==> !Overtakes(s, step)
  {
    SentAfter(s, step);
    var t := Next(s, step);
    if Overtakes(s, step) {
      var k :| OvertakesRecord(s, step, k);
      var u :| 0 <= u < |s.sessions| && Waiting(s, u, k);
      StaysWaiting(s, step, u, k);
      assert t.sent[|s.sent|] > k;
    } else {
      hide Next, Published, OutboxesOk, Enabled, Overtakes, Waiting;
      forall u, k, i | Waiting(t, u, k) && 0 <= i < |t.sent|
        ensures t.sent[i] < k
      {
        StillAhead(s, step, u, k, i);
      }
      if step.Publish? {
        HeadWaits(s, step);
        assert Increasing(t.sent);
      }
    }
  }

  lemma HeadWaits(s: State, step: Step)
    requires Enabled(s, step) && step.Publish?
    ensures s.sessions[step.t].outbox != [] && Waiting(s, step.t, s.sessions[step.t].outbox[0])
  {
  }

  ghost predicate NeverOvertakes(s0: State, steps: seq<Step>) {
    steps != [] ==>
      NeverOvertakes(s0, steps[..|steps| - 1]) && !Overtakes(Run(s0, steps[..|steps| - 1]), steps[|steps| - 1])
  }

  ghost predicate AlwaysInStep(s0: State, steps: seq<Step>) {
    InStep(Run(s0, steps)) && (steps != [] ==> AlwaysInStep(s0, steps[..|steps| - 1]))
  }

  /** In any interleaving the channel is in step with the log all the time if and only if no record is ever
      published while an earlier one is waiting in some session. */
  lemma {:induction false} InStepExact(s0: State, steps: seq<Step>)
    requires Start(s0)
    ensures AlwaysInStep(s0, steps) <==> NeverOvertakes(s0, steps)
  {
    if steps != [] {
      var front, step := steps[..|steps| - 1], steps[|steps| - 1];
      InStepExact(s0, front);
      hide Next, Published, OutboxesOk, Start, InStep;
      PublishedOnce(s0, front);
      AlwaysEnds(s0, front);
      if InStep(Run(s0, front)) {
        if Enabled(Run(s0, front), step) {
          OvertakingExact(Run(s0, front), step);
        } else {
          NotEnabled(Run(s0, front), step);
        }
      }
    }
  }

  lemma AlwaysEnds(s0: State, steps: seq<Step>)
    ensures AlwaysInStep(s0, steps) ==> InStep(Run(s0, steps))
  {
  }

  ghost function NewlyOvertaken(s: State, step: Step): (late: set<nat>)
    ensures forall k :: k in late <==> OvertakesRecord(s, step, k)
  {
    if step.Publish? && Enabled(s, step) then
      set k | 0 <= k < s.sessions[step.t].outbox[0] && OvertakesRecord(s, step, k)
    else {}
  }

  /** The records that were overtaken while they were waiting. */
  ghost function Overtaken(s0: State, steps: seq<Step>): set<nat> {
    if steps == [] then {}
    else Overtaken(s0, steps[..|steps| - 1]) + NewlyOvertaken(Run(s0, steps[..|steps| - 1]), steps[|steps| - 1])
  }

  lemma OvertakenSnoc(s0: State, front: seq<Step>, step: Step)
    ensures Overtaken(s0, front + [step]) == Overtaken(s0, front) + NewlyOvertaken(Run(s0, front), step)
  {
    hide Run, Enabled, NewlyOvertaken;
    assert (front + [step])[..|front|] == front;
  }

  /** The step publishes one of these records. */
  predicate PublishesOne(s: State, step: Step, late: set<nat>) {
    step.Publish? && Enabled(s, step) && s.sessions[step.t].outbox[0] in late
  }

  /** No record is published after it was overtaken; an overtaken one may still be lost. */
  ghost predicate OvertakenStayAway(s0: State, steps: seq<Step>) {
    steps != [] ==>
      var front := steps[..|steps| - 1];
      OvertakenStayAway(s0, front) && !PublishesOne(Run(s0, front), steps[|steps| - 1], Overtaken(s0, front))
  }

  /** A waiting record is marked exactly when a later one was published before it. */
  ghost predicate MarksOk(s: State, late: set<nat>) {
    && (forall k :: k in late ==> k < |s.history|)
    && forall u, k :: Waiting(s, u, k) ==> (k in late <==> exists i :: 0 <= i < |s.sent| && s.sent[i] > k)
  }

  lemma HistoryGrows(s: State, step: Step)
    ensures |s.history| <= |Next(s, step).history|
  {
    hide AccountRuns.MessageOf, Transited, AccountRuns.EditOf, AccountRuns.Repointed, WrittenBack, Admitted;
  }

  lemma StepMarks(s0: State, front: seq<Step>, step: Step)
    requires Start(s0) && MarksOk(Run(s0, front), Overtaken(s0, front))
    ensures MarksOk(Run(s0, front + [step]), Overtaken(s0, front + [step]))
  {
    RunSnoc(s0, front, step);
    OvertakenSnoc(s0, front, step);
    PublishedOnce(s0, front);
    MarksKept(Run(s0, front), step, Overtaken(s0, front));
  }

  lemma MarksKept(s: State, step: Step, late: set<nat>)
    requires Published(s) && OutboxesOk(s) && MarksOk(s, late)
    ensures MarksOk(Next(s, step), late + NewlyOvertaken(s, step))
  {
    HistoryGrows(s, step);
    hide Next, Enabled, OutboxesOk, Published, Waiting, NewlyOvertaken, OvertakesRecord;
    var t := Next(s, step);
    var after := late + NewlyOvertaken(s, step);
    forall k | k in after
      ensures k < |t.history|
    {
      if k !in late {
        OvertakenInHistory(s, step, k);
      }
    }
    forall u, k | Waiting(t, u, k)
      ensures k in after <==> exists i :: 0 <= i < |t.sent| && t.sent[i] > k
    {
      if Enabled(s, step) {
        WaitingMarks(s, late, step, u, k);
      } else {
        NotEnabled(s, step);
        NotOvertaking(s, step, k);
      }
    }
  }

  lemma NotOvertaking(s: State, step: Step, k: nat)
    requires !Enabled(s, step)
    ensures !OvertakesRecord(s, step, k)
  {
  }

  lemma OvertakenInHistory(s: State, step: Step, k: nat)
    requires Published(s) && OutboxesOk(s) && OvertakesRecord(s, step, k)
    ensures k < |s.history|
  {
    var u :| 0 <= u < |s.sessions| && Waiting(s, u, k);
    InRange(s, u, k);
  }

  lemma WaitingMarks(s: State, late: set<nat>, step: Step, u: int, k: nat)
    requires Published(s) && OutboxesOk(s) && Enabled(s, step) && MarksOk(s, late) && Waiting(Next(s, step), u, k)
    ensures var t := Next(s, step);
            k in late || OvertakesRecord(s, step, k) <==> exists i :: 0 <= i < |t.sent| && t.sent[i] > k
  {
    SentAfter(s, step);
    SentInHistory(s);
    WaitingAfter(s, step, u, k);
    hide Next, Published, OutboxesOk, Waiting;
    var t := Next(s, step);
    if step.Publish? {
      WaitingSession(s, u, k);
      assert t.sent[|s.sent|] == s.sessions[step.t].outbox[0];
      assert forall i :: 0 <= i < |s.sent| ==> t.sent[i] == s.sent[i];
    }
  }

  lemma WaitingSession(s: State, u: int, k: nat)
    requires Waiting(s, u, k)
    ensures 0 <= u < |s.sessions|
  {
  }

  /** In any interleaving the published messages are in the order of the log if and only if no record is
      published after a later one has overtaken it while it was waiting. */
  lemma {:induction false} PublishOrderExact(s0: State, steps: seq<Step>)
    requires Start(s0)
    ensures Increasing(Run(s0, steps).sent) <==> OvertakenStayAway(s0, steps)
    ensures MarksOk(Run(s0, steps), Overtaken(s0, steps))
  {
    hide MarksOk, Overtaken, Start, Published, OutboxesOk, Enabled, Next;
    if steps == [] {
      NothingMarked(s0);
    } else {
      var front, step := steps[..|steps| - 1], steps[|steps| - 1];
      var s := Run(s0, front);
      PublishOrderExact(s0, front);
      PublishedOnce(s0, front);
      assert steps == front + [step];
      StepMarks(s0, front, step);
      if Enabled(s, step) {
        SentAfter(s, step);
        if step.Publish? {
          HeadMarked(s, Overtaken(s0, front), step, Next(s, step).sent);
        }
      } else {
        NotEnabled(s, step);
      }
    }
  }

  lemma NothingMarked(s0: State)
    requires Start(s0)
    ensures Increasing(s0.sent) && MarksOk(s0, Overtaken(s0, []))
  {
  }

  lemma HeadMarked(s: State, late: set<nat>, step: Step, after: seq<nat>)
    requires Published(s) && OutboxesOk(s) && MarksOk(s, late) && Enabled(s, step) && step.Publish?
    requires after == s.sent + [s.sessions[step.t].outbox[0]]
    ensures Increasing(after) <==> Increasing(s.sent) && !PublishesOne(s, step, late)
  {
    var k := s.sessions[step.t].outbox[0];
    HeadWaits(s, step);
    assert OutboxOk(s, step.t, s.sessions[step.t].outbox);
    hide Increasing, Enabled, Published, OutboxesOk, OutboxOk;
    SentSnoc(s, after, k);
  }

  lemma SentSnoc(s: State, after: seq<nat>, k: nat)
    requires after == s.sent + [k] && k !in s.sent
    ensures Increasing(after) <==> Increasing(s.sent) && !exists i :: 0 <= i < |s.sent| && s.sent[i] > k
  {
    assert after[|s.sent|] == k;
    assert forall i :: 0 <= i < |s.sent| ==> after[i] == s.sent[i] && s.sent[i] in s.sent;
  }

  /** A session that commits second can publish first: the channel is then not in log order. */
  lemma PublishedOutOfOrder(a: Account, now: int)
    requires AccountRuns.AccountInv(a) && a.status == Pool
    ensures var second := Decide(0, 1, BanDetected, Health, map[], now);
            var steps := Overlapping(Decide(1, 1, Retire, User, map[], now), second) + [Publish(0)] + [Publish(1)];
            Run(TwoSessions(a), steps).sent == [1, 0]
  {
    hide Transited, Run, JsonMeta, Merge, Next;
    var first, second := Decide(1, 1, Retire, User, map[], now), Decide(0, 1, BanDetected, Health, map[], now);
    TableMeansAfter(1, a, Retire, User, map[], now);
    TableMeansAfter(1, a, BanDetected, Health, map[], now);
    MergeColumns(a, Copy(a, After(a, Retire, map[], now)));
    MergeColumns(Merge(a, Copy(a, After(a, Retire, map[], now))), Copy(a, After(a, BanDetected, map[], now)));
    BothAccepted(a, Retire, User, map[], now, BanDetected, Health, map[], now);
    var steps := Overlapping(first, second);
    RunSnoc(TwoSessions(a), steps, Publish(0));
    RunSnoc(TwoSessions(a), steps + [Publish(0)], Publish(1));
    PublishTwice(Run(TwoSessions(a), steps));
  }

  lemma PublishTwice(s: State)
    requires |s.sessions| == 2 && s.sessions[0].outbox == [1] && s.sessions[1].outbox == [0]
    requires |s.history| == 2 && s.sent == []
    ensures Next(Next(s, Publish(0)), Publish(1)).sent == [1, 0]
  {
    hide AccountRuns.MessageOf;
  }
}
