/** Overlapping transactions on one bulk job (worker/tasks/bulk.py, core/repositories/bulk_job.py).

    Nothing locks the job while its counters are recomputed.  A worker that ends an item changes the item,
    reads the other items as they are committed, and later writes the counters, and the status when it
    found nothing left, onto the job row as it is by then; the ORM writes the columns that differ from what
    it read.  Other transactions commit in between. */
module BulkRaces {
  import opened Wrappers
  import opened BulkJobs

  /** A worker that is ending an item: what it does, and the job as it read it. */
  datatype Txn = Txn(step: Step, seen: Job)

  datatype State = State(job: Job, txns: seq<Option<Txn>>)

  /** `Whole` is a transaction without overlap, `Read` and `Write` are the halves of one that ends an item. */
  datatype Move = Whole(step: Step) | Read(t: nat, step: Step) | Write(t: nat)

  predicate EndsItem(step: Step) {
    step.Settle? || step.Defer?
  }

  /** The job after the second half: the item, and the columns that the recount changed. */
  function Written(j: Job, x: Txn): Job
    requires EndsItem(x.step) && Enabled(x.seen, x.step) && x.step.i < |j.items|
  {
    var k := Next(x.seen, x.step);
    Job(Column(j.status, x.seen.status, k.status), j.total, Column(j.done, x.seen.done, k.done),
        Column(j.failed, x.seen.failed, k.failed), Column(j.skipped, x.seen.skipped, k.skipped),
        j.startedAt, Column(j.finishedAt, x.seen.finishedAt, k.finishedAt),
        j.items[x.step.i := k.items[x.step.i]])
  }

  /** An item is ended by one worker at a time. */
  predicate Ends(x: Option<Txn>, i: nat) {
    x.Some? && EndsItem(x.value.step) && x.value.step.i == i
  }

  predicate CanMove(s: State, m: Move) {
    match m
    case Whole(step) => !EndsItem(step)
    case Read(t, step) =>
      t < |s.txns| && s.txns[t].None? && EndsItem(step) && Enabled(s.job, step)
      && forall u :: 0 <= u < |s.txns| ==> !Ends(s.txns[u], step.i)
    case Write(t) =>
      t < |s.txns| && s.txns[t].Some? && EndsItem(s.txns[t].value.step)
      && Enabled(s.txns[t].value.seen, s.txns[t].value.step) && s.txns[t].value.step.i < |s.job.items|
  }

  function Moved(s: State, m: Move): State {
    if !CanMove(s, m) then s
    else
      match m
      case Whole(step) => s.(job := Next(s.job, step))
      case Read(t, step) => s.(txns := s.txns[t := Some(Txn(step, s.job))])
      case Write(t) => State(Written(s.job, s.txns[t].value), s.txns[t := None])
  }

  function Run(s: State, moves: seq<Move>): State {
    if moves == [] then s else Moved(Run(s, moves[..|moves| - 1]), moves[|moves| - 1])
  }

  // ---------------------------------------------------------------- one write

  /** What the worker found when it read: its own item ended, and nothing else open. */
  predicate FoundNothingLeft(x: Txn)
    requires EndsItem(x.step) && Enabled(x.seen, x.step)
  {
    x.seen.status != JobCancelled && Open(Next(x.seen, x.step).items) == 0
  }

  /** The job's items as they will be. */
  function ItemsAfter(j: Job, x: Txn): seq<Item>
    requires EndsItem(x.step) && Enabled(x.seen, x.step) && x.step.i < |j.items|
  {
    j.items[x.step.i := Next(x.seen, x.step).items[x.step.i]]
  }

  /** The worker's reading still tells whether anything is left, and whether anything failed. */
  predicate StillTrue(j: Job, x: Txn)
    requires EndsItem(x.step) && Enabled(x.seen, x.step) && x.step.i < |j.items|
  {
    if FoundNothingLeft(x) then
      && Open(ItemsAfter(j, x)) == 0
      && (Count(Next(x.seen, x.step).items, Failed) > 0 <==> Count(ItemsAfter(j, x), Failed) > 0)
    else
      Open(ItemsAfter(j, x)) > 0 || j.status == JobCancelled
  }

  predicate InHand(j: Job, x: Txn) {
    && EndsItem(x.step) && Enabled(x.seen, x.step) && JobInv(x.seen)
    && x.step.i < |j.items| && j.items[x.step.i].status == Running
  }

  /** The write keeps the job invariant exactly when the reading is still true; and it undoes a
      cancellation exactly when the worker had found nothing left before the job was cancelled. */
  lemma WriteExact(j: Job, x: Txn)
    requires JobInv(j) && InHand(j, x)
    ensures JobInv(Written(j, x)) <==> StillTrue(j, x)
    ensures j.status == JobCancelled ==> (Written(j, x).status == JobCancelled <==> !FoundNothingLeft(x))
  {
    hide Count;
    SeenIsOpen(x);
    CountPositive(j.items, x.step.i);
  }

  lemma SeenIsOpen(x: Txn)
    requires EndsItem(x.step) && Enabled(x.seen, x.step) && JobInv(x.seen)
    ensures !Closed(x.seen.status)
    ensures FoundNothingLeft(x) <==> Next(x.seen, x.step).status != x.seen.status
    ensures FoundNothingLeft(x) ==> Closed(Next(x.seen, x.step).status)
    ensures FoundNothingLeft(x) ==>
              (Next(x.seen, x.step).status == JobFailed <==> Count(Next(x.seen, x.step).items, Failed) > 0)
  {
    hide Count;
    CountPositive(x.seen.items, x.step.i);
  }

  /** If nothing was committed to the job in between, the write is the whole transaction. */
  lemma UnchangedIsTrue(j: Job, x: Txn)
    requires JobInv(j) && InHand(j, x) && j == x.seen
    ensures StillTrue(j, x)
    ensures Written(j, x) == Next(j, x.step)
  {
    hide Count;
    NextKeeps(j, x.step);
    SameExceptItem(j, x.step);
  }

  lemma SameExceptItem(j: Job, step: Step)
    requires EndsItem(step) && Enabled(j, step)
    ensures var k := Next(j, step);
            k.items == j.items[step.i := k.items[step.i]] && k.total == j.total && k.startedAt == j.startedAt
  {
    hide Count;
  }

  // ---------------------------------------------------------------- runs

  /** Every write in the run finds its reading still true. */
  ghost predicate WritesTrue(s: State, moves: seq<Move>) {
    moves != [] ==>
      var front := Run(s, moves[..|moves| - 1]);
      var m := moves[|moves| - 1];
      WritesTrue(s, moves[..|moves| - 1]) &&
      (m.Write? && CanMove(front, m) ==> StillTrue(front.job, front.txns[m.t].value))
  }

  ghost predicate Inv(s: State) {
    && JobInv(s.job)
    && (forall t :: 0 <= t < |s.txns| && s.txns[t].Some? ==> InHand(s.job, s.txns[t].value))
    && (forall t, u :: 0 <= t < |s.txns| && 0 <= u < |s.txns| && t != u && s.txns[t].Some? ==>
          !Ends(s.txns[u], s.txns[t].value.step.i))
  }

  lemma OthersKeepRunning(j: Job, step: Step, i: nat)
    requires i < |j.items| && j.items[i].status == Running && !EndsItem(step)
    ensures i < |Next(j, step).items| && Next(j, step).items[i].status == Running
  {
    hide Count;
  }

  lemma MoveKeeps(s: State, m: Move)
    requires Inv(s) && CanMove(s, m)
    requires m.Write? ==> StillTrue(s.job, s.txns[m.t].value)
    ensures Inv(Moved(s, m))
  {
    hide Next, JobInv, Enabled, StillTrue;
    var s' := Moved(s, m);
    match m
    case Whole(step) =>
      NextKeeps(s.job, step);
      forall t | 0 <= t < |s.txns| && s.txns[t].Some?
        ensures InHand(s'.job, s.txns[t].value)
      {
        OthersKeepRunning(s.job, step, s.txns[t].value.step.i);
      }
    case Read(t, step) => EnabledRuns(s.job, step);
    case Write(t) =>
      WriteExact(s.job, s.txns[t].value);
  }

  lemma EnabledRuns(j: Job, step: Step)
    requires EndsItem(step) && Enabled(j, step)
    ensures step.i < |j.items| && j.items[step.i].status == Running
  {
  }

  /** In any interleaving in which every write finds its reading still true, the job invariant holds. */
  lemma {:induction false} RunInv(ids: seq<int>, workers: nat, moves: seq<Move>)
    requires WritesTrue(State(NewJob(ids), seq(workers, _ => None)), moves)
    ensures Inv(Run(State(NewJob(ids), seq(workers, _ => None)), moves))
  {
    hide Inv, Moved, CanMove, NewJob, StillTrue;
    var s := State(NewJob(ids), seq(workers, _ => None));
    if moves == [] {
      StartInv(ids, workers);
    } else {
      var front, m := Run(s, moves[..|moves| - 1]), moves[|moves| - 1];
      RunInv(ids, workers, moves[..|moves| - 1]);
      if CanMove(front, m) {
        MoveKeeps(front, m);
      } else {
        CannotMove(front, m);
      }
    }
  }

  lemma StartInv(ids: seq<int>, workers: nat)
    ensures Inv(State(NewJob(ids), seq(workers, _ => None)))
  {
    hide NewJob;
    NewJobInv(ids);
  }

  lemma CannotMove(s: State, m: Move)
    requires !CanMove(s, m)
    ensures Moved(s, m) == s
  {
  }

  // ---------------------------------------------------------------- one worker

  /** What the API does to a job. */
  predicate FromApi(step: Step) {
    step.Cancel? || step.Retry?
  }

  predicate Idle(s: State) {
    forall t :: 0 <= t < |s.txns| ==> s.txns[t].None?
  }

  /** There is one worker process, and ending an item runs in its event loop without interruption: until
      the item is written, only the API's steps can be committed. */
  predicate OneWorker(s0: State, moves: seq<Move>) {
    moves != [] ==>
      var s := Run(s0, moves[..|moves| - 1]);
      var m := moves[|moves| - 1];
      OneWorker(s0, moves[..|moves| - 1]) &&
      match m
      case Whole(step) => FromApi(step) || Idle(s)
      case Read(_, _) => Idle(s)
      case Write(_) => true
  }

  /** A job with nothing left to do is not left open. */
  predicate NotLeftOpen(j: Job) {
    Open(j.items) == 0 && j.items != [] ==> Closed(j.status) || j.status == JobCancelled
  }

  /** The write that the worker is about to do will not leave the job open. */
  predicate WillNotLeaveOpen(j: Job, x: Txn) {
    && EndsItem(x.step) && Enabled(x.seen, x.step)
    && x.step.i < |j.items| && j.items[x.step.i].status == Running
    && (Open(ItemsAfter(j, x)) > 0 || j.status == JobCancelled || Closed(Written(j, x).status))
  }

  /** What the API does in between does not change that. */
  lemma ApiKeepsPromise(j: Job, x: Txn, step: Step)
    requires WillNotLeaveOpen(j, x) && FromApi(step)
    ensures WillNotLeaveOpen(Next(j, step), x)
  {
    hide Count, CancelItems, ResetItems;
    var k := Next(j, step);
    var i, y := x.step.i, Next(x.seen, x.step).items[x.step.i];
    AppliedCounts(j, i, y);
    AppliedCounts(k, i, y);
    match step
    case Cancel(now) => CancelCounts(j.items, now);
    case Retry => ResetCounts(j.items);
  }

  lemma ReadPromises(j: Job, step: Step)
    requires EndsItem(step) && Enabled(j, step)
    ensures WillNotLeaveOpen(j, Txn(step, j))
  {
    hide Count;
  }

  lemma WriteDelivers(j: Job, x: Txn)
    requires WillNotLeaveOpen(j, x)
    ensures NotLeftOpen(Written(j, x))
  {
    hide Count;
  }

  lemma WholeNotLeftOpen(j: Job, step: Step)
    requires NotLeftOpen(j) && !EndsItem(step)
    ensures NotLeftOpen(Next(j, step))
  {
    hide Count, CancelItems, FailItems, ResetItems;
    match step
    case Dispatch(_, now) => FailCounts(j.items, now);
    case Begin(i, _, _, _) =>
      if Enabled(j, step) {
        var k := Next(j, step);
        CountPositive(k.items, i);
      }
    case Cancel(now) => CancelCounts(j.items, now);
    case Retry => ResetCounts(j.items);
  }

  ghost predicate OneInv(s: State) {
    && NotLeftOpen(s.job)
    && (forall t :: 0 <= t < |s.txns| && s.txns[t].Some? ==> WillNotLeaveOpen(s.job, s.txns[t].value))
    && forall t, u :: 0 <= t < u < |s.txns| && s.txns[t].Some? ==> s.txns[u].None?
  }

  lemma MoveKeepsOpen(s: State, m: Move)
    requires OneInv(s) && CanMove(s, m)
    requires match m case Whole(step) => FromApi(step) || Idle(s) case Read(_, _) => Idle(s) case Write(_) => true
    ensures OneInv(Moved(s, m))
  {
    hide Next, WillNotLeaveOpen, NotLeftOpen, Written, Enabled;
    match m
    case Whole(step) =>
      WholeNotLeftOpen(s.job, step);
      forall t | 0 <= t < |s.txns| && s.txns[t].Some?
        ensures WillNotLeaveOpen(Next(s.job, step), s.txns[t].value)
      {
        ApiKeepsPromise(s.job, s.txns[t].value, step);
      }
    case Read(_, step) => ReadPromises(s.job, step);
    case Write(t) => WriteDelivers(s.job, s.txns[t].value);
  }

  /** With one worker, whatever the API does between its reads and its writes, a job is never left open with
      nothing to do. */
  lemma {:induction false} NeverLeftOpen(ids: seq<int>, workers: nat, moves: seq<Move>)
    requires OneWorker(State(NewJob(ids), seq(workers, _ => None)), moves)
    ensures OneInv(Run(State(NewJob(ids), seq(workers, _ => None)), moves))
  {
    hide OneInv, Moved, CanMove, NewJob, Idle, FromApi;
    var s := State(NewJob(ids), seq(workers, _ => None));
    if moves == [] {
      StartOne(ids, workers);
    } else {
      var front, m := Run(s, moves[..|moves| - 1]), moves[|moves| - 1];
      NeverLeftOpen(ids, workers, moves[..|moves| - 1]);
      if CanMove(front, m) {
        MoveKeepsOpen(front, m);
      } else {
        CannotMove(front, m);
      }
    }
  }

  lemma StartOne(ids: seq<int>, workers: nat)
    ensures OneInv(State(NewJob(ids), seq(workers, _ => None)))
  {
    hide NewJob, Count;
    NewJobInv(ids);
  }

  // ---------------------------------------------------------------- what a retry can do meanwhile

  /** A retry resets a failed item while the worker, having found nothing left, has not written yet. */
  predicate RetriesUnder(s: State, m: Move) {
    m == Whole(Retry) && Count(s.job.items, Failed) > 0 &&
    exists t :: 0 <= t < |s.txns| && s.txns[t].Some? && EndsItem(s.txns[t].value.step) &&
                Enabled(s.txns[t].value.seen, s.txns[t].value.step) && FoundNothingLeft(s.txns[t].value)
  }

  predicate NeverRetriesUnder(s0: State, moves: seq<Move>) {
    moves != [] ==>
      NeverRetriesUnder(s0, moves[..|moves| - 1]) && !RetriesUnder(Run(s0, moves[..|moves| - 1]), moves[|moves| - 1])
  }

  /** The counts of the items as they will be, from those they are now. */
  lemma AfterCounts(j: Job, x: Txn, s: ItemStatus)
    requires InHand(j, x)
    ensures var y := Next(x.seen, x.step).items[x.step.i];
            Count(ItemsAfter(j, x), s) ==
              Count(j.items, s) - (if s == Running then 1 else 0) + if y.status == s then 1 else 0
  {
    hide Count, JobInv;
    AppliedCounts(j, x.step.i, Next(x.seen, x.step).items[x.step.i]);
  }

  lemma CancelKeepsTrue(j: Job, x: Txn, now: int)
    requires InHand(j, x) && StillTrue(j, x) && InHand(CancelledJob(j, now), x)
    ensures StillTrue(CancelledJob(j, now), x)
  {
    hide Count, CancelItems, Next, Enabled, JobInv, ItemsAfter, InHand;
    var k := CancelledJob(j, now);
    if k != j {
      CancelCounts(j.items, now);
      OpenAfter(j, k, x);
    }
  }

  /** If no item becomes open, and the failed ones stay, then nothing is open that was not. */
  lemma OpenAfter(j: Job, k: Job, x: Txn)
    requires InHand(j, x) && InHand(k, x)
    requires Count(k.items, Pending) <= Count(j.items, Pending) && Count(k.items, Running) == Count(j.items, Running)
    ensures Open(ItemsAfter(k, x)) <= Open(ItemsAfter(j, x))
    ensures Count(k.items, Failed) == Count(j.items, Failed) ==>
              Count(ItemsAfter(k, x), Failed) == Count(ItemsAfter(j, x), Failed)
  {
    hide Count, Next, Enabled, JobInv, ItemsAfter, InHand;
    AfterCounts(j, x, Pending);
    AfterCounts(k, x, Pending);
    AfterCounts(j, x, Running);
    AfterCounts(k, x, Running);
    AfterCounts(j, x, Failed);
    AfterCounts(k, x, Failed);
  }

  lemma RetryKeepsTrue(j: Job, x: Txn)
    requires InHand(j, x) && StillTrue(j, x) && InHand(ResetJob(j), x)
    requires JobInv(j) && (Count(j.items, Failed) > 0 ==> !FoundNothingLeft(x))
    ensures StillTrue(ResetJob(j), x)
  {
    hide Count, ResetItems, Next, Enabled, ItemsAfter, InHand;
    var k := ResetJob(j);
    if Count(j.items, Failed) > 0 {
      ResetCounts(j.items);
      AfterCounts(k, x, Pending);
      AfterCounts(k, x, Running);
    }
  }

  /** Other than that the API leaves the worker's reading true. */
  lemma ApiKeepsTrue(j: Job, x: Txn, step: Step)
    requires JobInv(j) && InHand(j, x) && StillTrue(j, x) && FromApi(step)
    requires step.Retry? && Count(j.items, Failed) > 0 ==> !FoundNothingLeft(x)
    ensures InHand(Next(j, step), x) && StillTrue(Next(j, step), x)
  {
    hide Count, JobInv, CancelledJob, ResetJob, StillTrue, FoundNothingLeft;
    OthersKeepRunning(j, step, x.step.i);
    match step
    case Cancel(now) => CancelKeepsTrue(j, x, now);
    case Retry => RetryKeepsTrue(j, x);
  }

  ghost predicate OneTrue(s: State) {
    && Inv(s)
    && (forall t :: 0 <= t < |s.txns| && s.txns[t].Some? ==> StillTrue(s.job, s.txns[t].value))
    && forall t, u :: 0 <= t < u < |s.txns| && s.txns[t].Some? ==> s.txns[u].None?
  }

  lemma MoveKeepsTrue(s: State, m: Move)
    requires OneTrue(s) && CanMove(s, m) && !RetriesUnder(s, m)
    requires match m case Whole(step) => FromApi(step) || Idle(s) case Read(_, _) => Idle(s) case Write(_) => true
    ensures OneTrue(Moved(s, m))
  {
    MoveKeeps(s, m);
    hide Next, JobInv, Enabled, StillTrue, FoundNothingLeft, Written;
    match m
    case Whole(step) =>
      forall t | 0 <= t < |s.txns| && s.txns[t].Some?
        ensures StillTrue(Next(s.job, step), s.txns[t].value)
      {
        assert step.Retry? ==> m == Whole(Retry);
        ApiKeepsTrue(s.job, s.txns[t].value, step);
      }
    case Read(_, step) => UnchangedIsTrue(s.job, Txn(step, s.job));
    case Write(_) =>
  }

  /** With one worker the job invariant holds as long as no retry resets a failed item between a worker's
      finding nothing left and its write: only so can a job be closed too early. */
  lemma {:induction false} OneWorkerInv(ids: seq<int>, workers: nat, moves: seq<Move>)
    requires OneWorker(State(NewJob(ids), seq(workers, _ => None)), moves)
    requires NeverRetriesUnder(State(NewJob(ids), seq(workers, _ => None)), moves)
    ensures OneTrue(Run(State(NewJob(ids), seq(workers, _ => None)), moves))
  {
    hide OneTrue, Moved, CanMove, NewJob, Idle, FromApi, RetriesUnder;
    var s := State(NewJob(ids), seq(workers, _ => None));
    if moves == [] {
      StartTrue(ids, workers);
    } else {
      var front, m := Run(s, moves[..|moves| - 1]), moves[|moves| - 1];
      OneWorkerInv(ids, workers, moves[..|moves| - 1]);
      if CanMove(front, m) {
        MoveKeepsTrue(front, m);
      } else {
        CannotMove(front, m);
      }
    }
  }

  lemma StartTrue(ids: seq<int>, workers: nat)
    ensures OneTrue(State(NewJob(ids), seq(workers, _ => None)))
  {
    StartInv(ids, workers);
  }

  /** What has become of the failed items since the worker read the job. */
  datatype Fate = Untouched | Reset | ResetThenCancelled

  function FateOf(j: Job, steps: seq<Step>): Fate {
    if steps == [] then Untouched
    else NextFate(BulkJobs.Run(j, steps[..|steps| - 1]), FateOf(j, steps[..|steps| - 1]), steps[|steps| - 1])
  }

  predicate AllFromApi(steps: seq<Step>) {
    forall k :: 0 <= k < |steps| ==> FromApi(steps[k])
  }

  /** The counts that matter, for each fate, when the worker had found nothing left. */
  predicate FateCounts(j: Job, failed: nat, fate: Fate) {
    && Count(j.items, Running) == 1
    && match fate
       case Untouched => Count(j.items, Pending) == 0 && Count(j.items, Failed) == failed
       case Reset => Count(j.items, Pending) > 0 && Count(j.items, Failed) == 0 && failed > 0 && j.status == JobQueued
       case ResetThenCancelled => Count(j.items, Pending) == 0 && Count(j.items, Failed) == 0 && failed > 0
  }

  ghost predicate FateMeans(j: Job, x: Txn, fate: Fate) {
    JobInv(j) && InHand(j, x) && FateCounts(j, Count(x.seen.items, Failed), fate)
  }

  function NextFate(j: Job, fate: Fate, step: Step): Fate {
    match step
    case Retry => if fate == Untouched && Count(j.items, Failed) > 0 then Reset else fate
    case Cancel(_) => if fate == Reset then ResetThenCancelled else fate
    case _ => fate
  }

  lemma CountsStep(j: Job, failed: nat, fate: Fate, step: Step)
    requires FateCounts(j, failed, fate) && FromApi(step)
    ensures FateCounts(Next(j, step), failed, NextFate(j, fate, step))
  {
    hide Count, CancelItems, ResetItems;
    match step
    case Cancel(now) => CancelCounts(j.items, now);
    case Retry => ResetCounts(j.items);
  }

  lemma FateStep(j: Job, x: Txn, fate: Fate, step: Step)
    requires FateMeans(j, x, fate) && FromApi(step)
    ensures FateMeans(Next(j, step), x, NextFate(j, fate, step))
  {
    NextKeeps(j, step);
    CountsStep(j, Count(x.seen.items, Failed), fate, step);
    OthersKeepRunning(j, step, x.step.i);
    hide Next, JobInv, Count, FateCounts, NextFate, Enabled;
  }

  lemma {:induction false} FateHolds(x: Txn, steps: seq<Step>)
    requires InHand(x.seen, x) && FoundNothingLeft(x) && AllFromApi(steps)
    ensures FateMeans(BulkJobs.Run(x.seen, steps), x, FateOf(x.seen, steps))
  {
    if steps == [] {
      hide Count;
      AppliedCounts(x.seen, x.step.i, Next(x.seen, x.step).items[x.step.i]);
      SameExceptItem(x.seen, x.step);
      CountPositive(x.seen.items, x.step.i);
    } else {
      hide Next, FateMeans, FoundNothingLeft, InHand;
      FateHolds(x, steps[..|steps| - 1]);
      FateStep(BulkJobs.Run(x.seen, steps[..|steps| - 1]), x, FateOf(x.seen, steps[..|steps| - 1]), steps[|steps| - 1]);
    }
  }

  lemma {:induction false} PromiseHolds(x: Txn, steps: seq<Step>)
    requires InHand(x.seen, x) && AllFromApi(steps)
    ensures WillNotLeaveOpen(BulkJobs.Run(x.seen, steps), x) && JobInv(BulkJobs.Run(x.seen, steps))
  {
    hide Next, WillNotLeaveOpen, JobInv;
    if steps == [] {
      ReadPromises(x.seen, x.step);
    } else {
      PromiseHolds(x, steps[..|steps| - 1]);
      ApiKeepsPromise(BulkJobs.Run(x.seen, steps[..|steps| - 1]), x, steps[|steps| - 1]);
      NextKeeps(BulkJobs.Run(x.seen, steps[..|steps| - 1]), steps[|steps| - 1]);
    }
  }

  /** The write of the only worker keeps the job invariant, after any steps of the API, exactly when it had
      found something left, or no retry has reset a failed item since, or a cancellation has followed that
      retry and the worker's own item has failed. */
  lemma OneWriteExact(x: Txn, steps: seq<Step>)
    requires InHand(x.seen, x) && AllFromApi(steps)
    ensures var j := BulkJobs.Run(x.seen, steps);
            && JobInv(j) && InHand(j, x)
            && (JobInv(Written(j, x)) <==>
                  || !FoundNothingLeft(x)
                  || FateOf(x.seen, steps) == Untouched
                  || (FateOf(x.seen, steps) == ResetThenCancelled &&
                      Next(x.seen, x.step).items[x.step.i].status == Failed))
  {
    var j := BulkJobs.Run(x.seen, steps);
    PromiseHolds(x, steps);
    WriteExact(j, x);
    if FoundNothingLeft(x) {
      FateHolds(x, steps);
      FoundExact(j, x, FateOf(x.seen, steps));
    } else {
      SeenIsOpen(x);
      hide Count;
      CountPositive(j.items, x.step.i);
    }
  }

  lemma FoundExact(j: Job, x: Txn, fate: Fate)
    requires FateMeans(j, x, fate) && InHand(x.seen, x) && FoundNothingLeft(x)
    ensures StillTrue(j, x) <==>
              fate == Untouched || (fate == ResetThenCancelled && Next(x.seen, x.step).items[x.step.i].status == Failed)
  {
    hide Count;
    var y := Next(x.seen, x.step).items[x.step.i];
    AppliedCounts(j, x.step.i, y);
    AppliedCounts(x.seen, x.step.i, y);
    SameExceptItem(x.seen, x.step);
  }

  // ---------------------------------------------------------------- runs that go wrong

  /** A job of two items. */
  function TwoItems(a: Item, b: Item): Job {
    Job(JobRunning, 2, 0, 0, 0, None, None, [a, b])
  }

  lemma CountTwo(a: Item, b: Item, s: ItemStatus)
    ensures Count([a, b], s) == (if a.status == s then 1 else 0) + if b.status == s then 1 else 0
  {
    assert [a, b][..1] == [a] && [a][..0] == [];
  }

  /** The last running item is settled while a retry resets the failed one: the worker still saw the
      failure and found nothing left, so it closes a job that has a pending item. */
  lemma RetryUnderRecount(a: Item, b: Item, now: int)
    requires a.status == Running && b.status == Failed
    ensures var s := State(TwoItems(a, b), [None]);
            var s' := Moved(Moved(Moved(s, Read(0, Settle(0, Done, None, None, now))), Whole(Retry)), Write(0));
            JobInv(TwoItems(a, b)) && s'.job.status == JobFailed && Count(s'.job.items, Pending) == 1
  {
    hide Count;
    var settled := AppliedTo(a, Done, None, None, None, Some(now));
    forall s: ItemStatus
      ensures Count([a, b], s) == (if a.status == s then 1 else 0) + if b.status == s then 1 else 0
      ensures Count([settled, b], s) == (if Done == s then 1 else 0) + if b.status == s then 1 else 0
      ensures Count([settled, ResetItem(b)], s) == (if Done == s then 1 else 0) + if Pending == s then 1 else 0
    {
      CountTwo(a, b, s);
      CountTwo(settled, b, s);
      CountTwo(settled, ResetItem(b), s);
    }
    assert [a, b][0 := settled] == [settled, b];
    assert ResetItems([a, b]) == [a, ResetItem(b)];
    assert [a, ResetItem(b)][0 := settled] == [settled, ResetItem(b)];
  }

  /** Why there must be one worker.  With a second worker process, which the deployment excludes, two last
      items could be settled at once: each settlement would see the other's item still running, and neither
      would close the job.  Nothing is left to do, one item is missing from the counter, and the job runs
      on. */
  lemma NobodyCloses(a: Item, b: Item, now: int)
    requires a.status == Running && b.status == Running
    ensures var s := State(TwoItems(a, b), [None, None]);
            var s2 := Moved(Moved(s, Read(0, Settle(0, Done, None, None, now))),
                            Read(1, Settle(1, Done, None, None, now)));
            var s' := Moved(Moved(s2, Write(0)), Write(1));
            && JobInv(TwoItems(a, b)) && s'.job.status == JobRunning
            && Open(s'.job.items) == 0 && Count(s'.job.items, Done) == 2 && s'.job.done == 1
  {
    hide Count;
    var x, y := AppliedTo(a, Done, None, None, None, Some(now)), AppliedTo(b, Done, None, None, None, Some(now));
    forall s: ItemStatus
      ensures Count([a, b], s) == (if Running == s then 2 else 0)
      ensures Count([x, b], s) == (if Done == s then 1 else 0) + if Running == s then 1 else 0
      ensures Count([a, y], s) == (if Done == s then 1 else 0) + if Running == s then 1 else 0
      ensures Count([x, y], s) == if Done == s then 2 else 0
    {
      CountTwo(a, b, s);
      CountTwo(x, b, s);
      CountTwo(a, y, s);
      CountTwo(x, y, s);
    }
    assert [a, b][0 := x] == [x, b] && [a, b][1 := y] == [a, y] && [x, b][1 := y] == [x, y];
    var j := TwoItems(a, b);
    var first, second := Txn(Settle(0, Done, None, None, now), j), Txn(Settle(1, Done, None, None, now), j);
    assert Next(j, first.step) == j.(items := [x, b], done := 1);
    assert Next(j, second.step) == j.(items := [a, y], done := 1);
    hide Next;
    var s2 := State(j, [Some(first), Some(second)]);
    assert Moved(s2, Write(0)) == State(j.(items := [x, b], done := 1), [None, Some(second)]);
  }
}
