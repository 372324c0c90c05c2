/** Bulk jobs and their items (core/repositories/bulk_job.py), and the worker's steps on them
    (worker/tasks/bulk.py), each step a whole transaction.  Transactions that overlap are in
    bulk_races.dfy. */
module BulkJobs {
  import opened Wrappers

  datatype ItemStatus = Pending | Running | Done | Failed | Skipped | Cancelled

  datatype JobStatus = JobQueued | JobRunning | JobDone | JobFailed | JobCancelled

  datatype Item = Item(accountId: int, status: ItemStatus, error: Option<string>, result: Option<string>,
                       startedAt: Option<int>, finishedAt: Option<int>)

  /** A job row together with its item rows, in order of their ids. */
  datatype Job = Job(status: JobStatus, total: nat, done: nat, failed: nat, skipped: nat,
                     startedAt: Option<int>, finishedAt: Option<int>, items: seq<Item>)

  // ---------------------------------------------------------------- counting

  function Count(items: seq<Item>, s: ItemStatus): (n: nat)
    ensures n <= |items|
  {
    if items == [] then 0
    else Count(items[..|items| - 1], s) + if items[|items| - 1].status == s then 1 else 0
  }

  function Open(items: seq<Item>): nat {
    Count(items, Pending) + Count(items, Running)
  }

  predicate IsOpen(s: ItemStatus) {
    s == Pending || s == Running
  }

  /** The six counts partition the items. */
  lemma {:induction false} CountsPartition(items: seq<Item>)
    ensures Count(items, Done) + Count(items, Failed) + Count(items, Skipped) + Count(items, Pending) +
            Count(items, Running) + Count(items, Cancelled) == |items|
  {
    if items != [] {
      CountsPartition(items[..|items| - 1]);
    }
  }

  lemma {:induction false} CountUpdate(items: seq<Item>, i: nat, x: Item, s: ItemStatus)
    requires i < |items|
    ensures Count(items[i := x], s) ==
            Count(items, s) - (if items[i].status == s then 1 else 0) + if x.status == s then 1 else 0
  {
    var n := |items| - 1;
    if i < n {
      CountUpdate(items[..n], i, x, s);
      assert items[i := x][..n] == items[..n][i := x];
    } else {
      assert items[i := x][..n] == items[..n];
    }
  }

  lemma {:induction false} CountPositive(items: seq<Item>, i: nat)
    requires i < |items|
    ensures Count(items, items[i].status) >= 1
  {
    if i < |items| - 1 {
      CountPositive(items[..|items| - 1], i);
    }
  }

  /** The places of the items that have a status. */
  function Places(items: seq<Item>, s: ItemStatus): set<nat> {
    set i | 0 <= i < |items| && items[i].status == s
  }

  lemma PlacesSnoc(front: seq<Item>, x: Item, s: ItemStatus)
    ensures |Places(front + [x], s)| == |Places(front, s)| + if x.status == s then 1 else 0
  {
    assert Places(front + [x], s) == Places(front, s) + if x.status == s then {|front|} else {};
  }

  /** A count is the number of items with the status. */
  lemma {:induction false} CountMeans(items: seq<Item>, s: ItemStatus)
    ensures Count(items, s) == |Places(items, s)|
  {
    hide Places;
    if items == [] {
      NoPlaces(s);
    } else {
      var front, x := items[..|items| - 1], items[|items| - 1];
      assert items == front + [x];
      CountMeans(front, s);
      PlacesSnoc(front, x, s);
    }
  }

  lemma NoPlaces(s: ItemStatus)
    ensures Places([], s) == {}
  {
  }

  // ---------------------------------------------------------------- creating a job

  /** The accounts without repetition, in order of first appearance. */
  function Dedup(ids: seq<int>): seq<int> {
    if ids == [] then []
    else
      var front := Dedup(ids[..|ids| - 1]);
      if ids[|ids| - 1] in front then front else front + [ids[|ids| - 1]]
  }

  /** The position of the first occurrence; the length when there is none. */
  function FirstAt(ids: seq<int>, x: int): (i: nat)
    ensures i <= |ids| && (i < |ids| ==> ids[i] == x)
    ensures forall j :: 0 <= j < i ==> ids[j] != x
  {
    if ids == [] then 0
    else
      var n := |ids| - 1;
      var i := FirstAt(ids[..n], x);
      if i < n then i else if ids[n] == x then n else n + 1
  }

  lemma {:induction false} DedupMembers(ids: seq<int>, x: int)
    ensures x in Dedup(ids) <==> FirstAt(ids, x) < |ids|
  {
    if ids != [] {
      DedupMembers(ids[..|ids| - 1], x);
    }
  }

  /** Deduplication keeps the accounts in the order of their first appearance, each once. */
  lemma {:induction false} DedupOrder(ids: seq<int>, k: nat, l: nat)
    requires k < l < |Dedup(ids)|
    ensures FirstAt(ids, Dedup(ids)[k]) < FirstAt(ids, Dedup(ids)[l])
  {
    var n := |ids| - 1;
    var front := ids[..n];
    assert Dedup(front)[k] in Dedup(front);
    DedupMembers(front, Dedup(front)[k]);
    if l < |Dedup(front)| {
      DedupOrder(front, k, l);
      assert Dedup(front)[l] in Dedup(front);
      DedupMembers(front, Dedup(front)[l]);
    } else {
      DedupMembers(front, Dedup(ids)[l]);
    }
  }

  function NewItem(id: int): Item {
    Item(id, Pending, None, None, None, None)
  }

  function NewItems(ids: seq<int>): (items: seq<Item>)
    ensures |items| == |ids| && forall k :: 0 <= k < |ids| ==> items[k] == NewItem(ids[k])
  {
    if ids == [] then [] else NewItems(ids[..|ids| - 1]) + [NewItem(ids[|ids| - 1])]
  }

  function NewJob(ids: seq<int>): Job {
    Job(JobQueued, |Dedup(ids)|, 0, 0, 0, None, None, NewItems(Dedup(ids)))
  }

  /** A new job is queued and has recorded nothing; it has one pending item for each account asked for, and
      no other. */
  lemma NewJobMeans(ids: seq<int>, x: int)
    ensures var j := NewJob(ids);
            && j.status == JobQueued && j.total == |j.items| && j.done == j.failed == j.skipped == 0
            && j.startedAt.None? && j.finishedAt.None?
            && (forall k :: 0 <= k < |j.items| ==>
                  && j.items[k].status == Pending && j.items[k].error.None? && j.items[k].result.None?
                  && j.items[k].startedAt.None? && j.items[k].finishedAt.None?)
            && (x in ids <==> exists k :: 0 <= k < |j.items| && j.items[k].accountId == x)
            && (forall k, l :: 0 <= k < l < |j.items| ==> j.items[k].accountId != j.items[l].accountId)
  {
    hide Dedup, FirstAt;
    DedupMembers(ids, x);
    var d := Dedup(ids);
    if x in d {
      var k :| 0 <= k < |d| && d[k] == x;
      assert NewJob(ids).items[k].accountId == x;
    }
    if x in ids {
      var i :| 0 <= i < |ids| && ids[i] == x;
      assert FirstAt(ids, x) <= i;
    }
    forall k, l | 0 <= k < l < |d|
      ensures d[k] != d[l]
    {
      DedupOrder(ids, k, l);
    }
  }

  // ---------------------------------------------------------------- the repository, row by row

  function MarkedRunning(j: Job, now: int): Job {
    if j.status != JobQueued then j else j.(status := JobRunning, startedAt := Some(now))
  }

  function CancelItem(x: Item, now: int): Item {
    if x.status == Pending then x.(status := Cancelled, finishedAt := Some(now)) else x
  }

  function CancelItems(items: seq<Item>, now: int): (r: seq<Item>)
    ensures |r| == |items| && forall k :: 0 <= k < |items| ==> r[k] == CancelItem(items[k], now)
  {
    if items == [] then [] else CancelItems(items[..|items| - 1], now) + [CancelItem(items[|items| - 1], now)]
  }

  function CancelledJob(j: Job, now: int): Job {
    if j.status in {JobDone, JobCancelled} then j
    else j.(items := CancelItems(j.items, now), status := JobCancelled, finishedAt := Some(now))
  }

  function AppliedTo(x: Item, status: ItemStatus, result: Option<string>, error: Option<string>,
                     startedAt: Option<int>, finishedAt: Option<int>): Item
  {
    x.(status := status, error := error, result := result,
       startedAt := if startedAt.Some? then startedAt else x.startedAt,
       finishedAt := if finishedAt.Some? then finishedAt else x.finishedAt)
  }

  function Applied(j: Job, i: nat, status: ItemStatus, result: Option<string>, error: Option<string>,
                   startedAt: Option<int>, finishedAt: Option<int>): Job
    requires i < |j.items|
  {
    j.(items := j.items[i := AppliedTo(j.items[i], status, result, error, startedAt, finishedAt)])
  }

  /** Counters from the items; the job is closed when nothing is left to do. */
  function Recounted(j: Job, now: int): Job {
    var k := j.(done := Count(j.items, Done), failed := Count(j.items, Failed), skipped := Count(j.items, Skipped));
    if j.status == JobCancelled || Open(j.items) > 0 then k
    else k.(finishedAt := Some(now), status := if Count(j.items, Failed) > 0 then JobFailed else JobDone)
  }

  function ResetItem(x: Item): Item {
    if x.status == Failed then Item(x.accountId, Pending, None, None, None, None) else x
  }

  function ResetItems(items: seq<Item>): (r: seq<Item>)
    ensures |r| == |items| && forall k :: 0 <= k < |items| ==> r[k] == ResetItem(items[k])
  {
    if items == [] then [] else ResetItems(items[..|items| - 1]) + [ResetItem(items[|items| - 1])]
  }

  function ResetJob(j: Job): Job {
    if Count(j.items, Failed) == 0 then j
    else j.(items := ResetItems(j.items), status := JobQueued, finishedAt := None)
  }

  // ---------------------------------------------------------------- the repository

  class BulkJobRepository {
    var jobs: map<int, Job>

    constructor ()
      ensures jobs == map[]
    {
      jobs := map[];
    }

    /** `create`. */
    method Create(id: int, accountIds: seq<int>)
      requires id !in jobs
      modifies this
      ensures jobs == old(jobs)[id := NewJob(accountIds)]
    {
      var ids := Dedup(accountIds);
      var items: seq<Item> := [];
      for k := 0 to |ids|
        invariant items == NewItems(ids[..k])
        modifies {}
      {
        assert ids[..k + 1][..k] == ids[..k];
        items := items + [NewItem(ids[k])];
      }
      assert ids[..|ids|] == ids;
      jobs := jobs[id := Job(JobQueued, |ids|, 0, 0, 0, None, None, items)];
    }

    /** `mark_running`. */
    method MarkRunning(id: int, now: int)
      modifies this
      ensures jobs == if id in old(jobs) then old(jobs)[id := MarkedRunning(old(jobs)[id], now)] else old(jobs)
    {
      if id !in jobs || jobs[id].status != JobQueued {
        return;
      }
      jobs := jobs[id := jobs[id].(status := JobRunning, startedAt := Some(now))];
    }

    /** `cancel`; `None` when there is no such job. */
    method Cancel(id: int, now: int) returns (r: Option<Job>)
      modifies this
      ensures jobs == if id in old(jobs) then old(jobs)[id := CancelledJob(old(jobs)[id], now)] else old(jobs)
      ensures r == if id in old(jobs) then Some(jobs[id]) else None
    {
      if id !in jobs {
        return None;
      }
      var job := jobs[id];
      if job.status == JobDone || job.status == JobCancelled {
        return Some(job);
      }
      job := job.(items := CancelItems(job.items, now));
      job := job.(status := JobCancelled, finishedAt := Some(now));
      jobs := jobs[id := job];
      return Some(job);
    }

    /** `apply_item_result`; `None` when there is no such item. */
    method ApplyItemResult(id: int, i: nat, status: ItemStatus, result: Option<string>, error: Option<string>,
                           startedAt: Option<int>, finishedAt: Option<int>) returns (r: Option<Item>)
      modifies this
      ensures if id in old(jobs) && i < |old(jobs)[id].items| then
                && jobs == old(jobs)[id := Applied(old(jobs)[id], i, status, result, error, startedAt, finishedAt)]
                && r == Some(jobs[id].items[i])
              else jobs == old(jobs) && r == None
    {
      if id !in jobs || i >= |jobs[id].items| {
        return None;
      }
      var item := jobs[id].items[i];
      item := item.(status := status);
      item := item.(error := error);
      item := item.(result := result);
      if startedAt.Some? {
        item := item.(startedAt := startedAt);
      }
      if finishedAt.Some? {
        item := item.(finishedAt := finishedAt);
      }
      jobs := jobs[id := jobs[id].(items := jobs[id].items[i := item])];
      return Some(item);
    }

    /** `recompute_counters`. */
    method RecomputeCounters(id: int, now: int) returns (r: Option<Job>)
      modifies this
      ensures jobs == if id in old(jobs) then old(jobs)[id := Recounted(old(jobs)[id], now)] else old(jobs)
      ensures r == if id in old(jobs) then Some(jobs[id]) else None
    {
      if id !in jobs {
        return None;
      }
      var job := jobs[id];
      var done, failed, skipped, pendingOrRunning := 0, 0, 0, 0;
      for k := 0 to |job.items|
        invariant done == Count(job.items[..k], Done) && failed == Count(job.items[..k], Failed)
        invariant skipped == Count(job.items[..k], Skipped) && pendingOrRunning == Open(job.items[..k])
        modifies {}
      {
        assert job.items[..k + 1][..k] == job.items[..k];
        match job.items[k].status {
          case Done => done := done + 1;
          case Failed => failed := failed + 1;
          case Skipped => skipped := skipped + 1;
          case Pending => pendingOrRunning := pendingOrRunning + 1;
          case Running => pendingOrRunning := pendingOrRunning + 1;
          case Cancelled =>
        }
      }
      assert job.items[..|job.items|] == job.items;
      job := job.(done := done, failed := failed, skipped := skipped);
      if job.status != JobCancelled {
        if pendingOrRunning == 0 {
          job := job.(finishedAt := Some(now), status := if failed > 0 then JobFailed else JobDone);
        }
      }
      jobs := jobs[id := job];
      return Some(job);
    }

    /** `reset_failed_to_pending`: the number of items reset. */
    method ResetFailedToPending(id: int) returns (count: nat)
      modifies this
      ensures jobs == if id in old(jobs) then old(jobs)[id := ResetJob(old(jobs)[id])] else old(jobs)
      ensures count == if id in old(jobs) then Count(old(jobs)[id].items, Failed) else 0
    {
      if id !in jobs {
        return 0;
      }
      var job := jobs[id];
      count := Count(job.items, Failed);
      if count > 0 {
        job := job.(items := ResetItems(job.items), status := JobQueued, finishedAt := None);
        jobs := jobs[id := job];
      }
    }
  }

  // ---------------------------------------------------------------- the worker's steps

  function FailItem(x: Item, now: int): Item {
    if x.status == Pending then AppliedTo(x, Failed, None, Some("unknown_action"), Some(now), Some(now)) else x
  }

  function FailItems(items: seq<Item>, now: int): (r: seq<Item>)
    ensures |r| == |items| && forall k :: 0 <= k < |items| ==> r[k] == FailItem(items[k], now)
  {
    if items == [] then [] else FailItems(items[..|items| - 1], now) + [FailItem(items[|items| - 1], now)]
  }

  /** The account of an item when it is taken up: it can be used, it is banned or retired, or it is gone. */
  datatype Standing = Usable | Unusable | Gone

  /** One committed transaction on a job.  `Dispatch` starts it, or fails its pending items when the
      worker does not know the action.  `Begin` takes up a pending item: it fails on an unknown action,
      is skipped when the account is gone or unusable, and runs otherwise.  `Settle` ends a running item and
      `Defer` puts one back after a rate limit. */
  datatype Step =
    | Dispatch(known: bool, now: int)
    | Begin(i: nat, known: bool, account: Standing, now: int)
    | Settle(i: nat, outcome: ItemStatus, result: Option<string>, error: Option<string>, now: int)
    | Defer(i: nat, now: int)
    | Cancel(now: int)
    | Retry

  /** The step finds what it works on: an item that is pending, or one that its own `Begin` left
      running.  Otherwise nothing happens. */
  predicate Enabled(j: Job, step: Step) {
    match step
    case Begin(i, _, _, _) => i < |j.items| && j.items[i].status == Pending
    case Settle(i, outcome, _, _, _) =>
      i < |j.items| && j.items[i].status == Running && outcome in {Done, Failed, Skipped}
    case Defer(i, _) => i < |j.items| && j.items[i].status == Running
    case _ => true
  }

  function Next(j: Job, step: Step): Job {
    if !Enabled(j, step) then j
    else
      match step
      case Dispatch(known, now) =>
        if known then MarkedRunning(j, now) else Recounted(j.(items := FailItems(j.items, now)), now)
      case Begin(i, known, account, now) =>
        if !known then Recounted(Applied(j, i, Failed, None, Some("unknown_action"), Some(now), Some(now)), now)
        else if account != Usable then
          var error := if account == Gone then Some("account_missing") else None;
          Recounted(Applied(j, i, Skipped, Some("account_status"), error, Some(now), Some(now)), now)
        else Applied(j, i, Running, None, None, Some(now), None)
      case Settle(i, outcome, result, error, now) =>
        Recounted(Applied(j, i, outcome, result, error, None, Some(now)), now)
      case Defer(i, now) =>
        var x := AppliedTo(j.items[i], Pending, None, None, None, None).(startedAt := None, finishedAt := None);
        Recounted(j.(items := j.items[i := x]), now)
      case Cancel(now) => CancelledJob(j, now)
      case Retry => ResetJob(j)
  }

  /** What the worker records about an item it takes up, settles or puts back; no other item changes. */
  lemma StepRecords(j: Job, step: Step)
    requires Enabled(j, step) && (step.Begin? || step.Settle? || step.Defer?)
    ensures var items := Next(j, step).items;
            && items == j.items[step.i := items[step.i]]
            && var x, old_ := items[step.i], j.items[step.i];
            && x.accountId == old_.accountId
            && match step
               case Begin(_, known, account, now) =>
                 && x.startedAt == Some(now)
                 && if !known then
                      && x.status == Failed && x.error == Some("unknown_action") && x.result.None?
                      && x.finishedAt == Some(now)
                    else if account == Usable then
                      && x.status == Running && x.error.None? && x.result.None?
                      && x.finishedAt == old_.finishedAt
                    else
                      && x.status == Skipped && (x.error.Some? <==> account == Gone) && x.result.Some?
                      && x.finishedAt == Some(now)
               case Settle(_, outcome, result, error, now) =>
                 && x.status == outcome && x.result == result && x.error == error
                 && x.startedAt == old_.startedAt && x.finishedAt == Some(now)
               case _ =>
                 && x.status == Pending && x.error.None? && x.result.None? && x.startedAt.None? && x.finishedAt.None?
  {
    hide Count;
  }

  /** Starting a job marks it and its time; on an action the worker does not know it fails what is pending. */
  lemma DispatchRecords(j: Job, known: bool, now: int, k: nat)
    requires k < |j.items|
    ensures var d := Next(j, Dispatch(known, now));
            && |d.items| == |j.items|
            && (known ==>
                  d == if j.status == JobQueued then j.(status := JobRunning, startedAt := Some(now)) else j)
            && (!known && j.items[k].status != Pending ==> d.items[k] == j.items[k])
            && (!known && j.items[k].status == Pending ==>
                  && d.items[k].accountId == j.items[k].accountId && d.items[k].status == Failed
                  && d.items[k].error == Some("unknown_action") && d.items[k].result.None?
                  && d.items[k].startedAt == d.items[k].finishedAt == Some(now))
  {
    hide Count;
  }

  function Run(j: Job, steps: seq<Step>): Job {
    if steps == [] then j else Next(Run(j, steps[..|steps| - 1]), steps[|steps| - 1])
  }

  // ---------------------------------------------------------------- what every run keeps

  predicate Closed(s: JobStatus) {
    s == JobDone || s == JobFailed
  }

  /** A closed job has nothing left to do, and a job with nothing left to do is closed or cancelled,
      unless it never had an item. */
  predicate JobInv(j: Job) {
    && j.total == |j.items|
    && (Closed(j.status) ==> Open(j.items) == 0)
    && (Open(j.items) == 0 && j.items != [] ==> Closed(j.status) || j.status == JobCancelled)
    && (Closed(j.status) ==> (j.status == JobFailed <==> Count(j.items, Failed) > 0))
  }

  /** The stored counters are the true ones. */
  predicate Exact(j: Job) {
    j.done == Count(j.items, Done) && j.failed == Count(j.items, Failed) && j.skipped == Count(j.items, Skipped)
  }

  /** Recomputing makes the counters true and, whatever happened before, closes the job exactly when it
      is not cancelled and has nothing left to do, provided it was not closed too early. */
  lemma RecountMeans(j: Job, now: int)
    ensures var k := Recounted(j, now);
            && Exact(k) && k.items == j.items
            && k.done + k.failed + k.skipped + Open(k.items) + Count(k.items, Cancelled) == |k.items|
            && (!(Closed(j.status) && Open(j.items) > 0) ==>
                  (Closed(k.status) <==> j.status != JobCancelled && Open(j.items) == 0))
            && (Closed(k.status) && Open(j.items) == 0 && j.status != JobCancelled ==>
                  (k.status == JobFailed <==> k.failed > 0))
  {
    hide Count;
    CountsPartition(j.items);
  }

  /** What else recomputing writes: the time of closing, and nothing but that, the status and the counters. */
  lemma RecountWrites(j: Job, now: int)
    ensures var k := Recounted(j, now);
            && k == j.(done := k.done, failed := k.failed, skipped := k.skipped, status := k.status,
                       finishedAt := k.finishedAt)
            && if j.status != JobCancelled && Open(j.items) == 0 then Closed(k.status) && k.finishedAt == Some(now)
               else k.status == j.status && k.finishedAt == j.finishedAt
  {
  }

  lemma AppliedCounts(j: Job, i: nat, x: Item)
    requires i < |j.items|
    ensures forall s :: Count(j.items[i := x], s) ==
              Count(j.items, s) - (if j.items[i].status == s then 1 else 0) + if x.status == s then 1 else 0
  {
    forall s
      ensures Count(j.items[i := x], s) ==
              Count(j.items, s) - (if j.items[i].status == s then 1 else 0) + if x.status == s then 1 else 0
    {
      CountUpdate(j.items, i, x, s);
    }
  }

  /** A result, followed by the recount, keeps the invariant exactly when it does not reopen an item of
      a closed job. */
  lemma ApplyExact(j: Job, i: nat, status: ItemStatus, result: Option<string>, error: Option<string>,
                   startedAt: Option<int>, finishedAt: Option<int>, now: int)
    requires JobInv(j) && i < |j.items|
    ensures JobInv(Recounted(Applied(j, i, status, result, error, startedAt, finishedAt), now)) <==>
            !(Closed(j.status) && IsOpen(status))
  {
    hide Count;
    var x := AppliedTo(j.items[i], status, result, error, startedAt, finishedAt);
    AppliedCounts(j, i, x);
    CountPositive(j.items, i);
    CountPositive(j.items[i := x], i);
  }

  lemma {:induction false} CancelCounts(items: seq<Item>, now: int)
    ensures Count(CancelItems(items, now), Pending) == 0
    ensures Count(CancelItems(items, now), Cancelled) == Count(items, Cancelled) + Count(items, Pending)
    ensures forall s :: s != Pending && s != Cancelled ==> Count(CancelItems(items, now), s) == Count(items, s)
  {
    if items != [] {
      CancelCounts(items[..|items| - 1], now);
      assert CancelItems(items, now)[..|items| - 1] == CancelItems(items[..|items| - 1], now);
    }
  }

  lemma {:induction false} FailCounts(items: seq<Item>, now: int)
    ensures Count(FailItems(items, now), Pending) == 0
    ensures Count(FailItems(items, now), Failed) == Count(items, Failed) + Count(items, Pending)
    ensures forall s :: s != Pending && s != Failed ==> Count(FailItems(items, now), s) == Count(items, s)
  {
    if items != [] {
      FailCounts(items[..|items| - 1], now);
      assert FailItems(items, now)[..|items| - 1] == FailItems(items[..|items| - 1], now);
    }
  }

  lemma {:induction false} ResetCounts(items: seq<Item>)
    ensures Count(ResetItems(items), Failed) == 0
    ensures Count(ResetItems(items), Pending) == Count(items, Pending) + Count(items, Failed)
    ensures forall s :: s != Pending && s != Failed ==> Count(ResetItems(items), s) == Count(items, s)
  {
    if items != [] {
      ResetCounts(items[..|items| - 1]);
      assert ResetItems(items)[..|items| - 1] == ResetItems(items[..|items| - 1]);
    }
  }

  lemma {:induction false} NewCounts(ids: seq<int>, s: ItemStatus)
    ensures Count(NewItems(ids), s) == if s == Pending then |ids| else 0
  {
    if ids != [] {
      NewCounts(ids[..|ids| - 1], s);
      assert NewItems(ids)[..|ids| - 1] == NewItems(ids[..|ids| - 1]);
    }
  }

  /** The work that is left: a pending item can still begin and settle, a running one settle. */
  function Measure(j: Job): nat {
    2 * Count(j.items, Pending) + Count(j.items, Running)
  }

  /** Steps that advance an item. */
  function Advances(j: Job, step: Step): nat {
    if Enabled(j, step) && (step.Begin? || step.Settle?) then 1 else 0
  }

  /** Steps that put work back. */
  function Defers(j: Job, step: Step): nat {
    if Enabled(j, step) && step.Defer? then 1 else 0
  }

  function Weight(s: ItemStatus): nat {
    if s == Pending then 2 else if s == Running then 1 else 0
  }

  /** Changing an open item keeps the invariant, with a recount or when the item stays open. */
  lemma ItemStepKeeps(j: Job, i: nat, x: Item, now: int)
    requires JobInv(j) && i < |j.items| && IsOpen(j.items[i].status)
    ensures var k := j.(items := j.items[i := x]);
            && JobInv(Recounted(k, now))
            && (IsOpen(x.status) ==> JobInv(k))
            && Measure(k) == Measure(j) - Weight(j.items[i].status) + Weight(x.status)
  {
    hide Count;
    AppliedCounts(j, i, x);
    CountPositive(j.items, i);
    CountPositive(j.items[i := x], i);
  }

  lemma BulkStepKeeps(j: Job, step: Step)
    requires JobInv(j) && (step.Dispatch? || step.Cancel? || step.Retry?)
    ensures JobInv(Next(j, step))
    ensures !step.Retry? ==> Measure(Next(j, step)) <= Measure(j)
  {
    hide Count, CancelItems, FailItems, ResetItems;
    match step
    case Dispatch(known, now) => FailCounts(j.items, now);
    case Cancel(now) => CancelCounts(j.items, now);
    case Retry => ResetCounts(j.items);
  }

  lemma NextKeeps(j: Job, step: Step)
    requires JobInv(j)
    ensures JobInv(Next(j, step))
    ensures !step.Retry? ==> Measure(Next(j, step)) + Advances(j, step) <= Measure(j) + Defers(j, step)
  {
    hide JobInv, Count;
    if step.Dispatch? || step.Cancel? || step.Retry? {
      BulkStepKeeps(j, step);
    } else if Enabled(j, step) {
      var x := Next(j, step).items[step.i];
      assert Next(j, step).items == j.items[step.i := x];
      ItemStepKeeps(j, step.i, x, step.now);
    }
  }

  /** Every run of a new job keeps the invariant, and its items stay those of the accounts given. */
  lemma {:induction false} RunInv(ids: seq<int>, steps: seq<Step>)
    ensures JobInv(Run(NewJob(ids), steps))
  {
    hide JobInv, Next, NewJob;
    if steps == [] {
      NewJobInv(ids);
    } else {
      RunInv(ids, steps[..|steps| - 1]);
      NextKeeps(Run(NewJob(ids), steps[..|steps| - 1]), steps[|steps| - 1]);
    }
  }

  lemma NewJobInv(ids: seq<int>)
    ensures JobInv(NewJob(ids))
  {
    hide Count, NewItems, Dedup;
    NewCounts(Dedup(ids), Pending);
    NewCounts(Dedup(ids), Running);
  }

  /** The accounts of the items never change, and no step adds or drops an item. */
  lemma {:induction false} RunKeepsAccounts(j: Job, steps: seq<Step>)
    ensures |Run(j, steps).items| == |j.items|
    ensures forall k :: 0 <= k < |j.items| ==> Run(j, steps).items[k].accountId == j.items[k].accountId
  {
    hide Count;
    if steps != [] {
      RunKeepsAccounts(j, steps[..|steps| - 1]);
    }
  }

  // ---------------------------------------------------------------- termination

  predicate NoRetry(steps: seq<Step>) {
    forall k :: 0 <= k < |steps| ==> !steps[k].Retry?
  }

  function AllAdvances(j: Job, steps: seq<Step>): nat {
    if steps == [] then 0
    else AllAdvances(j, steps[..|steps| - 1]) + Advances(Run(j, steps[..|steps| - 1]), steps[|steps| - 1])
  }

  function AllDefers(j: Job, steps: seq<Step>): nat {
    if steps == [] then 0
    else AllDefers(j, steps[..|steps| - 1]) + Defers(Run(j, steps[..|steps| - 1]), steps[|steps| - 1])
  }

  lemma {:induction false} WorkBoundFrom(j: Job, steps: seq<Step>)
    requires JobInv(j) && NoRetry(steps)
    ensures JobInv(Run(j, steps))
    ensures Measure(Run(j, steps)) + AllAdvances(j, steps) <= Measure(j) + AllDefers(j, steps)
  {
    hide JobInv, Measure, Next, Advances, Defers;
    if steps != [] {
      WorkBoundFrom(j, steps[..|steps| - 1]);
      NextKeeps(Run(j, steps[..|steps| - 1]), steps[|steps| - 1]);
    }
  }

  /** Without retries, however the steps interleave, a job on n different accounts advances its items at
      most 2n times, plus once for every time the rate limit puts an item back. */
  lemma WorkBound(ids: seq<int>, steps: seq<Step>)
    requires NoRetry(steps)
    ensures AllAdvances(NewJob(ids), steps) <= 2 * |Dedup(ids)| + AllDefers(NewJob(ids), steps)
  {
    hide JobInv, Run, AllAdvances, AllDefers, Dedup;
    NewJobInv(ids);
    NewCounts(Dedup(ids), Pending);
    NewCounts(Dedup(ids), Running);
    WorkBoundFrom(NewJob(ids), steps);
  }

  /** The job is closed, or cancelled with nothing left to do. */
  predicate Finished(j: Job) {
    Closed(j.status) || (j.status == JobCancelled && Open(j.items) == 0)
  }

  lemma FinishedExact(j: Job)
    requires JobInv(j) && j.items != []
    ensures Finished(j) <==> Measure(j) == 0
  {
    hide Count;
  }

  /** After any run, retries or not, a job on some account is finished exactly when its measure has come
      down to zero; without retries that is so at the latest when the bound is used up. */
  lemma WorkDoneMeansFinished(ids: seq<int>, steps: seq<Step>)
    requires ids != []
    ensures Finished(Run(NewJob(ids), steps)) <==> Measure(Run(NewJob(ids), steps)) == 0
    ensures NoRetry(steps) && AllAdvances(NewJob(ids), steps) == 2 * |Dedup(ids)| + AllDefers(NewJob(ids), steps) ==>
              Finished(Run(NewJob(ids), steps))
  {
    hide Run, AllAdvances, AllDefers, Dedup, Count, JobInv, Finished;
    RunInv(ids, steps);
    RunKeepsAccounts(NewJob(ids), steps);
    DedupMembers(ids, ids[0]);
    FinishedExact(Run(NewJob(ids), steps));
    if NoRetry(steps) {
      NewJobInv(ids);
      NewCounts(Dedup(ids), Pending);
      NewCounts(Dedup(ids), Running);
      WorkBoundFrom(NewJob(ids), steps);
    }
  }

  lemma {:induction false} SomeOpen(items: seq<Item>)
    ensures Open(items) > 0 <==> exists i :: 0 <= i < |items| && IsOpen(items[i].status)
  {
    if items != [] {
      var front := items[..|items| - 1];
      SomeOpen(front);
      if IsOpen(items[|items| - 1].status) {
        assert IsOpen(items[|items| - 1].status);
      }
      if i :| 0 <= i < |front| && IsOpen(front[i].status) {
        assert IsOpen(items[i].status);
      }
      if i :| 0 <= i < |items| && IsOpen(items[i].status) {
        if i < |front| {
          assert IsOpen(front[i].status);
        }
      }
    }
  }

  /** No run gets stuck before that: a non-empty job has an item to advance exactly while it is not
      finished.  Advancing a running item takes the worker that began it; see `AbandonedItemHoldsJob`. */
  lemma NeverStuck(j: Job)
    requires JobInv(j) && j.items != []
    ensures (exists step :: Advances(j, step) == 1) <==> !Finished(j)
  {
    hide Open;
    SomeOpen(j.items);
    if i :| 0 <= i < |j.items| && IsOpen(j.items[i].status) {
      if j.items[i].status == Pending {
        assert Advances(j, Begin(i, true, Usable, 0)) == 1;
      } else {
        assert Advances(j, Settle(i, Done, None, None, 0)) == 1;
      }
    }
    if step :| Advances(j, step) == 1 {
      assert IsOpen(j.items[step.i].status);
    }
  }

  // ---------------------------------------------------------------- cancelling and retrying

  /** Cancelling an unfinished job, or one that ended with failures, cancels the pending items and no
      others; a done or cancelled job is left alone. */
  lemma CancelMeans(j: Job, now: int, k: nat)
    requires k < |j.items|
    ensures var c := CancelledJob(j, now);
            if j.status in {JobDone, JobCancelled} then c == j
            else
              && c == j.(items := c.items, status := JobCancelled, finishedAt := Some(now))
              && |c.items| == |j.items| && Count(c.items, Pending) == 0
              && (j.items[k].status == Pending ==>
                    c.items[k] == j.items[k].(status := Cancelled, finishedAt := Some(now)))
              && (j.items[k].status != Pending ==> c.items[k] == j.items[k])
  {
    hide Count;
    CancelCounts(j.items, now);
  }

  /** A redelivery of an item that is already running is refused, so only its own worker ends it.  If that
      worker is gone, that is if no later step settles or defers the item, it stays running and the job is
      never closed. */
  lemma {:induction false} AbandonedItemHoldsJob(j: Job, steps: seq<Step>, i: nat)
    requires JobInv(j) && i < |j.items| && j.items[i].status == Running
    requires forall k :: 0 <= k < |steps| ==> !((steps[k].Settle? || steps[k].Defer?) && steps[k].i == i)
    ensures JobInv(Run(j, steps)) && i < |Run(j, steps).items| && Run(j, steps).items[i].status == Running
    ensures !Closed(Run(j, steps).status)
  {
    hide Count, JobInv;
    if steps != [] {
      AbandonedItemHoldsJob(j, steps[..|steps| - 1], i);
      NextKeeps(Run(j, steps[..|steps| - 1]), steps[|steps| - 1]);
    }
    RunningIsOpen(Run(j, steps), i);
  }

  lemma RunningIsOpen(j: Job, i: nat)
    requires JobInv(j) && i < |j.items| && j.items[i].status == Running
    ensures !Closed(j.status)
  {
    CountPositive(j.items, i);
  }

  /** Only a retry brings a cancelled job back. */
  lemma {:induction false} CancelledStays(j: Job, steps: seq<Step>)
    requires j.status == JobCancelled && NoRetry(steps)
    ensures Run(j, steps).status == JobCancelled
  {
    hide Count;
    if steps != [] {
      CancelledStays(j, steps[..|steps| - 1]);
    }
  }

  /** Until then its pending items become more exactly when a worker that was still running puts its item
      back because of the rate limit. */
  lemma CancelledJobExact(j: Job, step: Step)
    requires j.status == JobCancelled && !step.Retry?
    ensures Next(j, step).status == JobCancelled
    ensures Count(Next(j, step).items, Pending) > Count(j.items, Pending) <==> step.Defer? && Enabled(j, step)
  {
    hide Count;
    if Enabled(j, step) {
      match step
      case Dispatch(known, now) => FailCounts(j.items, now);
      case Begin(i, _, _, _) => AppliedCounts(j, i, Next(j, step).items[i]);
      case Settle(i, _, _, _, _) => AppliedCounts(j, i, Next(j, step).items[i]);
      case Defer(i, _) =>
        var x := Next(j, step).items[i];
        AppliedCounts(j, i, x);
        assert Next(j, step).items == j.items[i := x];
      case Cancel(_) =>
    }
  }

  /** So a cancelled job without pending items stays so over any run without retries and put-backs. */
  lemma {:induction false} CancelledStaysEmpty(j: Job, steps: seq<Step>)
    requires j.status == JobCancelled && NoRetry(steps) && Count(j.items, Pending) == 0 && AllDefers(j, steps) == 0
    ensures Count(Run(j, steps).items, Pending) == 0
  {
    hide Count, Next, Enabled;
    if steps != [] {
      CancelledStaysEmpty(j, steps[..|steps| - 1]);
      CancelledStays(j, steps[..|steps| - 1]);
      CancelledJobExact(Run(j, steps[..|steps| - 1]), steps[|steps| - 1]);
    }
  }

  /** A retry with failures queues the job, even a cancelled one, with its failed items pending and
      cleared, and every other item as it was. */
  lemma RetryMeans(j: Job, k: nat)
    requires k < |j.items|
    ensures var r := ResetJob(j);
            && (Count(j.items, Failed) > 0 <==> r.status == JobQueued && r.finishedAt == None && r != j)
            && (r != j ==> r == j.(items := r.items, status := JobQueued, finishedAt := None))
            && |r.items| == |j.items| && Count(r.items, Failed) == 0
            && (j.items[k].status == Failed ==>
                  && r.items[k].accountId == j.items[k].accountId && r.items[k].status == Pending
                  && r.items[k].error.None? && r.items[k].result.None?
                  && r.items[k].startedAt.None? && r.items[k].finishedAt.None?)
            && (j.items[k].status != Failed ==> r.items[k] == j.items[k])
  {
    hide Count;
    ResetCounts(j.items);
    if j.items[k].status == Failed {
      CountPositive(j.items, k);
    }
  }
}
