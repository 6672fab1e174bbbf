/** One batch job of icloud_gateway/jobs.py: the run loop over its items, committed counters,
    crashes, start-up recovery and the operator's resume. */
module BatchJobs {
  import opened CreateProtocol
  import opened CreateWorker

  datatype JobStatus = JobQueued | JobRunning | JobCompleted | JobPartial | JobFailed | JobNeedsReconcile

  predicate Finished(it: Item) { it.status == Success || it.status == Failed }

  predicate Idle(items: seq<Item>) {
    forall j: nat | j < |items| :: items[j].status == Queued || Finished(items[j])
  }

  /** Index of the first item that is not finished. */
  function Front(items: seq<Item>): (k: nat)
    ensures k <= |items|
    ensures forall j: nat | j < k :: Finished(items[j])
    ensures k < |items| ==> !Finished(items[k])
  {
    if items == [] || !Finished(items[0]) then 0 else
    var k := Front(items[1..]);
    assert forall j: nat | 0 < j < k + 1 :: items[j] == items[1..][j - 1];
    k + 1
  }

  /** Finished prefix, then at most one item in progress, then items nobody touched. */
  predicate Shape(items: seq<Item>) {
    forall j: nat | Front(items) < j < |items| :: items[j] == NewItem
  }

  function Count(items: seq<Item>, p: Status -> bool): (n: nat)
    ensures n <= |items|
  {
    if items == [] then 0 else (if p(items[0].status) then 1 else 0) + Count(items[1..], p)
  }

  const IsSuccess := (s: Status) => s == Success
  const IsFailure := (s: Status) => s == Failed || s == Unknown
  const IsTouched := (s: Status) => s != Queued

  /** The row of table batch_jobs, with the three counters of _refresh_batch_job_counts. */
  datatype Counters = Counters(succeeded: nat, failed: nat, current: nat)

  function Refreshed(items: seq<Item>): Counters {
    Counters(Count(items, IsSuccess), Count(items, IsFailure), Count(items, IsTouched))
  }

  /** What the committed counters mean. */
  lemma {:induction false} CountIs(items: seq<Item>, p: Status -> bool)
    ensures Count(items, p) == |set j: nat | j < |items| && p(items[j].status)|
  {
    if items != [] {
      var rest := set j: nat | j < |items[1..]| && p(items[1..][j].status);
      var all := set j: nat | j < |items| && p(items[j].status);
      var shifted := set j: nat | 0 < j < |items| && p(items[j].status);
      CountIs(items[1..], p);
      Shift(items, p);
      assert all == shifted + if p(items[0].status) then {0} else {};
    }
  }

  lemma Shift(items: seq<Item>, p: Status -> bool)
    requires items != []
    ensures |set j: nat | 0 < j < |items| && p(items[j].status)|
         == |set j: nat | j < |items[1..]| && p(items[1..][j].status)|
  {
    var rest := set j: nat | j < |items[1..]| && p(items[1..][j].status);
    var shifted := set j: nat | 0 < j < |items| && p(items[j].status);
    SameSize(rest);
    assert shifted == OneUp(rest);
  }

  ghost function OneUp(a: set<nat>): (up: set<nat>)
    ensures forall j: nat :: j in up <==> j > 0 && j - 1 in a
  {
    var up := set j | j in a :: j + 1;
    assert forall j: nat | j > 0 && j - 1 in a :: j in up by {
      forall j: nat | j > 0 && j - 1 in a ensures j in up {
        assert j == (j - 1) + 1;
      }
    }
    up
  }

  lemma {:induction false} SameSize(a: set<nat>)
    ensures |OneUp(a)| == |a|
    decreases |a|
  {
    if a == {} {
      assert OneUp(a) == {};
    } else {
      var j :| j in a;
      SameSize(a - {j});
      assert OneUp(a) == OneUp(a - {j}) + {j + 1};
    }
  }

  lemma {:induction false} AllSucceeded(items: seq<Item>)
    ensures Count(items, IsSuccess) == |items| <==> forall j: nat | j < |items| :: items[j].status == Success
  {
    if items != [] {
      AllSucceeded(items[1..]);
      assert forall j: nat | 0 < j < |items| :: items[j] == items[1..][j - 1];
      assert (forall j: nat | j < |items[1..]| :: items[1..][j].status == Success)
        <== (forall j: nat | j < |items| :: items[j].status == Success);
    }
  }

  // ---------------------------------------------------------------- recovery

  function RecoverItem(create: bool, it: Item): Item {
    if it.status == Running && !create then it.(status := Unknown, stage := AtUnknown) else Recovered(it)
  }

  function RecoverItems(create: bool, items: seq<Item>): seq<Item> {
    seq(|items|, j requires 0 <= j < |items| => RecoverItem(create, items[j]))
  }

  /** Rewriting one item moves the front forward only when that item got finished. */
  lemma FrontMoves(items: seq<Item>, i: nat, it: Item)
    requires Shape(items) && i < |items| && i == Front(items)
    ensures Front(items[i := it]) == if Finished(it) then i + 1 else i
  {
    var items' := items[i := it];
    assert forall j: nat | j < i :: items'[j] == items[j];
    assert Front(items') >= i && items'[i] == it;
    assert i + 1 < |items| ==> items'[i + 1] == NewItem && !Finished(items'[i + 1]);
  }

  predicate HasUnknown(items: seq<Item>) { exists j: nat :: j < |items| && items[j].status == Unknown }

  /** A row that recovery turns unknown stops its job; a running job without one is queued. */
  function RecoverStatus(create: bool, status: JobStatus, items: seq<Item>): JobStatus {
    if exists j: nat :: j < |items| && items[j].status == Running && RecoverItem(create, items[j]).status == Unknown
    then JobNeedsReconcile
    else if status == JobRunning && !HasUnknown(RecoverItems(create, items)) then JobQueued
      else status
  }

  /** The item is `it` after a restart that found it as `was`: the outcome of a bulk action that was
      under way is unknown, as is that of a reserve without a well-formed candidate; other reserves
      are looked up, and suggestions are asked for again. */
  predicate Settled(create: bool, was: Item, it: Item) {
    if was.status != Running then it == was
    else if !create then it == Item(Unknown, AtUnknown, was.result)
    else if was.stage == Generating then it == Item(Queued, AtQueued, was.result)
    else if OneAt(Candidate(was))
    then it.status == Queued && it.stage == Reconciling && Marked(it) && Candidate(it) == Candidate(was)
    else it == Item(Unknown, AtUnknown, was.result)
  }

  predicate Lost(was: Item, it: Item) { was.status == Running && it.status == Unknown }

  lemma RecoverMeans(create: bool, status: JobStatus, was: seq<Item>)
    ensures var items := RecoverItems(create, was);
            && (forall j: nat | j < |items| :: Settled(create, was[j], items[j]))
            && RecoverStatus(create, status, was)
               == if exists j: nat :: j < |items| && Lost(was[j], items[j]) then JobNeedsReconcile
                  else if status == JobRunning && !HasUnknown(items) then JobQueued else status
  {
    var items := RecoverItems(create, was);
    if exists j: nat :: j < |items| && Lost(was[j], items[j]) {
      var j: nat :| j < |items| && Lost(was[j], items[j]);
      assert was[j].status == Running && RecoverItem(create, was[j]).status == Unknown;
    } else {
      forall j: nat | j < |items| && was[j].status == Running ensures RecoverItem(create, was[j]).status != Unknown {
        assert !Lost(was[j], items[j]);
      }
    }
  }

  /** Recovery applied twice is recovery applied once, for the rows and for the job. */
  lemma RecoverTwice(create: bool, status: JobStatus, items: seq<Item>)
    ensures var items1 := RecoverItems(create, items);
            && RecoverItems(create, items1) == items1
            && RecoverStatus(create, RecoverStatus(create, status, items), items1)
               == RecoverStatus(create, status, items)
  {
    var items1 := RecoverItems(create, items);
    assert forall j: nat | j < |items| :: RecoverItem(create, items1[j]) == items1[j];
    assert RecoverItems(create, items1) == items1;
  }

  lemma ShapeByFront(items: seq<Item>, k: nat)
    requires k <= |items|
    requires forall j: nat | j < k :: Finished(items[j])
    requires forall j: nat | k < j < |items| :: items[j] == NewItem
    ensures Shape(items)
  {
    assert k <= Front(items);
  }

  lemma RecoverKeepsShape(create: bool, items: seq<Item>)
    requires Shape(items)
    ensures Shape(RecoverItems(create, items))
  {
    ShapeByFront(RecoverItems(create, items), Front(items));
  }

  /** After recovery nothing runs, and a job that is queued has only queued and finished items. */
  lemma RecoverSettles(create: bool, status: JobStatus, items: seq<Item>)
    requires status == JobQueued ==> !HasUnknown(items)
    ensures forall j: nat | j < |items| :: RecoverItems(create, items)[j].status != Running
    ensures RecoverStatus(create, status, items) == JobQueued ==> Idle(RecoverItems(create, items))
  {
    var items1 := RecoverItems(create, items);
    forall j: nat | j < |items| && RecoverStatus(create, status, items) == JobQueued
      ensures items1[j].status == Queued || Finished(items1[j])
    {
      assert items1[j] == RecoverItem(create, items[j]);
    }
  }

  /** Rewriting the first unfinished item keeps the shape. */
  lemma WriteKeepsShape(items: seq<Item>, i: nat, it: Item)
    requires Shape(items) && i < |items| && i == Front(items)
    ensures Shape(items[i := it])
  {
    ShapeByFront(items[i := it], i);
  }

  lemma StaysIdle(items: seq<Item>, i: nat, it: Item)
    requires i < |items| && Idle(items) && (it.status == Queued || Finished(it))
    ensures Idle(items[i := it])
  {}

  // ---------------------------------------------------------------- the job

  /** What one call of _run_item may do to the row it is given.  For create jobs this is the
      contract of CreateWorker.Worker.CreateAlias; for bulk jobs it is that of _bulk_alias. */
  predicate Visited(create: bool, was: Item, outcome: Outcome, it: Item) {
    && (outcome == Stopped ==> it.status in {Queued, Running, Success})
    && (if create then Leaves(it, outcome, Candidate(was)) else
        && outcome in {Ok, MarkedFailed, MarkedUnknown, Stopped, Crashed}
        && (outcome == Ok ==> it.status == Success)
        && (outcome == MarkedFailed ==> it.status == Failed)
        && (outcome == MarkedUnknown ==> it.status == Unknown))
  }

  /** What the item handler makes of the n-th row it is given. */
  type Handler = (nat, Item) -> (Outcome, Item)

  /** The handler keeps its contract; only a requested stop and a death end a visit early. */
  ghost predicate Honest(create: bool, handler: Handler, stops: bool, dies: bool) {
    forall n: nat, was: Item ::
      var (outcome, it) := handler(n, was);
      Visited(create, was, outcome, it) && (outcome == Stopped ==> stops) && (outcome == Crashed ==> dies)
  }

  ghost predicate AlwaysOk(handler: Handler) { forall n: nat, was: Item :: handler(n, was).0 == Ok }

  /** An item that stops its job: nobody knows what became of it, or there is no room for it. */
  predicate Stuck(it: Item) {
    it.status == Unknown || (it.status == Queued && it.result.Pending? && it.result.wait == CapacityReached)
  }

  predicate AllDone(items: seq<Item>, k: nat) { k <= |items| && forall j: nat | j < k :: items[j].status == Success }

  lemma StaysDone(before: seq<Item>, now: seq<Item>, index: nat, verdict: Verdict)
    requires AllDone(before, Front(before)) && index < |before| == |now| && index <= Front(before) && Idle(before)
    requires now == before[index := now[index]] && verdict in {Next, Repeat}
    requires before[index].status != Queued ==> now == before
    requires before[index].status == Queued && verdict == Next ==>
               now[index].status == Success && Front(now) == index + 1
    requires before[index].status == Queued && verdict == Repeat ==> Front(now) == index
    ensures AllDone(now, Front(now))
  {}

  datatype Ending = Ended | OutOfFaults | Died
  datatype Verdict = Next | Repeat | Fault | Leave(ending: Ending)

  class Job {
    const create: bool
    var status: JobStatus
    var items: seq<Item>
    var counters: Counters
    /** The stop request; it lasts until the process ends. */
    var stopping: bool
    /** How many items were run so far. */
    var visits: nat
    /** How many of these visits ended in a rate limit or a retry. */
    ghost var faults: nat

    /** Between any two writes.  A queued job has no item in progress, so the run loop never
        skips one; with a pending stop the loop does not look at items at all. */
    ghost predicate Valid()
      reads this
    {
      && Shape(items) && items != []
      && counters == Refreshed(items)
      && (status == JobQueued ==> if stopping then !HasUnknown(items) else Idle(items))
      && (status == JobNeedsReconcile ==> forall j: nat | j < |items| :: items[j].status != Running)
      && (status == JobCompleted ==> forall j: nat | j < |items| :: items[j].status == Success)
    }

    constructor (create: bool, requested: nat)
      requires requested > 0
      ensures Valid() && status == JobQueued && items == seq(requested, _ => NewItem) && !stopping && faults == 0
    {
      this.create, visits, faults := create, 0, 0;
      status, stopping := JobQueued, false;
      items := seq(requested, _ => NewItem);
      counters := Refreshed(seq(requested, _ => NewItem));
    }

    lemma HandlerFacts(handler: Handler, stops: bool, dies: bool, was: Item)
      requires Honest(create, handler, stops, dies)
      ensures var (outcome, it) := handler(visits, was);
              && Visited(create, was, outcome, it) && (outcome == Stopped ==> stops) && (outcome == Crashed ==> dies)
              && (outcome == Ok ==> it.status == Success) && (outcome == MarkedFailed ==> it.status == Failed)
              && (outcome == MarkedUnknown ==> it.status == Unknown)
              && (outcome == CapacityFull ==> it.status == Queued && Stuck(it))
              && (outcome in {Limited, Retry} ==>
                    it.status == Queued && it.result.Pending? && it.result.wait in {RateLimited, Transient})
    {
      var (outcome, it) := handler(visits, was);
    }

    /** _run_item for the first unfinished item: the row becomes what the handler makes of it, and
        with it the counters change. */
    method RunItem(i: nat, handler: Handler, stops: bool, ghost dies: bool) returns (outcome: Outcome)
      requires Valid() && status == JobRunning && i < |items| && i == Front(items) && items[i].status == Queued
      requires Honest(create, handler, stops, dies)
      modifies this
      ensures Valid() && status == JobRunning && |items| == old(|items|)
      ensures items == old(items)[i := items[i]] && Front(items) == if Finished(items[i]) then i + 1 else i
      ensures (outcome, items[i]) == handler(old(visits), old(items)[i]) && visits == old(visits) + 1
      ensures stopping ==> old(stopping) || stops
      ensures outcome == Stopped ==> stopping
      ensures faults == old(faults) + if outcome in {Limited, Retry} then 1 else 0
      ensures old(Idle(items)) && outcome in {Ok, MarkedFailed, Limited, Retry} ==> Idle(items)
    {
      HandlerFacts(handler, stops, dies, items[i]);
      var it, stop: bool := items[i], *;
      var answer := handler(visits, items[i]);
      outcome, it := answer.0, answer.1;
      WriteKeepsShape(items, i, it);
      FrontMoves(items, i, it);
      if Idle(items) && (it.status == Queued || Finished(it)) {
        StaysIdle(items, i, it);
      }
      items := items[i := it];
      counters := Refreshed(items);
      stopping := stopping || (stop && stops) || outcome == Stopped;
      visits := visits + 1;
      faults := faults + if outcome in {Limited, Retry} then 1 else 0;
    }

    /** _clear_rate_limit_wait and _clear_transient_wait at job level. */
    method ClearWait(i: nat)
      requires Valid() && status == JobRunning && i < |items| && i == Front(items)
      requires items[i].status == Queued && items[i].result.Pending? && items[i].result.wait in {RateLimited, Transient}
      modifies this`items, this`counters
      ensures Valid() && |items| == old(|items|)
      ensures items == old(items)[i := items[i]] && Front(items) >= i
      ensures items[i].status == Queued && items[i].result.Pending? && items[i].result.wait == NoWait
      ensures Attempts(items[i]) == Attempts(old(items)[i])
      ensures if old(items)[i].result.wait == RateLimited then Candidate(items[i]) == "" && !Marked(items[i])
              else Candidate(items[i]) == Candidate(old(items)[i]) && Marked(items[i]) == Marked(old(items)[i])
    {
      var it := if items[i].result.wait == RateLimited
      then Item(Queued, AtQueued, Pending("", false, NoWait, Attempts(items[i])))
      else Unparked(items[i]);
      WriteKeepsShape(items, i, it);
      FrontMoves(items, i, it);
      items := items[i := it];
      counters := Refreshed(items);
    }

    function WaitMarks(i: nat): nat
      reads this
    {
      if i < |items| && items[i].result.Pending? && items[i].result.wait in {RateLimited, Transient} then 1 else 0
    }

    /** Cooling down or backing off: the wait ends, or a stop cuts it short. */
    method SitOut(index: nat, stops: bool) returns (verdict: Verdict)
      requires Valid() && status == JobRunning && index == Front(items) < |items| && items[index].status == Queued
      requires !stopping && Idle(items) && WaitMarks(index) == 1
      modifies this`items, this`counters, this`status, this`stopping
      ensures Valid() && |items| == old(|items|) && items == old(items)[index := items[index]]
      ensures Front(items) >= index && faults == old(faults)
      ensures verdict == Leave(Ended) || verdict == Repeat
      ensures verdict.Leave? ==> stops && status == JobQueued && stopping && items == old(items)
      ensures verdict == Repeat ==> status == JobRunning && !stopping && Idle(items) && WaitMarks(index) == 0
      ensures items[index].status == Queued
    {
      var stop: bool := *;
      if stop && stops {
        stopping, status := true, JobQueued;
        return Leave(Ended);
      }
      ClearWait(index);
      return Repeat;
    }

    /** One turn of the run loop for the item at `index`.  A stop may be requested if `stops`, and the
        process may die if `dies`. */
    method Turn(index: nat, handler: Handler, stops: bool, dies: bool) returns (verdict: Verdict)
      requires Valid() && status == JobRunning && index < |items| && index <= Front(items)
      requires !HasUnknown(items) && (stopping || Idle(items)) && Honest(create, handler, stops, dies)
      modifies this
      ensures Valid() && |items| == old(|items|) && items == old(items)[index := items[index]]
      ensures old(items[index].status) != Queued ==>
                items == old(items) && faults == old(faults) && (old(stopping) || verdict == Next)
      ensures Front(items) >= old(Front(items)) && (stopping ==> old(stopping) || stops)
      ensures verdict.Leave? || (status == JobRunning && !HasUnknown(items) && (stopping || Idle(items)))
      ensures verdict == Next ==> index < Front(items)
      ensures verdict == Repeat ==> WaitMarks(index) < old(WaitMarks(index))
      ensures verdict == Fault ==> !stopping && faults == old(faults) + 1
      ensures faults >= old(faults) && (verdict == Leave(Died) ==> dies)
      ensures verdict == Leave(Ended) ==> (status == JobQueued && stopping) || StoppedByItem()
      ensures verdict != Leave(OutOfFaults)
      ensures !dies && !stopping && Finished(items[index]) ==> verdict == Next
      ensures AlwaysOk(handler) && !stopping && old(items[index].status) == Queued ==>
                verdict in {Next, Repeat, Leave(Died)} && faults == old(faults)
                && (verdict == Next ==> items[index].status == Success && Front(items) == index + 1)
                && (verdict == Repeat ==> Front(items) == index)
    {
      if stopping {
        status := JobQueued;
        return Leave(Ended);
      }
      if items[index].status != Queued {
        return Next;
      }
      if WaitMarks(index) == 1 {
        verdict := SitOut(index, stops);
        return;
      }
      verdict := Visit(index, handler, stops, dies);
    }

    /** The job is left for the operator, and the reason is the first unfinished item. */
    predicate StoppedByItem()
      reads this
    {
      status == JobNeedsReconcile && Front(items) < |items|
      && Stuck(items[Front(items)])
    }

    /** The rest of the turn: the item is run, and what became of it decides how to go on. */
    method Visit(index: nat, handler: Handler, stops: bool, dies: bool) returns (verdict: Verdict)
      requires Valid() && status == JobRunning && index == Front(items) < |items| && items[index].status == Queued
      requires !HasUnknown(items) && !stopping && Idle(items) && WaitMarks(index) == 0
      requires Honest(create, handler, stops, dies)
      modifies this
      ensures Valid() && |items| == old(|items|) && items == old(items)[index := items[index]]
      ensures items[index] == handler(old(visits), old(items)[index]).1 && visits == old(visits) + 1
      ensures Front(items) == (if Finished(items[index]) then index + 1 else index)
      ensures faults >= old(faults) && verdict != Repeat && (stopping ==> stops)
      ensures verdict.Leave? || (status == JobRunning && !HasUnknown(items) && !stopping && Idle(items))
      ensures verdict == Leave(Died) ==> dies
      ensures verdict == Next ==> index < Front(items) && Finished(items[index])
      ensures verdict == Fault ==> faults == old(faults) + 1 && WaitMarks(index) == 1
      ensures verdict == Leave(Ended) ==> (status == JobQueued && stopping) || StoppedByItem()
      ensures verdict != Leave(OutOfFaults)
      ensures !dies && !stopping && Finished(items[index]) ==> verdict == Next
      ensures !dies && !stopping && Stuck(items[index]) ==> verdict == Leave(Ended) && StoppedByItem()
      ensures !dies && !stopping && items[index].status == Queued && WaitMarks(index) == 1 ==> verdict == Fault
      ensures AlwaysOk(handler) && !stopping ==>
                verdict in {Next, Leave(Died)} && items[index].status == Success && faults == old(faults)
    {
      HandlerFacts(handler, stops, dies, items[index]);
      var crash: bool := *;
      var outcome := RunItem(index, handler, stops, dies);
      if (crash && dies) || outcome == Crashed {
        return Leave(Died);
      }
      if outcome == CapacityFull || outcome == MarkedUnknown {
        status := JobNeedsReconcile;
        return Leave(Ended);
      }
      if stopping {
        status := JobQueued;
        return Leave(Ended);
      }
      return if outcome == Limited || outcome == Retry then Fault else Next;
    }

    static lemma FrontStays(was: seq<Item>, before: seq<Item>, now: seq<Item>, index: nat, done: nat)
      requires index < |now| == |before| == |was| && done <= Front(was) && before[..done] == was[..done]
      requires now == before[index := now[index]] && (before[index].status != Queued ==> now == before)
      ensures now[..done] == was[..done]
    {
      if index < done {
        assert was[index] == was[..done][index] == before[..done][index] == before[index];
        assert Finished(was[index]);
      } else {
        assert now[..done] == before[..done];
      }
    }

    /** _run_job.  The loop ends: each turn uses up a fault, or an item, or a parked wait mark.  Out
        of faults means that more than `budget` visits ended in a rate limit or a retry.  If every
        item can be done and nobody interrupts, the job completes. */
    method RunJob(budget: nat, handler: Handler, stops: bool, dies: bool) returns (ending: Ending)
      requires Valid() && status == JobRunning && !HasUnknown(items) && (stopping || Idle(items))
      requires Honest(create, handler, stops, dies)
      modifies this
      ensures Valid() && |items| == old(|items|)
      ensures items[..old(Front(items))] == old(items[..Front(items)])
      ensures (ending == Died ==> dies) && (stopping ==> old(stopping) || stops)
      ensures ending == Ended ==>
                || (status == JobQueued && stopping)
                || StoppedByItem()
                || (Front(items) == |items|
                    && (status == JobCompleted <==> forall j: nat | j < |items| :: items[j].status == Success)
                    && (status == JobPartial <==> 0 < counters.succeeded < |items|)
                    && status in {JobCompleted, JobPartial, JobFailed})
      ensures ending == OutOfFaults ==>
                faults - old(faults) > budget && status == JobRunning && !stopping && Idle(items)
      ensures AlwaysOk(handler) && !old(stopping) && !stops && !dies && AllDone(old(items), old(Front(items))) ==>
                ending == Ended && status == JobCompleted
    {
      var index, left: nat := 0, budget;
      ghost var was, done := items, Front(items);
      ghost var smooth := AlwaysOk(handler) && !stopping && !stops && !dies && AllDone(items, Front(items));
      while index < |items|
        invariant Valid() && status == JobRunning && |items| == |was|
        invariant index <= Front(items) && done <= Front(items)
        invariant !HasUnknown(items) && (stopping || Idle(items)) && (stopping ==> old(stopping) || stops)
        invariant items[..done] == was[..done] && left <= budget && faults - old(faults) >= budget - left
        invariant smooth ==> faults == old(faults) && AllDone(items, Front(items))
        decreases left, |items| - index, WaitMarks(index)
      {
        ghost var before := items;
        var verdict := Turn(index, handler, stops, dies);
        FrontStays(was, before, items, index, done);
        if smooth {
          StaysDone(before, items, index, verdict);
        }
        match verdict
        case Leave(e) => return e;
        case Next => index := index + 1;
        case Repeat =>
        case Fault =>
          if left == 0 {
            return OutOfFaults;
          }
          left := left - 1;
      }
      FinishJob();
      ending := Ended;
    }

    /** The verdict after the last item, read off the committed counters. */
    method FinishJob()
      requires Valid() && status == JobRunning && Front(items) == |items|
      modifies this`status
      ensures Valid() && status in {JobCompleted, JobPartial, JobFailed}
      ensures status == JobCompleted <==> forall j: nat | j < |items| :: items[j].status == Success
      ensures status == JobPartial <==> 0 < counters.succeeded < |items|
    {
      AllSucceeded(items);
      status := if counters.succeeded == |items| then JobCompleted
      else if counters.succeeded > 0 then JobPartial else JobFailed;
    }

    /** recover_interrupted_batch_jobs at the start of a new process. */
    method Recover()
      requires Valid()
      modifies this
      ensures Valid() && !stopping
      ensures items == RecoverItems(create, old(items)) && status == RecoverStatus(create, old(status), old(items))
      ensures status == JobQueued ==> Idle(items)
      // a finished or waiting item is left alone, an interrupted one is requeued or becomes unknown
      ensures |items| == old(|items|) && forall j: nat | j < |items| :: Settled(create, old(items)[j], items[j])
      // and an item that becomes unknown stops the job
      ensures status == if exists j: nat :: j < |items| && Lost(old(items)[j], items[j]) then JobNeedsReconcile
                        else if old(status) == JobRunning && !HasUnknown(items) then JobQueued else old(status)
    {
      RecoverKeepsShape(create, items);
      RecoverSettles(create, status, items);
      RecoverMeans(create, status, items);
      var newStatus := RecoverStatus(create, status, items);
      var k := 0;
      ghost var was := items;
      while k < |items|
        invariant k <= |items| == |was|
        invariant forall j: nat | j < k :: items[j] == RecoverItem(create, was[j])
        invariant forall j: nat | k <= j < |items| :: items[j] == was[j]
        invariant status == old(status) && counters == old(counters)
      {
        items := items[k := RecoverItem(create, items[k])];
        k := k + 1;
      }
      assert items == RecoverItems(create, was);
      counters := Refreshed(items);
      status, stopping := newStatus, false;
    }

    /** next_batch_job takes queued jobs only, in one conditional update. */
    method Claim() returns (claimed: bool)
      requires Valid()
      modifies this`status
      ensures Valid() && (claimed <==> old(status) == JobQueued)
      ensures claimed ==> status == JobRunning && !HasUnknown(items) && (stopping || Idle(items))
      ensures !claimed ==> status == old(status)
    {
      claimed := status == JobQueued;
      if claimed {
        status := JobRunning;
      }
    }

    /** resume_reconcilable_create_job: refused unless the job is stopped, there is an unknown
        item, and every unknown item has a saved candidate. */
    method Resume() returns (resumed: bool)
      requires Valid() && !stopping
      modifies this
      ensures Valid() && |items| == old(|items|)
      ensures resumed <==> create && old(status) == JobNeedsReconcile && HasUnknown(old(items))
                           && forall it | it in old(items) && it.status == Unknown :: OneAt(Candidate(it))
      ensures !resumed ==> status == old(status) && items == old(items)
      ensures resumed ==>
                && status == JobQueued && Idle(items)
                && forall j: nat | j < |items| ::
                     if old(items)[j].status != Unknown then items[j] == old(items)[j]
                     else items[j].status == Queued && items[j].stage == Reconciling && Marked(items[j])
                          && Candidate(items[j]) == Candidate(old(items)[j])
    {
      if !create || status != JobNeedsReconcile || !HasUnknown(items) {
        return false;
      }
      var k := 0;
      while k < |items|
        invariant k <= |items|
        invariant forall j: nat | j < k && items[j].status == Unknown :: OneAt(Candidate(items[j]))
      {
        if items[k].status == Unknown && !OneAt(Candidate(items[k])) {
          return false;
        }
        k := k + 1;
      }
      assert forall j: nat | j < |items| && items[j].status == Unknown :: items[j].result.Pending? by {
        assert AtCount("") == 0;
      }
      Reopen();
      return true;
    }

    /** The rewrite of that transaction. */
    method Reopen()
      requires Valid() && !stopping && status == JobNeedsReconcile
      requires forall j: nat | j < |items| && items[j].status == Unknown :: items[j].result.Pending?
      modifies this`items, this`counters, this`status
      ensures Valid() && |items| == old(|items|) && status == JobQueued && Idle(items)
      ensures forall j: nat | j < |items| ::
                items[j] == if old(items)[j].status == Unknown then Resumed(old(items)[j]) else old(items)[j]
    {
      ghost var was := items;
      items := seq(|items|, j requires 0 <= j < |items| reads this =>
        if items[j].status == Unknown && items[j].result.Pending? then Resumed(items[j]) else items[j]);
      ShapeByFront(items, Front(was));
      counters := Refreshed(items);
      status := JobQueued;
    }

    /** Any life of a job: claimed and run, killed anywhere, recovered, resumed. */
    method Live(turns: nat, budget: nat, handler: Handler)
      requires Valid() && Honest(create, handler, true, true)
      modifies this
      ensures Valid() && |items| == old(|items|)
    {
      for turn := 0 to turns
        invariant Valid() && |items| == old(|items|)
      {
        var again: bool := *;
        if again {
          Recover();
          var _ := Resume();
        }
        var claimed := Claim();
        if claimed {
          var _ := RunJob(budget, handler, true, true);
        }
      }
    }
  }
}
