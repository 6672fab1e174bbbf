/** The durable create-alias protocol of icloud_gateway/jobs.py and icloud_gateway/database.py.

    A serial worker asks the remote service for a candidate address (generate) and then
    reserves it.  Every step is a row update; the process can die between any two of them.
    This module gives the protocol as events over durable rows and the remote alias set.
    No event reads worker memory, so every prefix of a worker's visit followed by a
    restart is also a run: the theorems below hold with a crash at any point. */
module CreateProtocol {

  type Email = string

  function AtCount(e: string): nat {
    if e == "" then 0 else (if e[0] == '@' then 1 else 0) + AtCount(e[1..])
  }

  /** The source's test `candidate.count("@") == 1`. */
  predicate OneAt(e: string) { AtCount(e) == 1 }

  lemma {:induction false} NoAt(e: string)
    ensures AtCount(e) == 0 <==> forall k | 0 <= k < |e| :: e[k] != '@'
  {
    if e != "" {
      NoAt(e[1..]);
      assert forall k | 0 < k < |e| :: e[k] == e[1..][k - 1];
      assert forall k | 0 <= k < |e[1..]| :: e[1..][k] == e[k + 1];
    }
  }

  /** There is one place in the text, and only one, that holds an '@'. */
  lemma {:induction false} OneAtIs(e: string)
    ensures OneAt(e) <==> exists k :: 0 <= k < |e| && OnlyAt(e, k)
  {
    if e != "" {
      NoAt(e[1..]);
      OneAtIs(e[1..]);
      assert forall k | 0 <= k < |e[1..]| :: e[1..][k] == e[k + 1];
      if e[0] == '@' {
        assert OneAt(e) <==> OnlyAt(e, 0);
      } else {
        assert forall k | 0 <= k < |e[1..]| :: OnlyAt(e[1..], k) <==> OnlyAt(e, k + 1);
        assert forall k | 0 < k < |e| :: OnlyAt(e, k) <==> OnlyAt(e[1..], k - 1);
      }
    }
  }

  predicate OnlyAt(e: string, k: int)
    requires 0 <= k < |e|
  {
    e[k] == '@' && forall j | 0 <= j < |e| && j != k :: e[j] != '@'
  }

  datatype Status = Queued | Running | Success | Failed | Unknown

  datatype Stage =
    | AtQueued | Generating | Generated | Reserving | Reconciling
    | WaitingQuota | WaitingRetry | WaitingReconcile | WaitingCapacity
    | Completed | AtFailed | AtUnknown

  datatype Wait = NoWait | RateLimited | Transient | CapacityReached

  /** The decrypted result blob.  A candidate of "" stands for a missing key, as in the
      source's `str(result.get("candidate") or "")`; an absent blob reads like `Blank`. */
  datatype Result =
    | Pending(candidate: Email, reconcile: bool, wait: Wait, attempts: nat)
    | Created(email: Email)

  const Blank := Pending("", false, NoWait, 0)

  datatype Item = Item(status: Status, stage: Stage, result: Result)

  const NewItem := Item(Queued, AtQueued, Blank)

  datatype Fault = Network | Session | Rejected
  datatype Resolution = Absent | Unavailable

  /** Durable rows, local alias table, remote aliases, and ghost bookkeeping:
      `owner` names the item each suggested address was saved for, `ever` the suggested
      addresses that were reserved at some time, `made[i]` how often a reserve for item i
      took effect and `lost[i]` how often an alias of item i was removed remotely. */
  datatype World = World(
    items: seq<Item>,
    known: set<Email>,
    remote: set<Email>,
    owner: map<Email, nat>,
    ever: set<Email>,
    made: seq<nat>,
    lost: seq<nat>)

  const Empty := World([], {}, {}, map[], {}, [], [])

  datatype Event =
      // one visit of _create_alias
    | StartGenerate(i: nat)
    | GenerateFull(i: nat)
    | GenerateLimited(i: nat)
    | GenerateFaulted(i: nat)
    | SaveCandidate(i: nat, c: Email)
    | ReconcileUnavailable(i: nat)
    | ReconcileStopped(i: nat)
    | ReconcileAbsent(i: nat)
    | StopBeforeReserve(i: nat)
    | SessionGone(i: nat)
    | StartReserve(i: nat)
    | ReserveApplied(i: nat)
    | ReserveFull(i: nat)
    | ReserveLimited(i: nat)
    | ReserveUnresolved(i: nat, fault: Fault, resolution: Resolution)
    | ReserveStopped(i: nat)
    | RecordLocal(i: nat)
    | Succeed(i: nat)
    | MarkUnknown(i: nat)
    | MarkFailed(i: nat)
    | EarlyStop(i: nat)
    | EarlyFault(i: nat)
    | LateError(i: nat, attempted: bool)
      // the run loop, start-up recovery, the operator, new jobs
    | ClearRateLimit(i: nat)
    | ClearTransient(i: nat)
    | Recover
    | Resume(unknown: set<nat>)
    | NewJob(count: nat)
      // everything else: other gateway operations and the outside world
    | RemoteAdded(e: Email)
    | RemoteRemoved(e: Email)
    | LocalSynced(es: set<Email>)
    | LocalForgot(e: Email)

  function Candidate(it: Item): Email {
    if it.result.Pending? then it.result.candidate else ""
  }

  predicate Marked(it: Item) { it.result.Pending? && it.result.reconcile }

  function Attempts(it: Item): nat {
    if it.result.Pending? then it.result.attempts else 0
  }

  predicate Has(w: World, i: nat) { i < |w.items| && w.items[i].result.Pending? }

  predicate AtRest(w: World, i: nat) { Has(w, i) && w.items[i].status == Queued }

  predicate AtStage(w: World, i: nat, stage: Stage) {
    Has(w, i) && w.items[i].status == Running && w.items[i].stage == stage
  }

  /** The row may be completed: a reserve of it is in flight, or it awaits reconciliation. */
  predicate Completable(w: World, i: nat) {
    AtStage(w, i, Reserving) || (AtRest(w, i) && Marked(w.items[i]))
  }

  // ---------------------------------------------------------------- rows after a write

  function Parked(c: Email, mark: bool, attempts: nat): Item {
    Item(Queued, if mark then WaitingReconcile else WaitingRetry, Pending(c, mark, Transient, attempts))
  }

  function Unparked(it: Item): Item
    requires it.result.Pending?
  {
    Item(Queued,
         if it.result.reconcile then Reconciling else if it.result.candidate != "" then Generated else AtQueued,
         it.result.(wait := NoWait))
  }

  function Recovered(it: Item): Item {
    if it.status != Running then it
    else if it.stage == Generating then it.(status := Queued, stage := AtQueued)
    else if it.result.Pending? && OneAt(it.result.candidate)
    then Item(Queued, Reconciling, it.result.(reconcile := true))
    else it.(status := Unknown, stage := AtUnknown)
  }

  function Resumed(it: Item): Item
    requires it.result.Pending?
  {
    Item(Queued, Reconciling, it.result.(reconcile := true))
  }

  /** A reserve that raised keeps its candidate under the reconcile mark, except when the
      service rejected it explicitly and a complete list does not contain it. */
  function AfterReserveFault(it: Item, fault: Fault, resolution: Resolution): Item {
    var regenerate := resolution == Absent && fault == Rejected;
    Parked(if regenerate then "" else Candidate(it), !regenerate, Attempts(it) + 1)
  }

  /** An error after the success row was written: the handler rewrites status and stage only. */
  function Late(it: Item, attempted: bool): Item {
    if attempted then it.(status := Unknown, stage := AtUnknown) else it.(status := Failed, stage := AtFailed)
  }

  // ---------------------------------------------------------------- guards

  /** When an event can happen.  The clauses about `remote` are the assumptions on the
      service: suggestions are fresh; a capacity or rate-limit answer means "not created";
      a list that contains every locally known id is complete; and nobody else reserves
      an address suggested to this worker. */
  predicate Enabled(w: World, e: Event) {
    match e
    case StartGenerate(i) => AtRest(w, i) && Candidate(w.items[i]) == ""
    case GenerateFull(i) => AtStage(w, i, Generating)
    case GenerateLimited(i) => AtStage(w, i, Generating)
    case GenerateFaulted(i) => AtStage(w, i, Generating)
    case SaveCandidate(i, c) => AtStage(w, i, Generating) && OneAt(c) && c !in w.owner && c !in w.remote
    case ReconcileUnavailable(i) => AtRest(w, i) && Marked(w.items[i])
    case ReconcileStopped(i) => AtRest(w, i) && Marked(w.items[i])
    case ReconcileAbsent(i) => AtRest(w, i) && Marked(w.items[i]) && Candidate(w.items[i]) !in w.remote
    case StopBeforeReserve(i) => AtRest(w, i) && !Marked(w.items[i]) && Candidate(w.items[i]) != ""
    case SessionGone(i) => AtRest(w, i) && !Marked(w.items[i]) && Candidate(w.items[i]) != ""
    case StartReserve(i) => AtRest(w, i) && !Marked(w.items[i]) && Candidate(w.items[i]) != ""
                            && w.items[i].result.wait == NoWait
    case ReserveApplied(i) => AtStage(w, i, Reserving) && Candidate(w.items[i]) !in w.remote
    case ReserveFull(i) => AtStage(w, i, Reserving) && Candidate(w.items[i]) !in w.remote
    case ReserveLimited(i) => AtStage(w, i, Reserving) && Candidate(w.items[i]) !in w.remote
    case ReserveUnresolved(i, _, resolution) =>
      AtStage(w, i, Reserving) && (resolution == Absent ==> Candidate(w.items[i]) !in w.remote)
    case ReserveStopped(i) => AtStage(w, i, Reserving)
    case RecordLocal(i) => Completable(w, i) && Candidate(w.items[i]) in w.ever
    case Succeed(i) => Completable(w, i) && Candidate(w.items[i]) in w.ever
    case MarkUnknown(i) => AtStage(w, i, Reserving)
    case MarkFailed(i) => AtRest(w, i) || AtStage(w, i, Generating)
    case EarlyStop(i) => AtRest(w, i) && !Marked(w.items[i])
    case EarlyFault(i) => AtRest(w, i) && !Marked(w.items[i])
    case LateError(i, _) => i < |w.items| && w.items[i].status == Success && w.items[i].result.Created?
    case ClearRateLimit(i) => AtRest(w, i) && w.items[i].result.wait == RateLimited
    case ClearTransient(i) => AtRest(w, i) && w.items[i].result.wait == Transient
    case Recover => true
    case Resume(unknown) =>
      forall i | i in unknown :: Has(w, i) && w.items[i].status == Unknown && OneAt(Candidate(w.items[i]))
    case NewJob(_) => true
    case RemoteAdded(a) => a !in w.owner
    case RemoteRemoved(a) => a in w.remote && (a in w.owner ==> w.owner[a] < |w.lost|)
    case LocalSynced(_) => true
    case LocalForgot(_) => true
  }

  // ---------------------------------------------------------------- effects

  function Put(w: World, i: nat, it: Item): World
    requires i < |w.items|
  {
    w.(items := w.items[i := it])
  }

  /** The row a single-row event leaves behind. */
  function RowAfter(it: Item, e: Event): Item
    requires it.result.Pending?
  {
    match e
    case StartGenerate(_) => it.(status := Running, stage := Generating)
    case GenerateFull(_) => Item(Queued, WaitingCapacity, Pending("", false, CapacityReached, 0))
    case GenerateLimited(_) => Item(Queued, WaitingQuota, it.result.(wait := RateLimited))
    case GenerateFaulted(_) => Parked("", false, Attempts(it) + 1)
    case SaveCandidate(_, c) => Item(Queued, Generated, Pending(c, false, NoWait, 0))
    case ReconcileUnavailable(_) => Parked(Candidate(it), true, Attempts(it) + 1)
    case ReconcileStopped(_) => Item(Queued, Reconciling, it.result.(wait := NoWait, reconcile := true))
    case ReconcileAbsent(_) => Item(Queued, Generated, it.result.(wait := NoWait, reconcile := false))
    case StopBeforeReserve(_) => Item(Queued, Generated, it.result.(wait := NoWait, reconcile := false))
    case SessionGone(_) => Parked(Candidate(it), false, Attempts(it) + 1)
    case StartReserve(_) => it.(status := Running, stage := Reserving)
    case ReserveFull(_) => Item(Queued, WaitingCapacity, Pending("", false, CapacityReached, 0))
    case ReserveLimited(_) => Item(Queued, WaitingQuota, Pending("", false, RateLimited, Attempts(it)))
    case ReserveUnresolved(_, fault, resolution) => AfterReserveFault(it, fault, resolution)
    case ReserveStopped(_) => Item(Queued, Reconciling, it.result.(wait := NoWait, reconcile := true))
    case Succeed(_) => Item(Success, Completed, Created(Candidate(it)))
    case MarkUnknown(_) => it.(status := Unknown, stage := AtUnknown)
    case MarkFailed(_) => it.(status := Failed, stage := AtFailed)
    case EarlyStop(_) => Item(Queued, AtQueued, Pending("", false, NoWait, Attempts(it)))
    case EarlyFault(_) => Parked("", false, Attempts(it) + 1)
    case ClearRateLimit(_) => Item(Queued, AtQueued, Pending("", false, NoWait, Attempts(it)))
    case ClearTransient(_) => Unparked(it)
    case _ => it
  }

  function Apply(w: World, e: Event): World {
    match e
    case Recover => w.(items := seq(|w.items|, j requires 0 <= j < |w.items| => Recovered(w.items[j])))
    case Resume(unknown) =>
      w.(items := seq(|w.items|, j requires 0 <= j < |w.items| =>
        if j in unknown && w.items[j].result.Pending? then Resumed(w.items[j]) else w.items[j]))
    case NewJob(count) =>
      w.(items := w.items + seq(count, _ => NewItem),
      made := w.made + seq(count, _ => 0),
      lost := w.lost + seq(count, _ => 0))
    case RemoteAdded(a) => w.(remote := w.remote + {a})
    case RemoteRemoved(a) =>
      var w' := w.(remote := w.remote - {a});
      if a in w.owner && w.owner[a] < |w.lost|
      then w'.(lost := w.lost[w.owner[a] := w.lost[w.owner[a]] + 1])
      else w'
    case LocalSynced(es) => w.(known := w.known + es)
    case LocalForgot(a) => w.(known := w.known - {a})
    case ReserveApplied(i) =>
      if Has(w, i) && i < |w.made| then
        var c := Candidate(w.items[i]);
        w.(remote := w.remote + {c}, ever := w.ever + {c}, made := w.made[i := w.made[i] + 1])
      else w
    case LateError(i, attempted) => if i < |w.items| then Put(w, i, Late(w.items[i], attempted)) else w
    case RecordLocal(i) => if Has(w, i) then w.(known := w.known + {Candidate(w.items[i])}) else w
    case SaveCandidate(i, c) =>
      if Has(w, i) then Put(w, i, RowAfter(w.items[i], e)).(owner := w.owner[c := i]) else w
    case _ => if Has(w, e.i) then Put(w, e.i, RowAfter(w.items[e.i], e)) else w
  }

  function Exec(w: World, es: seq<Event>): World
    decreases |es|
  {
    if es == [] then w else Exec(Apply(w, es[0]), es[1..])
  }

  predicate Legal(w: World, es: seq<Event>)
    decreases |es|
  {
    es == [] || (Enabled(w, es[0]) && Legal(Apply(w, es[0]), es[1..]))
  }

  // ---------------------------------------------------------------- what is promised

  /** Remote aliases that came from item i. */
  function Live(w: World, i: nat): set<Email> {
    set e | e in w.remote && e in w.owner && w.owner[e] == i
  }

  ghost predicate Sized(w: World) { |w.made| == |w.items| && |w.lost| == |w.items| }

  /** At most one alias of an item exists; it was created at most once more often than
      aliases of the item were removed behind the worker's back; a row that records an
      address, as every success row does, records exactly that alias; a queued item whose
      candidate already exists carries that candidate and the reconcile mark. */
  ghost predicate ItemPromise(w: World, i: nat)
    requires Sized(w) && i < |w.items|
  {
    var it := w.items[i];
    && |Live(w, i)| <= 1
    && w.made[i] == w.lost[i] + |Live(w, i)|
    && (it.status == Success ==> it.result.Created?)
    && (it.result.Created? ==>
          && it.result.email in w.ever
          && w.owner.Keys >= {it.result.email} && w.owner[it.result.email] == i
          && Live(w, i) <= {it.result.email}
          && (w.lost[i] == 0 ==> Live(w, i) == {it.result.email} && w.made[i] == 1))
    && (it.status == Queued && Live(w, i) != {} ==>
          Marked(it) && Live(w, i) == {Candidate(it)})
  }

  ghost predicate Promise(w: World) {
    Sized(w) && forall i: nat | i < |w.items| :: ItemPromise(w, i)
  }

  // ---------------------------------------------------------------- invariant

  ghost predicate LiveOnly(w: World, i: nat, c: Email) {
    forall e :: e in w.remote && e in w.owner && w.owner[e] == i ==> e == c
  }

  /** What holds of a row of item i in every reachable world. */
  ghost predicate RowOk(w: World, i: nat, it: Item) {
    match it.result
    case Created(e) =>
      && it.status in {Success, Unknown, Failed} && e in w.ever && e in w.owner && w.owner[e] == i && LiveOnly(w, i, e)
    case Pending(c, mark, wait, _) =>
      && it.status != Success
      && (c != "" ==> c in w.owner && w.owner[c] == i)
      && LiveOnly(w, i, c)
      && (mark ==> c != "")
      && (it.status == Queued && !mark && c != "" ==> c !in w.remote)
      && (wait == RateLimited || wait == CapacityReached ==> c == "")
      && (it.status == Running ==>
            || (it.stage == Generating && c == "")
            || (it.stage == Reserving && c != "" && wait == NoWait))
      && (it.status == Unknown ==> c != "")
  }

  ghost predicate Books(w: World) {
    && Sized(w)
    && (forall e | e in w.owner :: OneAt(e) && w.owner[e] < |w.items|)
    && (forall e | e in w.ever :: e in w.owner && w.made[w.owner[e]] >= 1)
    && (forall e | e in w.remote && e in w.owner :: e in w.ever)
    && (forall i: nat | i < |w.items| :: w.made[i] == w.lost[i] + |Live(w, i)|)
  }

  ghost predicate Inv(w: World) {
    Books(w) && forall i: nat | i < |w.items| :: RowOk(w, i, w.items[i])
  }
}
